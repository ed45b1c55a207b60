/**
 * `extract_code` and `is_manim_code` from main.py.
 *
 * `extract_code` runs `re.findall` with the pattern
 *   three backticks, an optional literal `python`, a newline, then a lazy
 *   `(.*?)` (DOTALL) up to the next three backticks,
 * joins the captured groups with newlines and strips the result, or strips the
 * whole text when nothing matched. The regular expression is modelled here as
 * the left-to-right scan `re.findall` performs for this particular pattern.
 */
module CodeExtraction {
  import opened Wrappers
  import opened Text

  const Fence: string := "```"
  const TaggedOpener: string := "```python\n"
  const PlainOpener: string := "```\n"

  /**
   * The length of the opening fence at the start of `t`, if there is one.
   * The two openers differ at index 3 (`p` against a newline), so at most one applies.
   */
  function OpenerLength(t: string): (k: Option<nat>)
    ensures k.Some? ==> k.value == |TaggedOpener| || k.value == |PlainOpener|
  {
    if StartsWith(t, TaggedOpener) then Some(|TaggedOpener|)
    else if StartsWith(t, PlainOpener) then Some(|PlainOpener|)
    else None
  }

  /**
   * One attempt of the pattern at the start of `t`: the captured content and
   * the text after the closing fence, where scanning resumes.
   */
  function MatchAt(t: string): (m: Option<(string, string)>)
    ensures m.Some? ==> |m.value.1| < |t|
  {
    match OpenerLength(t)
    case None => None
    case Some(k) =>
      match IndexOf(t, Fence, k)
      case None => None
      case Some(j) => Some((t[k..j], t[j + |Fence|..]))
  }

  /** The list `re.findall` returns: every captured block, in order of appearance. */
  function Blocks(t: string): seq<string>
    decreases |t|
  {
    if t == [] then []
    else match MatchAt(t)
      case Some((content, rest)) => [content] + Blocks(rest)
      case None => Blocks(t[1..])
  }

  /** `extract_code(text)`. */
  function ExtractCode(text: string): (code: string)
    ensures code == [] || (!IsSpace(code[0]) && !IsSpace(code[|code| - 1]))
  {
    var blocks := Blocks(text);
    if blocks != [] then Strip(Join(blocks, "\n")) else Strip(text)
  }

  // ---------------------------------------------------------------------------
  // The fence grammar, stated independently of the scan

  /** Three backticks occur somewhere at or after index `k` of `t`. */
  ghost predicate FenceFrom(t: string, k: nat) {
    exists j :: k <= j && OccursAt(t, Fence, j)
  }

  /** A fenced block starts at the beginning of `t`: an opener and a later closing fence. */
  ghost predicate OpensBlock(t: string) {
    (StartsWith(t, TaggedOpener) && FenceFrom(t, |TaggedOpener|))
    || (StartsWith(t, PlainOpener) && FenceFrom(t, |PlainOpener|))
  }

  lemma OpenersExclusive(t: string)
    ensures !(StartsWith(t, TaggedOpener) && StartsWith(t, PlainOpener))
  {
    if StartsWith(t, TaggedOpener) {
      assert t[3] == t[..|TaggedOpener|][3] == 'p';
    }
  }

  /** A single attempt succeeds exactly when a block opens at the start of `t`. */
  lemma MatchAtIff(t: string)
    ensures MatchAt(t).Some? <==> OpensBlock(t)
  {
    OpenersExclusive(t);
    if OpensBlock(t) {
      var k := if StartsWith(t, TaggedOpener) then |TaggedOpener| else |PlainOpener|;
      assert OpenerLength(t) == Some(k);
      var j :| k <= j && OccursAt(t, Fence, j);
      assert IndexOf(t, Fence, k).Some?;
    }
  }

  /**
   * Nothing is extracted from the text exactly when no position of it starts
   * a fenced block; this is when `extract_code` falls back to the whole text.
   */
  lemma {:induction false} BlocksEmptyIff(t: string)
    ensures Blocks(t) == [] <==> forall i :: 0 <= i <= |t| ==> !OpensBlock(t[i..])
    decreases |t|
  {
    assert t[0..] == t;
    MatchAtIff(t);
    if t == [] {
      assert !StartsWith(t, TaggedOpener) && !StartsWith(t, PlainOpener);
    } else if MatchAt(t).None? {
      BlocksEmptyIff(t[1..]);
      forall i | 1 <= i <= |t|
        ensures t[i..] == t[1..][i - 1..]
      {
      }
      if Blocks(t) != [] {
        var i :| 0 <= i <= |t[1..]| && OpensBlock(t[1..][i..]);
        assert t[1..][i..] == t[i + 1..];
      }
    }
  }

  /** The content of a successful attempt holds no fence: it ends at the first closing fence. */
  lemma MatchContentFenceFree(t: string)
    requires MatchAt(t).Some?
    ensures !Contains(MatchAt(t).value.0, Fence)
  {
    var k := OpenerLength(t).value;
    var j := IndexOf(t, Fence, k).value;
    var content := t[k..j];
    assert MatchAt(t).value.0 == content;
    forall m | 0 <= m
      ensures !OccursAt(content, Fence, m)
    {
      if m + |Fence| <= |content| {
        SliceOfSlice(t, k, j, m, m + |Fence|);
        assert !OccursAt(t, Fence, k + m);
      }
    }
  }

  /** No captured block contains a fence: blocks never overlap or nest. */
  lemma {:induction false} BlocksFenceFree(t: string)
    ensures forall b :: b in Blocks(t) ==> !Contains(b, Fence)
    decreases |t|
  {
    if t != [] {
      if MatchAt(t).None? {
        BlocksFenceFree(t[1..]);
      } else {
        var rest := MatchAt(t).value.1;
        MatchContentFenceFree(t);
        BlocksFenceFree(rest);
        assert Blocks(t) == [MatchAt(t).value.0] + Blocks(rest);
      }
    }
  }

  // ---------------------------------------------------------------------------
  // Documents built from prose and fenced blocks

  /**
   * Code that can sit between an opener and a closing fence and be captured
   * whole: it holds no fence and does not end in a backtick (which would
   * merge with the closing fence).
   */
  ghost predicate Embeddable(code: string) {
    !Contains(code, Fence) && (code == [] || code[|code| - 1] != '`')
  }

  function Opener(tagged: bool): string {
    if tagged then TaggedOpener else PlainOpener
  }

  /**
   * No block opens inside prose that holds no fence, when the prose is
   * followed by nothing or by a fence: a trailing one or two backticks run
   * into that fence, and the character after the first three is a backtick,
   * neither `p` nor a newline.
   */
  lemma ProseOpensNothing(prose: string, t: string, p: nat)
    requires !Contains(prose, Fence)
    requires t == [] || StartsWith(t, Fence)
    requires p < |prose|
    ensures OpenerLength((prose + t)[p..]).None?
  {
    var s := (prose + t)[p..];
    var n := |prose| - p;
    assert TaggedOpener[..3] == Fence && PlainOpener[..3] == Fence;
    assert TaggedOpener[3] == 'p' && PlainOpener[3] == '\n';
    if n >= 3 {
      assert !OccursAt(prose, Fence, p);
      assert s[..3] == prose[p..p + 3];
      assert !StartsWith(s, Fence);
    } else if |s| >= 4 {
      assert s[3] == t[3 - n] == Fence[3 - n] == '`';
    }
  }

  /** Prose without a fence, in front of a block or at the end, is skipped by the scan. */
  lemma {:induction false} SkipProse(prose: string, t: string)
    requires !Contains(prose, Fence)
    requires t == [] || StartsWith(t, Fence)
    ensures Blocks(prose + t) == Blocks(t)
    decreases |prose|
  {
    if prose != [] {
      var s := prose + t;
      ProseOpensNothing(prose, t, 0);
      assert s[0..] == s;
      assert MatchAt(s).None?;
      assert Blocks(s) == Blocks(s[1..]);
      assert s[1..] == prose[1..] + t;
      AbsentFromSuffix(prose, Fence, 1);
      SkipProse(prose[1..], t);
    } else {
      assert prose + t == t;
    }
  }

  /** Inside embeddable code that is followed by a fence, the first fence is the one after it. */
  lemma NoFenceBeforeClose(s: string, k: nat, code: string, m: nat)
    requires Embeddable(code)
    requires k + |code| <= |s| && s[k..k + |code|] == code
    requires k <= m < k + |code|
    ensures !OccursAt(s, Fence, m)
  {
    var c := k + |code|;
    if m + |Fence| <= c {
      if OccursAt(s, Fence, m) {
        var inCode := code[m - k..m - k + |Fence|];
        var inText := s[m..m + |Fence|];
        forall i | 0 <= i < |Fence|
          ensures inCode[i] == inText[i]
        {
          assert inText[i] == s[m + i] == s[k..c][m - k + i];
        }
        assert inCode == inText;
        ContainsAt(code, Fence, m - k);
      }
    } else if m + |Fence| <= |s| {
      // the window starting at m covers the last character of the code, which is not a backtick
      var i := c - 1 - m;
      assert s[m..m + |Fence|][i] == s[c - 1] == s[k..c][|code| - 1];
      assert Fence[i] == '`';
    }
  }

  /** A fenced block at the start of the text is captured whole, and the scan resumes after it. */
  lemma BlockThenRest(tagged: bool, code: string, t: string)
    requires Embeddable(code)
    ensures Blocks(Opener(tagged) + code + Fence + t) == [code] + Blocks(t)
  {
    var o := Opener(tagged);
    var s := o + code + Fence + t;
    var k := |o|;
    var c := k + |code|;
    ConcatParts(o, code, Fence + t);
    ConcatParts(o + code, Fence, t);
    assert s[..k] == o && s[k..c] == code && s[c..c + |Fence|] == Fence && s[c + |Fence|..] == t;
    OpenersExclusive(s);
    assert OpenerLength(s) == Some(k);
    assert OccursAt(s, Fence, c);
    forall m | k <= m < c
      ensures !OccursAt(s, Fence, m)
    {
      NoFenceBeforeClose(s, k, code, m);
    }
    assert IndexOf(s, Fence, k) == Some(c);
  }

  /** One stretch of model output: prose, then a fenced block holding `code`. */
  datatype Segment = Segment(prose: string, tagged: bool, code: string)

  /** The text made of the segments in order, followed by `tail`. */
  function Document(segments: seq<Segment>, tail: string): string
  {
    if segments == [] then tail
    else
      var s := segments[0];
      s.prose + (Opener(s.tagged) + s.code + Fence + Document(segments[1..], tail))
  }

  function Codes(segments: seq<Segment>): (codes: seq<string>)
    ensures |codes| == |segments|
    ensures forall i :: 0 <= i < |segments| ==> codes[i] == segments[i].code
  {
    if segments == [] then [] else [segments[0].code] + Codes(segments[1..])
  }

  /**
   * The prose and the tail hold no fence (inline code in single or double
   * backticks is allowed), and every code can be captured whole.
   */
  ghost predicate WellFormed(segments: seq<Segment>, tail: string) {
    !Contains(tail, Fence)
    && forall i :: 0 <= i < |segments| ==> !Contains(segments[i].prose, Fence) && Embeddable(segments[i].code)
  }

  /** The blocks of a document are its codes, in order, whatever prose surrounds them. */
  lemma {:induction false} DocumentBlocks(segments: seq<Segment>, tail: string)
    requires WellFormed(segments, tail)
    ensures Blocks(Document(segments, tail)) == Codes(segments)
  {
    if segments == [] {
      SkipProse(tail, "");
      assert tail + "" == tail;
    } else {
      var s := segments[0];
      DocumentBlocks(segments[1..], tail);
      var rest := Document(segments[1..], tail);
      var block := Opener(s.tagged) + s.code + Fence + rest;
      assert block[..3] == Opener(s.tagged)[..3] == Fence;
      SkipProse(s.prose, block);
      BlockThenRest(s.tagged, s.code, rest);
    }
  }

  /**
   * What `extract_code` returns for such a document: the codes joined by
   * newlines and stripped; with no block at all, the stripped text.
   */
  lemma ExtractFromDocument(segments: seq<Segment>, tail: string)
    requires WellFormed(segments, tail)
    ensures segments != [] ==> ExtractCode(Document(segments, tail)) == Strip(Join(Codes(segments), "\n"))
    ensures segments == [] ==> ExtractCode(Document(segments, tail)) == Strip(tail)
  {
    DocumentBlocks(segments, tail);
  }

  /** Text without a fence and without surrounding whitespace is taken as the code unchanged. */
  lemma ExtractPlainText(text: string)
    requires !Contains(text, Fence)
    requires text == [] || (!IsSpace(text[0]) && !IsSpace(text[|text| - 1]))
    ensures ExtractCode(text) == text
  {
    SkipProse(text, "");
    assert text + "" == text;
    assert StripLeft(text) == text;
    assert StripRight(text) == text;
  }

  /**
   * Prose around empty blocks is discarded: once any block matches, only
   * block contents count, so a document whose blocks are all empty gives `""`.
   */
  lemma EmptyBlocksDiscardProse(segments: seq<Segment>, tail: string)
    requires WellFormed(segments, tail) && segments != []
    requires forall i :: 0 <= i < |segments| ==> segments[i].code == ""
    ensures ExtractCode(Document(segments, tail)) == ""
  {
    var codes := Codes(segments);
    assert forall k :: 0 <= k < |codes| ==> AllSpace(codes[k]) by {
      forall k | 0 <= k < |codes|
        ensures AllSpace(codes[k])
      {
        assert codes[k] == segments[k].code == "";
      }
    }
    NewlineIsSpace();
    JoinAllSpace(codes, "\n");
    StripAllSpace(Join(codes, "\n"));
    ExtractFromDocument(segments, tail);
  }

  // ---------------------------------------------------------------------------
  // is_manim_code

  const Keywords: seq<string> := ["Scene", "construct", "class"]

  /** `is_manim_code(code)`: every keyword occurs, case-sensitively, as a substring. */
  predicate IsManimCode(code: string)
  {
    forall k :: 0 <= k < |Keywords| ==> Contains(code, Keywords[k])
  }

  /** The keywords, each at some index of the code. */
  lemma IsManimCodeIff(code: string)
    ensures IsManimCode(code) <==>
              && (exists i :: OccursAt(code, "Scene", i))
              && (exists i :: OccursAt(code, "construct", i))
              && (exists i :: OccursAt(code, "class", i))
  {
    assert Keywords[0] == "Scene" && Keywords[1] == "construct" && Keywords[2] == "class";
    ContainsIff(code, "Scene");
    ContainsIff(code, "construct");
    ContainsIff(code, "class");
  }

  /** Extending accepted code on either side never makes it rejected. */
  lemma IsManimCodeMonotone(before: string, code: string, after: string)
    requires IsManimCode(code)
    ensures IsManimCode(before + code + after)
  {
    forall k | 0 <= k < |Keywords|
      ensures Contains(before + code + after, Keywords[k])
    {
      ContainsExtended(before, code, after, Keywords[k]);
    }
  }

  lemma EmptyCodeRejected()
    ensures !IsManimCode("")
  {
    AbsentFirstChar("", "Scene");
    assert Keywords[0] == "Scene";
  }

  /** Code that defines `construct` but names no scene class is rejected. */
  lemma ConstructAloneRejected()
    ensures !IsManimCode("def construct(self): pass")
  {
    var code := "def construct(self): pass";
    assert 'S' !in code;
    AbsentFirstChar(code, "Scene");
    assert Keywords[0] == "Scene";
  }

  /** Text holding the three keywords, here in the order a scene class declares them, is accepted. */
  lemma KeywordsAccepted(a: string, b: string, c: string, d: string)
    ensures IsManimCode(a + "class" + b + "Scene" + c + "construct" + d)
  {
    var code := a + "class" + b + "Scene" + c + "construct" + d;
    assert Contains(code, "class") by {
      ContainsItself("class");
      ContainsExtended(a, "class", b + "Scene" + c + "construct" + d, "class");
      assert a + "class" + (b + "Scene" + c + "construct" + d) == code;
    }
    assert Contains(code, "Scene") by {
      ContainsItself("Scene");
      ContainsExtended(a + "class" + b, "Scene", c + "construct" + d, "Scene");
      assert a + "class" + b + "Scene" + (c + "construct" + d) == code;
    }
    assert Contains(code, "construct") by {
      ContainsItself("construct");
      ContainsExtended(a + "class" + b + "Scene" + c, "construct", d, "construct");
    }
    assert Keywords[0] == "Scene" && Keywords[1] == "construct" && Keywords[2] == "class";
  }
}
