/**
 * The `Config` class of config.py: settings read once from the environment,
 * and `validate`, which refuses to start when a required variable is unset
 * or empty and otherwise goes on to create the temporary directory.
 */
module AppConfig {
  import opened Wrappers
  import opened Text

  const DefaultModel: string := "gpt-4o-mini"
  const TempDir: string := "/tmp/manim_output"
  const MissingPrefix: string := "Missing required environment variables: "
  const MissingSuffix: string := ". Please check your .env file."

  datatype Config = Config(
    openaiApiKey: Option<string>,
    openaiModel: string,
    gcpProjectId: Option<string>,
    gcsBucketName: Option<string>,
    gcsCredentialsPath: Option<string>)

  /** `os.getenv(name)`. */
  function GetEnv(env: map<string, string>, name: string): Option<string> {
    if name in env then Some(env[name]) else None
  }

  /** The class attributes, as read from the environment `env`. */
  function FromEnvironment(env: map<string, string>): (c: Config)
    ensures "OPENAI_MODEL" !in env ==> c.openaiModel == DefaultModel
    ensures "OPENAI_MODEL" in env ==> c.openaiModel == env["OPENAI_MODEL"]
  {
    Config(
      GetEnv(env, "OPENAI_API_KEY"),
      if "OPENAI_MODEL" in env then env["OPENAI_MODEL"] else DefaultModel,
      GetEnv(env, "GCP_PROJECT_ID"),
      GetEnv(env, "GCS_BUCKET_NAME"),
      GetEnv(env, "GOOGLE_APPLICATION_CREDENTIALS"))
  }

  /** The `required_vars` list of `validate`, in its fixed order. */
  function RequiredVars(c: Config): seq<(string, Option<string>)> {
    [("OPENAI_API_KEY", c.openaiApiKey),
     ("GCP_PROJECT_ID", c.gcpProjectId),
     ("GCS_BUCKET_NAME", c.gcsBucketName),
     ("GOOGLE_APPLICATION_CREDENTIALS", c.gcsCredentialsPath)]
  }

  /** `[name for name, value in vars if not value]`. */
  function MissingFrom(vars: seq<(string, Option<string>)>): seq<string> {
    if vars == [] then []
    else (if !Truthy(vars[0].1) then [vars[0].0] else []) + MissingFrom(vars[1..])
  }

  function Missing(c: Config): seq<string> {
    MissingFrom(RequiredVars(c))
  }

  /** Every position moved one place on, for a list that lost its first element. */
  function Shifted(positions: seq<nat>): (r: seq<nat>)
    ensures |r| == |positions|
    ensures forall i :: 0 <= i < |r| ==> r[i] == positions[i] + 1
  {
    if positions == [] then [] else [positions[0] + 1] + Shifted(positions[1..])
  }

  /** The positions in `vars` whose value is falsy, in increasing order. */
  function MissingPositions(vars: seq<(string, Option<string>)>): (r: seq<nat>)
    ensures forall i :: 0 <= i < |r| ==> r[i] < |vars| && !Truthy(vars[r[i]].1)
  {
    if vars == [] then []
    else
      var later := MissingPositions(vars[1..]);
      assert forall i :: 0 <= i < |later| ==> vars[1..][later[i]] == vars[later[i] + 1];
      (if !Truthy(vars[0].1) then [0] else []) + Shifted(later)
  }

  /** The i-th missing name is the name at the i-th falsy position. */
  lemma {:induction false} MissingFromNames(vars: seq<(string, Option<string>)>)
    ensures |MissingPositions(vars)| == |MissingFrom(vars)|
    ensures forall i :: 0 <= i < |MissingFrom(vars)| ==> MissingFrom(vars)[i] == vars[MissingPositions(vars)[i]].0
  {
    if vars != [] {
      var tail := vars[1..];
      MissingFromNames(tail);
      var later := MissingFrom(tail);
      var rest := MissingPositions(tail);
      var shifted := Shifted(rest);
      forall i | 0 <= i < |later|
        ensures later[i] == vars[shifted[i]].0
      {
        assert tail[rest[i]] == vars[shifted[i]];
      }
      if Truthy(vars[0].1) {
        assert MissingFrom(vars) == later;
        assert MissingPositions(vars) == shifted;
      } else {
        var all := MissingFrom(vars);
        var idx := MissingPositions(vars);
        assert all == [vars[0].0] + later;
        assert idx == [0] + shifted;
        forall i | 0 <= i < |all|
          ensures all[i] == vars[idx[i]].0
        {
          if i > 0 {
            assert all[i] == later[i - 1] && idx[i] == shifted[i - 1];
          }
        }
      }
    }
  }

  predicate Increasing(s: seq<nat>) {
    forall i, j :: 0 <= i < j < |s| ==> s[i] < s[j]
  }

  lemma ShiftedIncreasing(s: seq<nat>)
    requires Increasing(s)
    ensures Increasing(Shifted(s))
    ensures Increasing([0] + Shifted(s))
  {
    var t := Shifted(s);
    var u := [0] + t;
    forall i, j | 0 <= i < j < |u|
      ensures u[i] < u[j]
    {
      assert u[j] == t[j - 1] == s[j - 1] + 1;
      if i > 0 {
        assert u[i] == t[i - 1] == s[i - 1] + 1;
      }
    }
  }

  lemma {:induction false} MissingPositionsIncreasing(vars: seq<(string, Option<string>)>)
    ensures Increasing(MissingPositions(vars))
  {
    if vars != [] {
      MissingPositionsIncreasing(vars[1..]);
      ShiftedIncreasing(MissingPositions(vars[1..]));
    }
  }

  lemma {:induction false} MissingPositionsComplete(vars: seq<(string, Option<string>)>)
    ensures forall k :: 0 <= k < |vars| && !Truthy(vars[k].1) ==> k in MissingPositions(vars)
  {
    if vars != [] {
      var tail := vars[1..];
      MissingPositionsComplete(tail);
      var shifted := Shifted(MissingPositions(tail));
      var idx := MissingPositions(vars);
      forall k | 0 <= k < |vars| && !Truthy(vars[k].1)
        ensures k in idx
      {
        if k > 0 {
          assert tail[k - 1] == vars[k];
          var i :| 0 <= i < |MissingPositions(tail)| && MissingPositions(tail)[i] == k - 1;
          assert shifted[i] == k;
          assert k in shifted;
        } else {
          assert idx[0] == k;
        }
      }
    }
  }

  /**
   * The missing names are exactly the names with a falsy value, listed in
   * the order of `vars`: `idx` gives, increasing, the position each one comes from.
   */
  lemma MissingFromPositions(vars: seq<(string, Option<string>)>) returns (idx: seq<nat>)
    ensures |idx| == |MissingFrom(vars)|
    ensures forall i :: 0 <= i < |idx| ==>
              idx[i] < |vars| && MissingFrom(vars)[i] == vars[idx[i]].0 && !Truthy(vars[idx[i]].1)
    ensures forall i, j :: 0 <= i < j < |idx| ==> idx[i] < idx[j]
    ensures forall k :: 0 <= k < |vars| && !Truthy(vars[k].1) ==> k in idx
  {
    idx := MissingPositions(vars);
    MissingFromNames(vars);
    MissingPositionsIncreasing(vars);
    MissingPositionsComplete(vars);
  }

  lemma {:induction false} MissingFromEmptyIff(vars: seq<(string, Option<string>)>)
    ensures MissingFrom(vars) == [] <==> forall k :: 0 <= k < |vars| ==> Truthy(vars[k].1)
  {
    if vars != [] {
      MissingFromEmptyIff(vars[1..]);
      assert forall k :: 1 <= k < |vars| ==> vars[1..][k - 1] == vars[k];
    }
  }

  /** `validate()`: a `ValueError` message, or the directory it then creates. */
  function Validate(c: Config): (r: Result<string, string>)
    ensures r.Success? ==> r.value == TempDir
  {
    var missing := Missing(c);
    if missing != [] then Failure(MissingPrefix + Join(missing, ", ") + MissingSuffix)
    else Success(TempDir)
  }

  /** Start-up goes ahead exactly when all four required settings are present and non-empty. */
  lemma ValidateSucceedsIff(c: Config)
    ensures Validate(c).Success? <==>
              Truthy(c.openaiApiKey) && Truthy(c.gcpProjectId) && Truthy(c.gcsBucketName) && Truthy(c.gcsCredentialsPath)
  {
    var vars := RequiredVars(c);
    MissingFromEmptyIff(vars);
    assert vars[0].1 == c.openaiApiKey && vars[1].1 == c.gcpProjectId;
    assert vars[2].1 == c.gcsBucketName && vars[3].1 == c.gcsCredentialsPath;
  }

  /** The error names every missing variable, between the fixed prefix and suffix. */
  lemma ValidateMessage(c: Config)
    requires Validate(c).Failure?
    ensures StartsWith(Validate(c).error, MissingPrefix)
    ensures EndsWith(Validate(c).error, MissingSuffix)
    ensures forall name :: name in Missing(c) ==> Contains(Validate(c).error, name)
  {
    var missing := Missing(c);
    var joined := Join(missing, ", ");
    var message := Validate(c).error;
    assert message == MissingPrefix + joined + MissingSuffix;
    assert message[..|MissingPrefix|] == MissingPrefix;
    assert message[|message| - |MissingSuffix|..] == MissingSuffix;
    forall name | name in missing
      ensures Contains(message, name)
    {
      var k :| 0 <= k < |missing| && missing[k] == name;
      JoinContainsParts(missing, ", ", k);
      ContainsExtended(MissingPrefix, joined, MissingSuffix, name);
    }
  }

  /** The model name is never required: changing it never changes the outcome of validation. */
  lemma ModelNotRequired(c: Config, model: string)
    ensures Validate(c.(openaiModel := model)) == Validate(c)
  {
  }

  /** With nothing set, all four names are reported, in the fixed order. */
  lemma NothingSet()
    ensures Missing(FromEnvironment(map[])) ==
              ["OPENAI_API_KEY", "GCP_PROJECT_ID", "GCS_BUCKET_NAME", "GOOGLE_APPLICATION_CREDENTIALS"]
    ensures FromEnvironment(map[]).openaiModel == DefaultModel
  {
  }

  /** A required variable set to the empty string is as missing as an unset one. */
  lemma EmptyCountsAsMissing(env: map<string, string>, k: nat)
    requires k < 4
    requires var n := RequiredVars(FromEnvironment(env))[k].0; n in env && env[n] == ""
    ensures RequiredVars(FromEnvironment(env))[k].0 in Missing(FromEnvironment(env))
    ensures Validate(FromEnvironment(env)).Failure?
  {
    var vars := RequiredVars(FromEnvironment(env));
    var idx := MissingFromPositions(vars);
    assert !Truthy(vars[k].1);
    var i :| 0 <= i < |idx| && idx[i] == k;
  }
}
