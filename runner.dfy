/**
 * The decisions of `run_manim` and `find_video_file` in main.py.
 *
 * The temporary directory, writing the script, running the subprocess and
 * the upload are effects; the model takes their outcomes as inputs: the
 * directory's path, how the process ended, which files exist afterwards, the
 * random identifier, and what the store answers for an upload.
 */
module ManimRunner {
  import opened Wrappers
  import opened Text

  /** `Path(dir) / name` for a relative name. */
  function JoinPath(dir: string, name: string): string {
    dir + "/" + name
  }

  /** The per-request temporary directory `run_manim` works in. */
  datatype Workspace = Workspace(root: string)

  function OutputDir(ws: Workspace): string {
    JoinPath(ws.root, "output")
  }

  function ScriptPath(ws: Workspace): string {
    JoinPath(ws.root, "scene.py")
  }

  const SceneClass: string := "Scene"
  const OutputName: string := "output"
  const QualityFlag: string := "-ql"

  /**
   * The argument list passed to the process. It is a list of separate
   * arguments (no shell), and the generated code is not among its inputs: the
   * code reaches the tool only through the script file.
   */
  function ManimCommand(mediaDir: string, format: string, script: string): seq<string> {
    ["manim", "--media_dir", mediaDir, QualityFlag, "--output_file", OutputName,
     "--format", format, script, SceneClass]
  }

  /** How a command-line parser reads `--flag value`: the argument after the first `flag`. */
  function OptionValue(argv: seq<string>, flag: string): (v: Option<string>)
  {
    if |argv| < 2 then None
    else if argv[0] == flag then Some(argv[1])
    else OptionValue(argv[1..], flag)
  }

  lemma {:induction false} OptionValueAt(argv: seq<string>, flag: string, k: nat)
    requires k + 1 < |argv| && argv[k] == flag
    requires forall j :: 0 <= j < k ==> argv[j] != flag
    ensures OptionValue(argv, flag) == Some(argv[k + 1])
  {
    if k > 0 {
      assert argv[0] != flag;
      OptionValueAt(argv[1..], flag, k - 1);
    }
  }

  /**
   * The command asks for exactly what `run_manim` intends: the media
   * directory under the workspace, the low-quality preset, the output base
   * name, the requested format, and the script and the `Scene` class as the
   * two positional arguments.
   */
  lemma CommandOptions(ws: Workspace, format: string)
    ensures var argv := ManimCommand(OutputDir(ws), format, ScriptPath(ws));
      && |argv| == 10 && argv[0] == "manim" && QualityFlag in argv
      && OptionValue(argv, "--media_dir") == Some(OutputDir(ws))
      && OptionValue(argv, "--output_file") == Some(OutputName)
      && OptionValue(argv, "--format") == Some(format)
      && argv[|argv| - 2..] == [ScriptPath(ws), SceneClass]
  {
    var argv := ManimCommand(OutputDir(ws), format, ScriptPath(ws));
    var dir := OutputDir(ws);
    assert dir[|ws.root|] == '/';
    assert dir != "--output_file" && dir != "--format" by {
      assert '/' !in "--output_file" && '/' !in "--format";
    }
    OptionValueAt(argv, "--media_dir", 1);
    OptionValueAt(argv, "--output_file", 4);
    OptionValueAt(argv, "--format", 6);
  }

  /** Where Manim puts the video for scene file `scene.py` at the 480p15 preset. */
  function NestedOutput(ws: Workspace, format: string): string {
    JoinPath(JoinPath(JoinPath(JoinPath(OutputDir(ws), "videos"), "scene"), "480p15"), OutputName + "." + format)
  }

  /** The fallback location directly in the media directory. */
  function FlatOutput(ws: Workspace, format: string): string {
    JoinPath(OutputDir(ws), OutputName + "." + format)
  }

  /**
   * Output discovery after a zero exit: the nested path if it exists, the
   * flat path only when the nested one does not, and nothing otherwise.
   */
  function LocateOutput(ws: Workspace, format: string, existing: set<string>): (found: Option<string>)
    ensures found.Some? ==> found.value in existing
    ensures found.Some? ==> found.value == NestedOutput(ws, format) || found.value == FlatOutput(ws, format)
    ensures NestedOutput(ws, format) in existing ==> found == Some(NestedOutput(ws, format))
    ensures found == Some(FlatOutput(ws, format)) ==> NestedOutput(ws, format) !in existing
    ensures found.None? <==> NestedOutput(ws, format) !in existing && FlatOutput(ws, format) !in existing
  {
    CandidatesDiffer(ws, format);
    if NestedOutput(ws, format) in existing then Some(NestedOutput(ws, format))
    else if FlatOutput(ws, format) in existing then Some(FlatOutput(ws, format))
    else None
  }

  /** The two candidates are different files, so the fallback is a real second chance. */
  lemma CandidatesDiffer(ws: Workspace, format: string)
    ensures NestedOutput(ws, format) != FlatOutput(ws, format)
  {
    assert |NestedOutput(ws, format)| == |FlatOutput(ws, format)| + |"/videos/scene/480p15"|;
  }

  /** The object key `videos/{uuid}.{format}`. */
  function UploadKey(id: string, format: string): string {
    "videos/" + id + "." + format
  }

  /** Keys are in the `videos/` folder and carry the requested format as extension. */
  lemma UploadKeyShape(id: string, format: string)
    ensures StartsWith(UploadKey(id, format), "videos/")
    ensures EndsWith(UploadKey(id, format), "." + format)
  {
    var key := UploadKey(id, format);
    assert key[..|"videos/"|] == "videos/";
    assert key[|key| - |"." + format|..] == "." + format;
  }

  /** Distinct identifiers give distinct keys, so two uploads never overwrite each other. */
  lemma UploadKeyInjective(id1: string, id2: string, format: string)
    requires UploadKey(id1, format) == UploadKey(id2, format)
    ensures id1 == id2
  {
    var key := UploadKey(id1, format);
    assert |id1| == |id2|;
    assert id1 == key[7..7 + |id1|];
    assert id2 == UploadKey(id2, format)[7..7 + |id2|];
  }

  /** How `subprocess.run` came back: an exit status with captured text, or an exception. */
  datatype ProcessOutcome =
    | Exited(returnCode: int, stdout: string, stderr: string)
    | NotStarted(reason: string)

  /** The exceptions `run_manim` lets escape. */
  datatype RunError =
    | ManimFailed(stderr: string)   // RuntimeError, from CalledProcessError on a non-zero exit
    | OutputNotFound                // FileNotFoundError: zero exit but no video at either path
    | Propagated(message: string)   // any other exception, re-raised unchanged

  const NotFoundMessage: string :=
    "Could not find the output video file. " + "Please check Manim's output for errors."

  /** `str(e)` of the escaping exception. */
  function ErrorText(e: RunError): string {
    match e
    case ManimFailed(stderr) => "Manim failed with error: " + stderr
    case OutputNotFound => NotFoundMessage
    case Propagated(message) => message
  }

  /** A failed run reports the tool's standard error text. */
  lemma ManimFailureCarriesStderr(stderr: string)
    ensures Contains(ErrorText(ManimFailed(stderr)), stderr)
  {
    ContainsItself(stderr);
    ContainsExtended("Manim failed with error: ", stderr, "", stderr);
    assert "Manim failed with error: " + stderr + "" == ErrorText(ManimFailed(stderr));
  }

  /** A missing artifact reads differently from a failed run, whatever the tool printed. */
  lemma FailureKindsDistinct(stderr: string)
    ensures ErrorText(ManimFailed(stderr)) != ErrorText(OutputNotFound)
  {
    assert ErrorText(ManimFailed(stderr))[0] == 'M';
    assert ErrorText(OutputNotFound) == NotFoundMessage;
    assert "Could not find the output video file. "[0] == 'C';
  }

  /**
   * `run_manim` after the process has returned: a non-zero exit raises with
   * the captured stderr; a zero exit looks for the video, and a found video
   * is uploaded under `videos/{id}.{format}`, giving the URL the store returns.
   */
  function RunManim(ws: Workspace, format: string, outcome: ProcessOutcome, existing: set<string>,
                    id: string, upload: (string, string) -> Result<string, string>): (r: Result<string, RunError>)
    ensures outcome.NotStarted? ==> r == Failure(Propagated(outcome.reason))
    ensures outcome.Exited? && outcome.returnCode != 0 ==> r == Failure(ManimFailed(outcome.stderr))
    ensures (outcome.Exited? && outcome.returnCode == 0 && LocateOutput(ws, format, existing).None?)
              ==> r == Failure(OutputNotFound)
    ensures outcome.Exited? && outcome.returnCode == 0 && LocateOutput(ws, format, existing).Some? ==>
              var stored := upload(LocateOutput(ws, format, existing).value, UploadKey(id, format));
              && (stored.Success? ==> r == Success(stored.value))
              && (stored.Failure? ==> r == Failure(Propagated(stored.error)))
    ensures r.Success? ==>
              && outcome.Exited? && outcome.returnCode == 0
              && LocateOutput(ws, format, existing).Some?
              && upload(LocateOutput(ws, format, existing).value, UploadKey(id, format)) == Success(r.value)
  {
    match outcome
    case NotStarted(reason) => Failure(Propagated(reason))
    case Exited(code, _, stderr) =>
      if code != 0 then Failure(ManimFailed(stderr))
      else match LocateOutput(ws, format, existing)
        case None => Failure(OutputNotFound)
        case Some(video) =>
          match upload(video, UploadKey(id, format))
          case Success(url) => Success(url)
          case Failure(message) => Failure(Propagated(message))
  }

  // ---------------------------------------------------------------------------
  // find_video_file

  const VideoExtensions: seq<string> := [".mp4", ".mov"]

  /** A path the search accepts for extension `ext`: it matches `*{ext}` and does not mention `partial`. */
  predicate IsCandidate(path: string, ext: string) {
    EndsWith(path, ext) && !Contains(path, "partial")
  }

  ghost predicate HasCandidate(paths: seq<string>, ext: string) {
    exists k :: 0 <= k < |paths| && IsCandidate(paths[k], ext)
  }

  /** `paths[k]` is the first candidate for `ext` in enumeration order. */
  ghost predicate FirstCandidate(paths: seq<string>, k: int, ext: string) {
    0 <= k < |paths| && IsCandidate(paths[k], ext)
    && forall j :: 0 <= j < k ==> !IsCandidate(paths[j], ext)
  }

  /**
   * `find_video_file`, with the recursive listing of the directory given as
   * `paths` in enumeration order: the first `.mp4` that is not partial, else
   * the first such `.mov`, else nothing.
   */
  method FindVideoFile(paths: seq<string>) returns (found: Option<string>)
    ensures found.None? <==> !HasCandidate(paths, ".mp4") && !HasCandidate(paths, ".mov")
    ensures found.Some? ==> !Contains(found.value, "partial")
    ensures found.Some? && HasCandidate(paths, ".mp4") ==>
              exists k :: FirstCandidate(paths, k, ".mp4") && found.value == paths[k]
    ensures found.Some? && !HasCandidate(paths, ".mp4") ==>
              exists k :: FirstCandidate(paths, k, ".mov") && found.value == paths[k]
  {
    assert VideoExtensions[0] == ".mp4" && VideoExtensions[1] == ".mov";
    for e := 0 to |VideoExtensions|
      invariant forall d :: 0 <= d < e ==> !HasCandidate(paths, VideoExtensions[d])
    {
      var ext := VideoExtensions[e];
      for i := 0 to |paths|
        invariant forall j :: 0 <= j < i ==> !IsCandidate(paths[j], ext)
      {
        if IsCandidate(paths[i], ext) {
          assert FirstCandidate(paths, i, ext);
          return Some(paths[i]);
        }
      }
    }
    return None;
  }
}
