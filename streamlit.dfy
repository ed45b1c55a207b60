/**
 * The session-state logic of streamlit_app.py: `cleanup`, which archives the
 * current video into a short history; loading a video back from the history;
 * the submit handler; the backend URL; and the error text shown for a failed
 * request. `st.session_state` is the `Session` object; widgets, downloads and
 * file removal are effects the model leaves out.
 */
module StreamlitApp {
  import opened Wrappers
  import opened Text

  datatype HistoryEntry = HistoryEntry(url: string, timestamp: string, prompt: string)

  const MaxHistory: nat := 5
  const UnknownPrompt: string := "Unknown prompt"
  const DefaultBackend: string := "http://localhost:8000"

  function Urls(history: seq<HistoryEntry>): (urls: seq<string>)
    ensures |urls| == |history|
    ensures forall i :: 0 <= i < |history| ==> urls[i] == history[i].url
  {
    if history == [] then [] else [history[0].url] + Urls(history[1..])
  }

  ghost predicate DistinctUrls(history: seq<HistoryEntry>) {
    forall i, j :: 0 <= i < j < |history| ==> history[i].url != history[j].url
  }

  /** `st.session_state.get('last_prompt', 'Unknown prompt')`. */
  function PromptOrUnknown(lastPrompt: Option<string>): string {
    match lastPrompt
    case Some(p) => p
    case None => UnknownPrompt
  }

  /** `cleanup` adds the current video to the history exactly under these conditions. */
  predicate Archives(history: seq<HistoryEntry>, current: Option<string>, keepHistory: bool) {
    keepHistory && Truthy(current) && StartsWith(current.value, "http") && current.value !in Urls(history)
  }

  /**
   * The history after `cleanup`: the current video appended as the newest
   * entry when it qualifies, and then the oldest entry dropped if that makes
   * more than five.
   */
  function ArchiveCurrent(history: seq<HistoryEntry>, current: Option<string>, keepHistory: bool,
                          lastPrompt: Option<string>, timestamp: string): seq<HistoryEntry>
  {
    if Archives(history, current, keepHistory) then
      var appended := history + [HistoryEntry(current.value, timestamp, PromptOrUnknown(lastPrompt))];
      if |appended| > MaxHistory then appended[1..] else appended
    else history
  }

  /** The history changes exactly when the current video qualifies for it. */
  lemma ArchiveChangesIff(history: seq<HistoryEntry>, current: Option<string>, keepHistory: bool,
                          lastPrompt: Option<string>, timestamp: string)
    ensures ArchiveCurrent(history, current, keepHistory, lastPrompt, timestamp) != history
            <==> Archives(history, current, keepHistory)
  {
    if Archives(history, current, keepHistory) {
      var r := ArchiveCurrent(history, current, keepHistory, lastPrompt, timestamp);
      assert r != [] && r[|r| - 1].url == current.value;
    }
  }

  /**
   * When it qualifies, the new entry is the last one, holding the video's
   * URL and the last prompt (or "Unknown prompt"), and at most the single
   * oldest entry is dropped, only when the history was already full.
   */
  lemma ArchiveAppends(history: seq<HistoryEntry>, current: Option<string>, keepHistory: bool,
                       lastPrompt: Option<string>, timestamp: string)
    requires Archives(history, current, keepHistory)
    ensures var r := ArchiveCurrent(history, current, keepHistory, lastPrompt, timestamp);
      var entry := HistoryEntry(current.value, timestamp, PromptOrUnknown(lastPrompt));
      && (|history| < MaxHistory ==> r == history + [entry])
      && (|history| >= MaxHistory ==> r == history[1..] + [entry])
  {
    var entry := HistoryEntry(current.value, timestamp, PromptOrUnknown(lastPrompt));
    if |history| >= MaxHistory {
      assert (history + [entry])[1..] == history[1..] + [entry];
    }
  }

  /** `cleanup` keeps the history at most five long and free of repeated URLs. */
  lemma ArchiveKeepsInvariant(history: seq<HistoryEntry>, current: Option<string>, keepHistory: bool,
                              lastPrompt: Option<string>, timestamp: string)
    requires |history| <= MaxHistory && DistinctUrls(history)
    ensures var r := ArchiveCurrent(history, current, keepHistory, lastPrompt, timestamp);
      |r| <= MaxHistory && DistinctUrls(r)
  {
    if Archives(history, current, keepHistory) {
      var entry := HistoryEntry(current.value, timestamp, PromptOrUnknown(lastPrompt));
      var appended := history + [entry];
      forall i | 0 <= i < |history|
        ensures history[i].url != entry.url
      {
        assert Urls(history)[i] == history[i].url;
      }
      assert DistinctUrls(appended);
      if |appended| > MaxHistory {
        var r := appended[1..];
        forall i, j | 0 <= i < j < |r|
          ensures r[i].url != r[j].url
        {
          assert r[i] == appended[i + 1] && r[j] == appended[j + 1];
        }
      }
    }
  }

  /** A qualifying http video is in the history after `cleanup`, whether it was just added or already there. */
  lemma ArchivedVideoListed(history: seq<HistoryEntry>, current: Option<string>,
                            lastPrompt: Option<string>, timestamp: string)
    requires Truthy(current) && StartsWith(current.value, "http")
    ensures current.value in Urls(ArchiveCurrent(history, current, true, lastPrompt, timestamp))
  {
    var r := ArchiveCurrent(history, current, true, lastPrompt, timestamp);
    if Archives(history, current, true) {
      assert Urls(r)[|r| - 1] == r[|r| - 1].url == current.value;
    }
  }

  /** The history as the sidebar lists it: newest first. */
  function NewestFirst(history: seq<HistoryEntry>): (listed: seq<HistoryEntry>)
    ensures |listed| == |history|
    ensures multiset(listed) == multiset(history)
  {
    if history == [] then []
    else
      assert history == history[..|history| - 1] + [history[|history| - 1]];
      [history[|history| - 1]] + NewestFirst(history[..|history| - 1])
  }

  /** "Video {i+1}" in the sidebar is the entry `i` places before the newest. */
  lemma {:induction false} NewestFirstAt(history: seq<HistoryEntry>, i: nat)
    requires i < |history|
    ensures NewestFirst(history)[i] == history[|history| - 1 - i]
    decreases |history|
  {
    if i > 0 {
      NewestFirstAt(history[..|history| - 1], i - 1);
    }
  }

  /** After a video is archived, it is "Video 1", the first the sidebar lists. */
  lemma ArchivedVideoListedFirst(history: seq<HistoryEntry>, current: Option<string>,
                                 lastPrompt: Option<string>, timestamp: string)
    requires Archives(history, current, true)
    ensures var r := ArchiveCurrent(history, current, true, lastPrompt, timestamp);
      r != [] && NewestFirst(r)[0] == HistoryEntry(current.value, timestamp, PromptOrUnknown(lastPrompt))
  {
    var r := ArchiveCurrent(history, current, true, lastPrompt, timestamp);
    ArchiveAppends(history, current, true, lastPrompt, timestamp);
    NewestFirstAt(r, 0);
  }

  /** `API_URL`: the backend URL without trailing slashes, then `/render`. */
  function ApiUrl(backend: string): string {
    RStrip(backend, '/') + "/render"
  }

  /**
   * The endpoint ends in `/render` with exactly one slash before `render`, and
   * what precedes it is the backend URL less some trailing slashes.
   */
  lemma ApiUrlShape(backend: string)
    ensures var url := ApiUrl(backend);
      && EndsWith(url, "/render")
      && (|url| == |"/render"| || url[|url| - |"/render"| - 1] != '/')
      && StartsWith(backend, url[..|url| - |"/render"|])
      && forall i :: |url| - |"/render"| <= i < |backend| ==> backend[i] == '/'
  {
    var base := RStrip(backend, '/');
    var url := ApiUrl(backend);
    assert url[..|base|] == base;
    assert url[|url| - |"/render"|..] == "/render";
  }

  /** A trailing slash on the backend URL makes no difference. */
  lemma ApiUrlIgnoresTrailingSlash(backend: string)
    ensures ApiUrl(backend + "/") == ApiUrl(backend)
  {
    assert (backend + "/")[..|backend|] == backend;
  }

  lemma DefaultApiUrl()
    ensures ApiUrl(DefaultBackend) == "http://localhost:8000/render"
  {
  }

  /** The parsed body of a reply. */
  datatype Json =
    | JsonObject(fields: map<string, string>)  // a JSON object (supports `.get`)
    | JsonOther                               // valid JSON of another kind
    | NotJson                                 // `response.json()` raises

  /** The error text shown for a non-200 reply. */
  function ErrorMessage(body: Json, text: string): string {
    match body
    case JsonObject(fields) => if "detail" in fields then fields["detail"] else "Unknown error"
    case _ => if text != "" then text else "Unknown error"
  }

  /**
   * The server's `detail` is shown verbatim; without one, the raw body; the
   * fallback "Unknown error" appears only when neither is available, and an
   * empty text is shown only for an empty `detail`.
   */
  lemma ErrorMessageSources(body: Json, text: string)
    ensures body.JsonObject? && "detail" in body.fields ==> ErrorMessage(body, text) == body.fields["detail"]
    ensures !body.JsonObject? && text != "" ==> ErrorMessage(body, text) == text
    ensures body.JsonObject? && "detail" !in body.fields ==> ErrorMessage(body, text) == "Unknown error"
    ensures !body.JsonObject? && text == "" ==> ErrorMessage(body, text) == "Unknown error"
    ensures ErrorMessage(body, text) == "Unknown error" ==>
              (body.JsonObject? && "detail" !in body.fields) || (!body.JsonObject? && text == "")
              || (body.JsonObject? && "detail" in body.fields && body.fields["detail"] == "Unknown error")
              || (!body.JsonObject? && text == "Unknown error")
    ensures ErrorMessage(body, text) == "" ==> body.JsonObject? && "detail" in body.fields
  {
  }

  /** How `requests.post` came back. */
  datatype Reply =
    | Answered(status: int, body: Json, text: string)
    | RequestFailed(reason: string)   // a `requests.exceptions.RequestException`

  /** What the page shows after a submission. */
  datatype Notice =
    | NothingSubmitted
    | VideoReady(url: string)
    | NoVideoUrl
    | ApiError(message: string)
    | ConnectionFailed(reason: string)
    | UnexpectedError

  /** A 200 reply whose body is an object with a non-empty `video_url`. */
  predicate DeliversVideo(reply: Reply) {
    reply.Answered? && reply.status == 200 && reply.body.JsonObject?
    && "video_url" in reply.body.fields && reply.body.fields["video_url"] != ""
  }

  /** `st.session_state`. */
  class Session {
    var videoPath: Option<string>
    var localVideoPath: Option<string>
    var videoHistory: seq<HistoryEntry>
    var lastPrompt: Option<string>

    /** The history stays short and never lists a URL twice. */
    ghost predicate Valid()
      reads this
    {
      |videoHistory| <= MaxHistory && DistinctUrls(videoHistory)
    }

    /** The session-state initialisation at the top of the page. */
    constructor ()
      ensures Valid()
      ensures videoPath == None && localVideoPath == None && videoHistory == [] && lastPrompt == None
    {
      videoPath := None;
      localVideoPath := None;
      videoHistory := [];
      lastPrompt := None;
    }

    /**
     * `cleanup(keep_history)`. `removalFails` says that deleting a local file
     * raised; the handler then only warns and the session is left as it was.
     */
    method Cleanup(keepHistory: bool, timestamp: string, removalFails: bool)
      modifies this
      ensures removalFails ==> unchanged(this)
      ensures !removalFails ==> videoPath == None && localVideoPath == None && lastPrompt == old(lastPrompt)
      ensures !removalFails ==>
                videoHistory == ArchiveCurrent(old(videoHistory), old(videoPath), keepHistory, old(lastPrompt), timestamp)
      ensures old(Valid()) ==> Valid()
    {
      if removalFails {
        return;
      }
      ghost var before := videoHistory;
      var current := videoPath;
      videoPath := None;
      localVideoPath := None;
      if keepHistory && current.Some? && current.value != "" && StartsWith(current.value, "http") {
        if current.value !in Urls(videoHistory) {
          videoHistory := videoHistory + [HistoryEntry(current.value, timestamp, PromptOrUnknown(lastPrompt))];
          if |videoHistory| > MaxHistory {
            videoHistory := videoHistory[1..];
          }
        }
      }
      if |before| <= MaxHistory && DistinctUrls(before) {
        ArchiveKeepsInvariant(before, current, keepHistory, lastPrompt, timestamp);
      }
    }

    /** The "Load Video {position+1}" button of the sidebar's newest-first list. */
    method LoadFromHistory(position: nat)
      requires position < |videoHistory|
      modifies this
      ensures videoPath == Some(NewestFirst(old(videoHistory))[position].url)
      ensures videoPath == Some(old(videoHistory)[|old(videoHistory)| - 1 - position].url)
      ensures localVideoPath == old(localVideoPath) && videoHistory == old(videoHistory)
      ensures lastPrompt == old(lastPrompt)
    {
      NewestFirstAt(videoHistory, position);
      videoPath := Some(NewestFirst(videoHistory)[position].url);
    }

    /**
     * The form's submit handler. The prompt is recorded before `cleanup` runs,
     * so a previously shown http video is archived under the NEW prompt;
     * then the request is sent and its reply handled.
     */
    method Submit(prompt: string, reply: Reply, timestamp: string, removalFails: bool) returns (notice: Notice)
      modifies this
      ensures prompt == "" ==> notice == NothingSubmitted && unchanged(this)
      ensures prompt != "" ==> lastPrompt == Some(prompt)
      ensures prompt != "" ==>
                videoHistory == if removalFails then old(videoHistory)
                                else ArchiveCurrent(old(videoHistory), old(videoPath), true, Some(prompt), timestamp)
      ensures prompt != "" ==>
                localVideoPath == if removalFails then old(localVideoPath) else None
      ensures prompt != "" && DeliversVideo(reply) ==>
                notice == VideoReady(reply.body.fields["video_url"]) && videoPath == Some(reply.body.fields["video_url"])
      ensures prompt != "" && !DeliversVideo(reply) ==>
                videoPath == (if removalFails then old(videoPath) else None) && !notice.VideoReady?
      ensures prompt != "" && reply.Answered? && reply.status == 200 && reply.body.JsonObject? && !DeliversVideo(reply) ==>
                notice == NoVideoUrl
      ensures prompt != "" && reply.Answered? && reply.status == 200 && !reply.body.JsonObject? ==>
                notice == UnexpectedError
      ensures prompt != "" && reply.Answered? && reply.status != 200 ==>
                notice == ApiError(ErrorMessage(reply.body, reply.text))
      ensures prompt != "" && reply.RequestFailed? ==> notice == ConnectionFailed(reply.reason)
      ensures old(Valid()) ==> Valid()
    {
      if prompt == "" {
        return NothingSubmitted;
      }
      lastPrompt := Some(prompt);
      Cleanup(true, timestamp, removalFails);
      match reply
      case RequestFailed(reason) =>
        notice := ConnectionFailed(reason);
        Cleanup(true, timestamp, removalFails);
      case Answered(status, body, text) =>
        if status == 200 {
          match body
          case JsonObject(fields) =>
            if "video_url" in fields && fields["video_url"] != "" {
              videoPath := Some(fields["video_url"]);
              notice := VideoReady(fields["video_url"]);
            } else {
              notice := NoVideoUrl;
            }
          case _ =>
            notice := UnexpectedError;
            Cleanup(true, timestamp, removalFails);
        } else {
          notice := ApiError(ErrorMessage(body, text));
        }
    }
  }
}
