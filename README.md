# Animated Video Generator: a verified model of its decision logic

The Animated Video Generator takes a text prompt and returns a Manim
animation. A FastAPI endpoint (`POST /render`, main.py) does four things:

1. It asks a language model for Manim code.
2. It pulls the code out of the fenced blocks of the reply and checks that
   the code looks like a scene.
3. It runs the `manim` command-line tool on the code.
4. It finds the rendered file, uploads it, and answers with its URL.

A Streamlit page (streamlit_app.py) posts prompts to that endpoint. It shows
the video and keeps a short history of earlier videos in the session state. A
configuration class (config.py) reads the environment and refuses to start
when a required variable is missing.

The Dafny project models the logic of these three files. Everything around
that logic (the language model, the process, the bucket, the browser) is an
input to the model.

| file | module | what it holds |
|---|---|---|
| wrappers.dfy | `Wrappers` | `Option` and `Result` |
| text.dfy | `Text` | Python string operations as used here: `in`/`find`, `startswith`/`endswith`, `strip`, `rstrip(c)`, `join`, `str(int)` |
| extraction.dfy | `CodeExtraction` | `extract_code` as a left-to-right scan for fenced blocks; `is_manim_code` |
| runner.dfy | `ManimRunner` | the `manim` argument list, output discovery, the upload key, the error kinds of `run_manim`; `find_video_file` as a method with its nested loop |
| endpoint.dfy | `RenderEndpoint` | `render_video`'s mapping from stage outcomes to the HTTP reply, as written and as evidently intended |
| streamlit.dfy | `StreamlitApp` | `st.session_state` as the class `Session` (initialisation, `cleanup`, loading from the history, the submit handler); the backend URL; the error text |
| settings.dfy | `AppConfig` | the `Config` attributes and their defaults; `validate` and its list of missing variables |

Some behaviour follows the code as written:

- `run_manim` does not check the requested output format. Any string reaches
  the `--format` option, the output file names and the upload key.
- An invalid-code response leaves the server as a 500, although the handler
  deliberately raises an `HTTPException` with status 400 for it
  (main.py:196-199). See "## Findings".
- `cleanup` runs after the submit handler has recorded the new prompt. An
  http video that was on screen is therefore archived with the label of the
  prompt that replaces it. `Session.Submit` states this. This one is not
  listed as a finding, because the source gives no sign of a different
  intent.
- The generic 500 of `render_video`'s outer handler (main.py:224-229) is
  modelled by `Respond`. It cannot be reached, because the inner handler
  turns every exception into an `HTTPException`.

## Model

| member | source | states |
|---|---|---|
| Text.IndexOf | main.py:71 | the result is the first index at or after the start where the pattern occurs, and `None` exactly when it occurs nowhere there; `Contains` (Python `in`) is built on it |
| Text.Strip | main.py:61 | `str.strip()` with Python's whitespace set: the result is never longer than the input and neither starts nor ends with whitespace |
| Text.StripSplits | main.py:61 | the stripped text is a contiguous slice of the input, with only whitespace before and after it |
| Text.StripIdempotent | main.py:61 | stripping twice gives the same as stripping once |
| Text.RStrip | streamlit_app.py:64 | `rstrip(c)` gives a prefix of the input; every removed character is `c`, and the result does not end in `c` |
| Text.JoinContainsParts | config.py:33 | each part of a `', '.join` occurs in the joined text |
| Text.ContainsExtended | main.py:71 | a substring stays a substring when text is added on either side |
| Text.ContainsIff | main.py:71 | `p in s` holds exactly when `p` occurs at some index of `s` |
| Text.AbsentFromSuffix | main.py:60 | a pattern absent from a text is absent from every suffix of it |
| Text.AbsentFirstChar | main.py:71 | a pattern whose first character is not in the text does not occur in it |
| Text.StripAllSpace | main.py:61 | text made only of whitespace strips to `""` |
| Text.JoinAllSpace | main.py:61 | whitespace parts joined with a whitespace separator give whitespace |
| CodeExtraction.Blocks | main.py:60 | the list `re.findall` returns, as a scan; it is specified by `MatchAtIff`, `BlocksEmptyIff`, `BlocksFenceFree` and `DocumentBlocks` |
| CodeExtraction.OpenersExclusive | main.py:60 | at most one of the two openers (three backticks then `python` and a newline, or three backticks then a newline) can start at a position |
| CodeExtraction.MatchAtIff | main.py:60 | a block is found at a position exactly when an opener starts there and a closing fence follows it |
| CodeExtraction.BlocksEmptyIff | main.py:60-61 | `findall` finds no block exactly when no suffix of the text starts a block; an opener with no later fence yields nothing |
| CodeExtraction.MatchContentFenceFree | main.py:60 | the lazy group stops at the first closing fence, so captured content never contains three backticks |
| CodeExtraction.BlocksFenceFree | main.py:60 | no block found in the text contains three backticks |
| CodeExtraction.ProseOpensNothing | main.py:60 | no block opens inside prose without a fence when the prose is followed by a fence or by nothing: trailing backticks merge with the fence, and the fourth character is then a backtick |
| CodeExtraction.SkipProse | main.py:60 | prose without a fence (single or double backticks allowed), in front of a block or at the end, changes nothing about the blocks found |
| CodeExtraction.NoFenceBeforeClose | main.py:60 | no fence can start inside fence-free code that does not end in a backtick, so the first fence after such code is the one right after it |
| CodeExtraction.BlockThenRest | main.py:60 | an opener, fence-free code and a fence give exactly that code as a block, and scanning resumes after the fence |
| CodeExtraction.DocumentBlocks | main.py:60 | for a document of prose and fenced code segments, the blocks found are exactly the segments' codes, in order. The prose and the tail may hold inline code in single or double backticks but no run of three; each code holds no fence and does not end in a backtick |
| CodeExtraction.ExtractFromDocument | main.py:57-63 | for such a document, `extract_code` returns the codes joined by newlines and stripped; with no block it returns the stripped text |
| CodeExtraction.ExtractCode | main.py:57-63 | the extracted code never starts or ends with whitespace |
| CodeExtraction.ExtractPlainText | main.py:61 | text with no fence and no surrounding whitespace is returned as is |
| CodeExtraction.EmptyBlocksDiscardProse | main.py:60-61 | once a block matches, all prose is dropped: a document whose blocks are all empty gives `""`, whatever prose surrounds them |
| CodeExtraction.IsManimCode | main.py:68-73 | `is_manim_code`; it is specified by `IsManimCodeIff` |
| CodeExtraction.IsManimCodeIff | main.py:68-73 | the code is accepted exactly when `Scene`, `construct` and `class` each occur at some index of it (case-sensitive) |
| CodeExtraction.IsManimCodeMonotone | main.py:71 | adding text on either side of accepted code never makes it rejected |
| CodeExtraction.EmptyCodeRejected | main.py:71 | the empty code is rejected |
| CodeExtraction.ConstructAloneRejected | main.py:71 | `def construct(self): pass` is rejected |
| CodeExtraction.KeywordsAccepted | main.py:71 | any text containing `class`, `Scene` and `construct` in that order is accepted |
| ManimRunner.ManimCommand | main.py:108-116 | the argument list; it is specified by `CommandOptions` |
| ManimRunner.CommandOptions | main.py:108-116 | the argument list has 10 elements and starts with `manim`. It carries `-ql`. A parser reads the media directory, `output` and the requested format from the three options, and the list ends with the script path and `Scene`. The code itself is not an input of `ManimCommand` |
| ManimRunner.OptionValueAt | main.py:108-116 | the value of an option is the argument after its first occurrence |
| ManimRunner.LocateOutput | main.py:130-144 | after a zero exit the nested `videos/scene/480p15/output.<fmt>` is used if it exists. The flat `output.<fmt>` is used only when the nested file is absent. The result is nothing exactly when neither exists |
| ManimRunner.CandidatesDiffer | main.py:131-136 | the nested and the flat candidate are different paths |
| ManimRunner.UploadKey | main.py:147 | the object key; it is specified by `UploadKeyShape` and `UploadKeyInjective` |
| ManimRunner.UploadKeyShape | main.py:147 | the key starts with `videos/` and ends with `.` and the requested format |
| ManimRunner.UploadKeyInjective | main.py:147 | different identifiers give different keys for the same format |
| ManimRunner.ErrorText | main.py:141-157 | `str(e)` of the exception `run_manim` raises; it is specified by `ManimFailureCarriesStderr` and `FailureKindsDistinct` |
| ManimRunner.ManimFailureCarriesStderr | main.py:153-157 | the error for a non-zero exit contains the tool's standard error text |
| ManimRunner.FailureKindsDistinct | main.py:141-157 | a missing output file and a failed run give different error texts |
| ManimRunner.RunManim | main.py:120-160 | a process that did not start propagates its error. A non-zero exit is a tool failure carrying stderr. A zero exit with no output file is "not found". A zero exit with a located file uploads it under `videos/<id>.<fmt>`: an accepted upload returns the store's URL, and a failed one propagates the store's error text. Success happens in no other case |
| ManimRunner.FindVideoFile | main.py:78-87 | the result is never a path containing `partial`. It is the first qualifying `.mp4` in enumeration order, or else the first qualifying `.mov`. It is nothing exactly when no path qualifies |
| RenderEndpoint.Str | main.py:216-219 | `str(e)` of an exception raised in the handler; it is specified by `StrBadRequest` |
| RenderEndpoint.GenerateVideo | main.py:169-213 | the statements of the inner `try`; it is specified through `RenderVideo` and `RenderVideoAsWritten` |
| RenderEndpoint.CatchAll | main.py:215-220 | the inner `except Exception`; it is specified by `AsWrittenOnlyServerErrors` and `AsWrittenRejectedCodeIs500` |
| RenderEndpoint.Respond | main.py:222-229 | the outer handler; it is specified through the lemmas on `RenderVideo` and `RenderVideoAsWritten` |
| RenderEndpoint.RenderVideoAsWritten | main.py:162-229 | `render_video` as written; it is specified by `AsWrittenOnlyServerErrors`, `AsWrittenRejectedCodeIs500`, `AsWrittenOutputNotFound`, `AsWrittenNotStarted` and `AsWrittenCounterexample` |
| RenderEndpoint.RenderVideo | main.py:162-229 | `render_video` with the evidently intended 400; it is specified by `InvalidCodeIsClientError`, `ErrorStatuses`, `SuccessPayload` and `GoodRenderAnswers200` |
| RenderEndpoint.StrBadRequest | main.py:216-219 | `str()` of a 400 `HTTPException` is `400: ` followed by its detail |
| RenderEndpoint.AsWrittenOnlyServerErrors | main.py:165-229 | as written, every error reply of the endpoint has status 500. Every failure of the inner `try` answers 500 with `Failed to generate video: ` and `str(e)`, and a success is returned unchanged |
| RenderEndpoint.AsWrittenOutputNotFound | main.py:141-144 | a zero exit with no video at either path answers 500 with the prefix and the not-found text |
| RenderEndpoint.AsWrittenNotStarted | main.py:120-127 | a rendering process that raised before returning answers 500 with the prefix and the exception's text |
| RenderEndpoint.AsWrittenRejectedCodeIs500 | main.py:194-220 | as written, rejected code yields a 500 whose detail is `Failed to generate video: 400: ` followed by the 400's detail |
| RenderEndpoint.AsWrittenCounterexample | main.py:194-220 | for the model reply `def construct(self): pass` the endpoint as written answers 500, and the corrected one answers 400 |
| RenderEndpoint.InvalidCodeIsClientError | main.py:194-199 | with the correction, rejected code reaches the client as a 400 with the validator's detail |
| RenderEndpoint.ErrorStatuses | main.py:194-229 | with the correction, every error is a 400 or a 500, and it is a 400 exactly when the code was rejected |
| RenderEndpoint.CorrectionOnlyAffectsRejection | main.py:165-229 | when the code is not rejected, the corrected handler answers exactly as the handler as written |
| RenderEndpoint.CompletionFailureReported | main.py:215-220 | a failed language-model call gives a 500 with `Failed to generate video: ` and the error's text |
| RenderEndpoint.ManimFailureReported | main.py:202-220 | a failed Manim run gives a 500 whose detail carries the tool's standard error text |
| RenderEndpoint.GoodRenderAnswers200 | main.py:202-220 | accepted code, a zero exit and a located video give 200 with the store's URL, the fixed message and the echoed metadata when the upload is accepted. A failed upload gives 500 with the store's error text |
| RenderEndpoint.SuccessPayload | main.py:202-213 | the reply is 200 exactly when the code is accepted and the run succeeds. The body then carries the uploaded URL and the fixed success message. Its metadata echoes the prompt, the configured model, the timestamp and the requested format |
| StreamlitApp.ArchiveCurrent | streamlit_app.py:47-56 | the history after `cleanup`; it is specified by `ArchiveChangesIff`, `ArchiveAppends` and `ArchiveKeepsInvariant` |
| StreamlitApp.ArchiveChangesIff | streamlit_app.py:47-56 | `cleanup` changes the history exactly when history is kept, the current video is a non-empty `http` URL and it is not yet listed |
| StreamlitApp.ArchiveAppends | streamlit_app.py:50-56 | the new entry (URL, timestamp, last prompt or `Unknown prompt`) goes at the end. The oldest entry is dropped exactly when the list was already full |
| StreamlitApp.ArchiveKeepsInvariant | streamlit_app.py:47-56 | at most five entries with pairwise distinct URLs stays true after archiving |
| StreamlitApp.ArchivedVideoListed | streamlit_app.py:47-56 | after `cleanup(keep_history=True)` with an `http` video on screen, its URL is in the history |
| StreamlitApp.NewestFirst | streamlit_app.py:76 | the sidebar list has the same entries as the history, the same number of times each |
| StreamlitApp.NewestFirstAt | streamlit_app.py:76-77 | "Video i+1" of the sidebar is the i-th entry counted from the newest |
| StreamlitApp.ArchivedVideoListedFirst | streamlit_app.py:47-81 | a video just archived is shown as "Video 1" |
| StreamlitApp.ApiUrl | streamlit_app.py:63-64 | `API_URL`; it is specified by `ApiUrlShape` |
| StreamlitApp.ApiUrlShape | streamlit_app.py:63-64 | the endpoint URL ends in `/render` with no second slash before it. What comes before is the backend URL with trailing slashes removed, and only slashes were removed |
| StreamlitApp.ApiUrlIgnoresTrailingSlash | streamlit_app.py:64 | a trailing slash on the backend URL gives the same endpoint |
| StreamlitApp.DefaultApiUrl | streamlit_app.py:63-64 | with no `BACKEND_URL` the endpoint is `http://localhost:8000/render` |
| StreamlitApp.ErrorMessage | streamlit_app.py:158-163 | the error text shown; it is specified by `ErrorMessageSources` |
| StreamlitApp.ErrorMessageSources | streamlit_app.py:158-163 | a JSON object's `detail` is shown verbatim, and an object without one shows `Unknown error`. For a body that is not an object, its non-empty text is shown, and an empty text shows `Unknown error`. `Unknown error` appears in no other case unless it is the server's own text |
| StreamlitApp.Session.constructor | streamlit_app.py:25-30 | a fresh session has no video, no local file, an empty history and no last prompt |
| StreamlitApp.Session.Cleanup | streamlit_app.py:33-60 | both video fields are cleared and the history is archived as `ArchiveCurrent` says, keeping its invariant. If deleting a file raises, the session is unchanged |
| StreamlitApp.Session.LoadFromHistory | streamlit_app.py:76-81 | loading "Video i+1" shows the i-th newest entry's URL and changes nothing else |
| StreamlitApp.Session.Submit | streamlit_app.py:126-175 | an empty prompt does nothing. Otherwise the prompt is recorded before `cleanup` archives the old video. A 200 with a non-empty `video_url` shows that URL. A 200 without one reports no URL. Other statuses show the error text. A connection failure is reported with its reason. The history invariant holds throughout |
| AppConfig.FromEnvironment | config.py:9-15 | `OPENAI_MODEL` defaults to `gpt-4o-mini` and otherwise takes the environment's value |
| AppConfig.RequiredVars | config.py:23-28 | the four required names with their values, in the fixed order |
| AppConfig.MissingFrom | config.py:30 | the list comprehension of names with a falsy value; it is specified by `MissingFromPositions` and `MissingFromEmptyIff` |
| AppConfig.Missing | config.py:23-30 | `missing` in `validate`; it is specified by `ValidateSucceedsIff`, `NothingSet` and `EmptyCountsAsMissing` |
| AppConfig.MissingPositions | config.py:30 | every position it lists holds a variable whose value is unset or empty |
| AppConfig.MissingFromNames | config.py:23-30 | the i-th missing name is the name at the i-th listed position |
| AppConfig.MissingPositionsIncreasing | config.py:23-30 | the positions are strictly increasing, so missing names keep the fixed order of `required_vars` |
| AppConfig.MissingPositionsComplete | config.py:30 | every variable that is unset or empty is listed |
| AppConfig.MissingFromPositions | config.py:23-30 | the missing names are exactly the unset or empty ones, in the order of `required_vars` |
| AppConfig.MissingFromEmptyIff | config.py:30-31 | nothing is missing exactly when every required value is non-empty |
| AppConfig.Validate | config.py:21-38 | a successful validation yields the directory `/tmp/manim_output`, which is created only then |
| AppConfig.ValidateSucceedsIff | config.py:23-38 | validation raises exactly when one of the four required variables is unset or empty |
| AppConfig.ValidateMessage | config.py:32-35 | the error starts with `Missing required environment variables: `, ends with `. Please check your .env file.` and names every missing variable |
| AppConfig.ModelNotRequired | config.py:23-28 | the model setting plays no part in validation |
| AppConfig.NothingSet | config.py:9-30 | in an empty environment all four names are missing, in the fixed order, and the model has its default |
| AppConfig.EmptyCountsAsMissing | config.py:23-30 | any of the four required variables set to the empty string is reported as missing, and validation fails |

## Left out

- The language-model call (main.py:170-188) is not modelled. Its reply text, or the text of the exception it raised, is an input (`Environment.completion`).
- The workspace effects of `run_manim` are not modelled: the temporary directory and its removal, `mkdir`, writing the script, and running the process (main.py:96-127). The process outcome and the set of existing files are inputs.
- storage.py is not part of this model. The upload is a function parameter returning the URL or an error. storage.py's own default key is never used on this path, because main.py always passes a key.
- The Streamlit widgets, the progress bar and the download of the shown video to a local file are not modelled (streamlit_app.py:84-112). The `urlparse` file-name derivation, the `requests` calls and `os.remove` are left out too. A failing removal is the `removalFails` parameter, and the same flag is used for both `cleanup` calls of one submission.
- A request without `output_format` is taken as `"mp4"` (the default of `PromptRequest`, main.py:55) before the model sees it; `RenderEndpoint.PromptRequest` always carries a format.
- Timestamps (`datetime.now`, `datetime.utcnow`) and `uuid.uuid4()` are parameters.
- Logging, the CORS middleware, `load_dotenv` and the `TEMP_DIR.mkdir` effect are not modelled. `Validate` returns the directory instead of creating it.
- Concurrent requests are not modelled; the handler shares no state between requests.
- JSON values are modelled as strings. A response body is a flat map, some other JSON value, or not JSON.
- StreamlitApp.Session.Submit: a `metadata` value that is not a dictionary, which would raise inside the success branch, is not modelled.
- StreamlitApp.Session.Submit: a 200 reply whose body is not JSON is modelled as the unexpected-error branch. With recent versions of `requests`, that decoding error is a `RequestException`, and the page would show the connection-failure text instead.
- RenderEndpoint.StrBadRequest: the `400: detail` rendering of `str(HTTPException)` follows Starlette's `__str__`, which is outside the repository.
- ManimRunner.FindVideoFile: the order in which `rglob` lists files is taken as a given list of paths. Each `rglob` pattern is modelled as a suffix test on that list.

## Findings

| source | as written | input that shows it | evidently intended | confidence | as-written member | corrected member |
|---|---|---|---|---|---|---|
| main.py:194-220 | the `HTTPException(400)` raised for invalid code is inside `try: … except Exception`, which catches it and raises a 500 with detail `Failed to generate video: 400: …` | a language-model reply `def construct(self): pass` (no `Scene`, no `class`) | the client receives the 400 with the validator's detail, as for any deliberate `HTTPException` | high, not executed | RenderEndpoint.RenderVideoAsWritten, RenderEndpoint.AsWrittenCounterexample | RenderEndpoint.RenderVideo, RenderEndpoint.InvalidCodeIsClientError |
