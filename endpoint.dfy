/**
 * The `POST /render` handler `render_video` in main.py, as a function from the
 * request and the outcomes of its collaborators (the language model's reply,
 * the rendering run, the upload) to the HTTP reply.
 *
 * The handler has two nested `try` blocks. The inner one catches every
 * exception, including the `HTTPException(400)` it raises itself for invalid
 * code, and re-raises it as a 500; the outer one lets `HTTPException` through
 * and turns anything else into a generic 500. `RenderVideoAsWritten` models
 * that; `RenderVideo` is the evident intent, where the 400 reaches the client.
 */
module RenderEndpoint {
  import opened Wrappers
  import opened Text
  import opened CodeExtraction
  import opened ManimRunner

  datatype PromptRequest = PromptRequest(prompt: string, outputFormat: string)

  datatype Metadata = Metadata(prompt: string, model: string, timestamp: string, format: string)

  datatype VideoResponse = VideoResponse(videoUrl: string, message: string, metadata: Metadata)

  /** What the handler gives the client. */
  datatype HttpReply = Ok(body: VideoResponse) | Error(status: nat, detail: string)

  /** An exception raised inside the handler. */
  datatype Raised = HttpException(status: nat, detail: string) | OtherException(message: string)

  /** `str(e)`; for an `HTTPException` that is `"{status_code}: {detail}"`. */
  function Str(e: Raised): string {
    match e
    case HttpException(status, detail) => Decimal(status) + ": " + detail
    case OtherException(message) => message
  }

  /**
   * Everything the reply depends on besides the request: the configured
   * model, the UTC timestamp, the model's reply (or the text of the exception
   * the call raised), and the inputs of `RunManim`.
   */
  datatype Environment = Environment(
    model: string,
    timestamp: string,
    completion: Result<string, string>,
    workspace: Workspace,
    process: ProcessOutcome,
    existing: set<string>,
    id: string,
    upload: (string, string) -> Result<string, string>)

  const InvalidCodeDetail: string := "The generated code doesn't appear to be valid Manim code."
  const SuccessMessage: string := "Video generated and uploaded successfully"
  const FailurePrefix: string := "Failed to generate video: "
  const UnexpectedDetail: string := "An unexpected error occurred. Please try again later."

  /** The generated code is rejected by the validator. */
  predicate RejectsCode(env: Environment) {
    env.completion.Success? && !IsManimCode(ExtractCode(env.completion.value))
  }

  /** The statements of the inner `try`: generate, extract, validate, render and upload. */
  function GenerateVideo(req: PromptRequest, env: Environment): Result<VideoResponse, Raised> {
    match env.completion
    case Failure(message) => Failure(OtherException(message))
    case Success(text) =>
      var code := ExtractCode(text);
      if !IsManimCode(code) then Failure(HttpException(400, InvalidCodeDetail))
      else match RunManim(env.workspace, req.outputFormat, env.process, env.existing, env.id, env.upload)
        case Failure(e) => Failure(OtherException(ErrorText(e)))
        case Success(url) =>
          Success(VideoResponse(url, SuccessMessage, Metadata(req.prompt, env.model, env.timestamp, req.outputFormat)))
  }

  /** The inner `except Exception as e`: every exception becomes a 500 carrying `str(e)`. */
  function CatchAll(r: Result<VideoResponse, Raised>): Result<VideoResponse, Raised> {
    match r
    case Success(_) => r
    case Failure(e) => Failure(HttpException(500, FailurePrefix + Str(e)))
  }

  /** The outer handler: an `HTTPException` passes through, anything else is a generic 500. */
  function Respond(r: Result<VideoResponse, Raised>): HttpReply {
    match r
    case Success(body) => Ok(body)
    case Failure(HttpException(status, detail)) => Error(status, detail)
    case Failure(OtherException(_)) => Error(500, UnexpectedDetail)
  }

  /** `render_video` as the source has it. */
  function RenderVideoAsWritten(req: PromptRequest, env: Environment): HttpReply {
    Respond(CatchAll(GenerateVideo(req, env)))
  }

  /** The inner handler with the evidently intended `except HTTPException: raise` in front. */
  function CatchAllButHttp(r: Result<VideoResponse, Raised>): Result<VideoResponse, Raised> {
    match r
    case Failure(HttpException(_, _)) => r
    case _ => CatchAll(r)
  }

  /** `render_video` with the validation error reaching the client as a 400. */
  function RenderVideo(req: PromptRequest, env: Environment): HttpReply {
    Respond(CatchAllButHttp(GenerateVideo(req, env)))
  }

  // ---------------------------------------------------------------------------
  // The handler as written

  /**
   * As written, no request ever receives a 400: every failure of the inner
   * `try` is a 500 whose detail is the prefix and `str(e)`, and a success is
   * returned as it is.
   */
  lemma AsWrittenOnlyServerErrors(req: PromptRequest, env: Environment)
    ensures RenderVideoAsWritten(req, env).Error? ==> RenderVideoAsWritten(req, env).status == 500
    ensures GenerateVideo(req, env).Failure? ==>
              RenderVideoAsWritten(req, env) == Error(500, FailurePrefix + Str(GenerateVideo(req, env).error))
    ensures GenerateVideo(req, env).Success? ==> RenderVideoAsWritten(req, env) == Ok(GenerateVideo(req, env).value)
  {
  }

  /** A clean exit that left no video is reported with the not-found text. */
  lemma AsWrittenOutputNotFound(req: PromptRequest, env: Environment)
    requires env.completion.Success? && IsManimCode(ExtractCode(env.completion.value))
    requires env.process.Exited? && env.process.returnCode == 0
    requires LocateOutput(env.workspace, req.outputFormat, env.existing).None?
    ensures RenderVideoAsWritten(req, env) == Error(500, FailurePrefix + NotFoundMessage)
  {
  }

  /** A rendering process that could not be started is reported with the exception's text. */
  lemma AsWrittenNotStarted(req: PromptRequest, env: Environment)
    requires env.completion.Success? && IsManimCode(ExtractCode(env.completion.value))
    requires env.process.NotStarted?
    ensures RenderVideoAsWritten(req, env) == Error(500, FailurePrefix + env.process.reason)
  {
  }

  /** As written, rejected code comes back as a 500 whose detail embeds the swallowed 400. */
  lemma AsWrittenRejectedCodeIs500(req: PromptRequest, env: Environment)
    requires RejectsCode(env)
    ensures RenderVideoAsWritten(req, env) == Error(500, FailurePrefix + "400: " + InvalidCodeDetail)
  {
    var raised := HttpException(400, InvalidCodeDetail);
    assert GenerateVideo(req, env) == Failure(raised);
    StrBadRequest(InvalidCodeDetail);
    assert FailurePrefix + Str(raised) == FailurePrefix + "400: " + InvalidCodeDetail by {
      assert FailurePrefix + ("400: " + InvalidCodeDetail) == FailurePrefix + "400: " + InvalidCodeDetail;
    }
  }

  /** `str(HTTPException(400, detail))`. */
  lemma StrBadRequest(detail: string)
    ensures Str(HttpException(400, detail)) == "400: " + detail
  {
    assert Decimal(400) == "400" by {
      assert DigitChar(4) == '4' && DigitChar(0) == '0' by {}
      assert Decimal(4) == "4" by {}
      assert Decimal(40) == Decimal(4) + ['0'] by {}
      assert Decimal(400) == Decimal(40) + ['0'] by {}
    }
    assert "400" + ": " + detail == "400: " + detail by {}
  }

  /** A concrete reply with no scene in it, answered with a 500 instead of a 400. */
  lemma AsWrittenCounterexample(req: PromptRequest, env: Environment)
    requires env.completion == Success("def construct(self): pass")
    ensures RenderVideoAsWritten(req, env).Error? && RenderVideoAsWritten(req, env).status == 500
    ensures RenderVideo(req, env) == Error(400, InvalidCodeDetail)
  {
    var text := "def construct(self): pass";
    assert '`' !in text;
    AbsentFirstChar(text, Fence);
    assert !IsSpace(text[0]) && !IsSpace(text[|text| - 1]);
    ExtractPlainText(text);
    ConstructAloneRejected();
    assert RejectsCode(env);
    AsWrittenRejectedCodeIs500(req, env);
    InvalidCodeIsClientError(req, env);
  }

  // ---------------------------------------------------------------------------
  // The corrected handler

  /** Rejected code is a client error with the validator's detail. */
  lemma InvalidCodeIsClientError(req: PromptRequest, env: Environment)
    requires RejectsCode(env)
    ensures RenderVideo(req, env) == Error(400, InvalidCodeDetail)
  {
  }

  /** A 400 means exactly that the code was rejected; every other failure is a 500. */
  lemma ErrorStatuses(req: PromptRequest, env: Environment)
    ensures RenderVideo(req, env).Error? ==>
              RenderVideo(req, env).status == 400 || RenderVideo(req, env).status == 500
    ensures RenderVideo(req, env).Error? ==>
              (RenderVideo(req, env).status == 400 <==> RejectsCode(env))
  {
  }

  /** The correction changes nothing but the rejected-code reply. */
  lemma CorrectionOnlyAffectsRejection(req: PromptRequest, env: Environment)
    requires !RejectsCode(env)
    ensures RenderVideo(req, env) == RenderVideoAsWritten(req, env)
  {
  }

  /** A failing model call is a 500 carrying the exception's text. */
  lemma CompletionFailureReported(req: PromptRequest, env: Environment)
    requires env.completion.Failure?
    ensures RenderVideo(req, env) == Error(500, FailurePrefix + env.completion.error)
  {
  }

  /** A failed rendering run is a 500 whose detail carries the tool's standard error. */
  lemma ManimFailureReported(req: PromptRequest, env: Environment)
    requires env.completion.Success? && !RejectsCode(env)
    requires env.process.Exited? && env.process.returnCode != 0
    ensures RenderVideo(req, env) == Error(500, FailurePrefix + ErrorText(ManimFailed(env.process.stderr)))
    ensures Contains(RenderVideo(req, env).detail, env.process.stderr)
  {
    var message := ErrorText(ManimFailed(env.process.stderr));
    assert GenerateVideo(req, env) == Failure(OtherException(message));
    ManimFailureCarriesStderr(env.process.stderr);
    ContainsExtended(FailurePrefix, message, "", env.process.stderr);
    assert FailurePrefix + message + "" == FailurePrefix + message;
  }

  /**
   * Success is exactly: the model answered, the code passed validation and
   * the run produced an uploaded video. The payload carries the store's URL,
   * the fixed message, and metadata echoing the request and the model.
   */
  lemma SuccessPayload(req: PromptRequest, env: Environment)
    ensures RenderVideo(req, env).Ok? <==>
              env.completion.Success? && !RejectsCode(env)
              && RunManim(env.workspace, req.outputFormat, env.process, env.existing, env.id, env.upload).Success?
    ensures RenderVideo(req, env).Ok? ==>
              var body := RenderVideo(req, env).body;
              && body.videoUrl == RunManim(env.workspace, req.outputFormat, env.process, env.existing, env.id, env.upload).value
              && body.message == SuccessMessage
              && body.metadata == Metadata(req.prompt, env.model, env.timestamp, req.outputFormat)
  {
  }

  /**
   * A good render answers 200: accepted code, a zero exit, a video at one of
   * the two paths and an upload the store accepts give the store's URL.
   * A failed upload is a 500 carrying the store's error text.
   */
  lemma GoodRenderAnswers200(req: PromptRequest, env: Environment)
    requires env.completion.Success? && !RejectsCode(env)
    requires env.process.Exited? && env.process.returnCode == 0
    requires LocateOutput(env.workspace, req.outputFormat, env.existing).Some?
    ensures var stored := env.upload(LocateOutput(env.workspace, req.outputFormat, env.existing).value,
                                     UploadKey(env.id, req.outputFormat));
      && (stored.Success? ==>
            RenderVideo(req, env) == Ok(VideoResponse(stored.value, SuccessMessage,
                                                      Metadata(req.prompt, env.model, env.timestamp, req.outputFormat))))
      && (stored.Failure? ==> RenderVideo(req, env) == Error(500, FailurePrefix + stored.error))
  {
  }
}
