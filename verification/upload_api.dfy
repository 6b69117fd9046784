/** backend/app/api/upload.py: the `/upload` and `/refine` endpoints, which turn a service
    failure into a `success=false` body, and the `generate_stream` progress stream served
    for `/upload-stream`. */
module UploadApi {
  import opened Common
  import opened Validation
  import opened Service
  import opened Protocol
  import ResponseCleaner

  datatype UploadResponse = UploadResponse(success: bool, message: string, recognizedText: Option<string>)

  datatype RefineRequest = RefineRequest(originalText: string, refinementInstruction: string)

  datatype RefineResponse = RefineResponse(success: bool, message: string, refinedText: Option<string>)

  const RecognizedMessage: string := "文字识别成功"
  const RefinedMessage: string := "文字微调成功"
  const RefineFailedPrefix: string := "微调失败: "

  const ReadingFile: string := "正在读取图片文件..."
  const CallingModel: string := "正在调用GLM-4.5V模型识别..."
  const AnalysingImage: string := "模型正在分析图片内容..."
  const RecognisingText: string := "正在识别文字内容..."
  const FinishingUp: string := "文字识别完成，正在处理结果..."

  /** `/upload`: a refused upload raises HTTP 400 before the service is called; otherwise any
      service failure becomes `success=false` with the `识别失败: ` message and no text. */
  function Upload(file: UploadFile, customPrompt: Option<string>, api: Api): (r: Handled<UploadResponse>)
    ensures CheckUpload(file).Fail? ==>
              r.reply == Rejected(BadRequest, CheckUpload(file).error.Detail()) && r.sent == []
    ensures CheckUpload(file) == Pass ==>
              var call := RecognizeText(file.image, customPrompt, api);
              && r.sent == call.sent
              && r.reply.Responded?
              && (r.reply.body.success <==> call.outcome.Success?)
              && (call.outcome.Success? ==>
                    r.reply.body == UploadResponse(true, RecognizedMessage, Some(call.outcome.value)))
              && (call.outcome.Failure? ==>
                    r.reply.body == UploadResponse(false, RecognizeFailedPrefix + call.outcome.error.Describe(), None))
  {
    match CheckUpload(file)
    case Fail(why) => Handled(Rejected(BadRequest, why.Detail()), [])
    case Pass =>
      var call := RecognizeText(file.image, customPrompt, api);
      match call.outcome
      case Success(text) => Handled(Responded(UploadResponse(true, RecognizedMessage, Some(text))), call.sent)
      case Failure(err) =>
        Handled(Responded(UploadResponse(false, RecognizeFailedPrefix + err.Describe(), None)), call.sent)
  }

  /** `/refine`: one refinement call and never an HTTP error; a failure becomes
      `success=false` with the `微调失败: ` message. */
  function Refine(request: RefineRequest, api: Api): (r: Handled<RefineResponse>)
    ensures var call := RefineText(request.originalText, request.refinementInstruction, api);
      && r.sent == call.sent && |r.sent| == 1
      && r.reply.Responded?
      && (r.reply.body.success <==> call.outcome.Success?)
      && (call.outcome.Success? ==>
            r.reply.body == RefineResponse(true, RefinedMessage, Some(call.outcome.value)))
      && (call.outcome.Failure? ==>
            r.reply.body == RefineResponse(false, RefineFailedPrefix + call.outcome.error.Describe(), None))
  {
    var call := RefineText(request.originalText, request.refinementInstruction, api);
    match call.outcome
    case Success(text) => Handled(Responded(RefineResponse(true, RefinedMessage, Some(text))), call.sent)
    case Failure(err) =>
      Handled(Responded(RefineResponse(false, RefineFailedPrefix + err.Describe(), None)), call.sent)
  }

  /** The start event and the four progress events `generate_stream` sends before the
      model answers. */
  const Waiting: seq<Event> := [Start(StartMessage), Progress(ReadingFile), Progress(CallingModel),
                                Progress(AnalysingImage), Progress(RecognisingText)]

  /** The part of `generate_stream` after the upload checks pass: four progress events, the
      model call, then the outcome. */
  function RecognitionStream(image: Image, customPrompt: Option<string>, api: Api): (r: Streamed)
    ensures var call := RecognizeText(image, customPrompt, api);
      && r.sent == call.sent
      && (call.outcome.Failure? ==>
            Narrates(r.events, 4, Error(RecognizeFailedPrefix + call.outcome.error.Describe())))
      && (call.outcome.Success? ==>
            Narrates(r.events, 5, Event.Success(RecognizedMessage, Flat(call.outcome.value))))
      && Waiting <= r.events
      && (call.outcome.Success? ==> r.events[5] == Progress(FinishingUp))
  {
    var waiting := Waiting;
    var call := RecognizeText(image, customPrompt, api);
    match call.outcome
    case Failure(err) =>
      Streamed(waiting + [Error(RecognizeFailedPrefix + err.Describe())], call.sent)
    case Success(text) =>
      Streamed(waiting + [Progress(FinishingUp), Event.Success(RecognizedMessage, Flat(text))], call.sent)
  }

  /** `generate_stream`: the content-type and size checks happen inside the stream, after
      the start event, and end it with an error; a service failure ends it with an error
      after four progress events; a success adds a fifth progress event and a success event
      carrying the text at the top level. No `end` event is ever sent. */
  function GenerateStream(file: UploadFile, customPrompt: Option<string>, api: Api): (r: Streamed)
    ensures CheckContentType(file.contentType).Fail? ==>
              && r.events == [Start(StartMessage), Error(CheckContentType(file.contentType).error.Detail())]
              && r.sent == []
    ensures CheckContentType(file.contentType) == Pass && |file.image.bytes| > MaxUploadBytes ==>
              && r.events == [Start(StartMessage), Progress(ReadingFile), Error(TooLarge.Detail())]
              && r.sent == []
    ensures CheckUpload(file) == Pass ==> r == RecognitionStream(file.image, customPrompt, api)
  {
    var start := Start(StartMessage);
    match CheckContentType(file.contentType)
    case Fail(why) => Streamed([start, Error(why.Detail())], [])
    case Pass =>
      if |file.image.bytes| > MaxUploadBytes then
        Streamed([start, Progress(ReadingFile), Error(TooLarge.Detail())], [])
      else
        RecognitionStream(file.image, customPrompt, api)
  }

  /** Every `generate_stream` stream has exactly one success-or-error event, last, and no
      `end` event. */
  lemma GenerateStreamEndsOnce(file: UploadFile, customPrompt: Option<string>, api: Api)
    ensures var events := GenerateStream(file, customPrompt, api).events;
      EndsWithOneTerminal(events) && forall i | 0 <= i < |events| :: !events[i].End?
  {
    var events := GenerateStream(file, customPrompt, api).events;
    if CheckContentType(file.contentType).Fail? {
      NarrationEndsOnce(events, 0, events[1]);
    } else if |file.image.bytes| > MaxUploadBytes {
      NarrationEndsOnce(events, 1, events[2]);
    } else if RecognizeText(file.image, customPrompt, api).outcome.Failure? {
      NarrationEndsOnce(events, 4, events[5]);
    } else {
      NarrationEndsOnce(events, 5, events[6]);
    }
  }

  /** The stream reaches the model exactly when the upload passes the endpoint checks and
      the decoded image passes the service's own check. */
  lemma GenerateStreamCallsModelIff(file: UploadFile, customPrompt: Option<string>, api: Api)
    ensures GenerateStream(file, customPrompt, api).sent != [] <==>
              CheckUpload(file) == Pass && ValidateImage(file.image)
  {
  }

  /** `/upload` and `generate_stream` agree on every upload: they send the same requests;
      the reply carries text `t` exactly when the stream's last event carries `t` at the top
      level; the stream ends with an error exactly when the reply is a refusal or a failure,
      and that error's message is the refusal's detail or the failure's message. */
  lemma UploadAgreesWithStream(file: UploadFile, customPrompt: Option<string>, api: Api, t: string)
    ensures var handled := Upload(file, customPrompt, api);
      var stream := GenerateStream(file, customPrompt, api);
      var last := stream.events[|stream.events| - 1];
      && handled.sent == stream.sent
      && (handled.reply == Responded(UploadResponse(true, RecognizedMessage, Some(t))) <==>
            last == Event.Success(RecognizedMessage, Flat(t)))
      && (last.Error? <==> handled.reply.Rejected? || !handled.reply.body.success)
      && (handled.reply.Rejected? ==> last == Error(handled.reply.detail))
      && (handled.reply.Responded? && !handled.reply.body.success ==>
            last == Error(handled.reply.body.message))
  {
    var stream := GenerateStream(file, customPrompt, api);
    var call := RecognizeText(file.image, customPrompt, api);
    if CheckUpload(file) == Pass {
      if call.outcome.Success? {
        assert stream.events[6] == Event.Success(RecognizedMessage, Flat(call.outcome.value));
      } else {
        assert stream.events[5] == Error(RecognizeFailedPrefix + call.outcome.error.Describe());
      }
    }
  }

  /** `/refine` answers `success` exactly when it carries text, and that text is in the
      cleaned shape whatever the model returned. */
  lemma RefineReplyIsConsistent(request: RefineRequest, api: Api)
    ensures Refine(request, api).reply.Responded?
    ensures var response := Refine(request, api).reply.body;
      && (response.success <==> response.refinedText.Some?)
      && (response.success ==> ResponseCleaner.CleanShape(response.refinedText.value))
  {
    if RefineText(request.originalText, request.refinementInstruction, api).outcome.Success? {
      RefinedTextIsClean(request.originalText, request.refinementInstruction, api);
    }
  }
}
