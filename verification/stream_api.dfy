/** backend/app/api/stream.py: the `/upload-stream` variant that checks the upload before
    opening the stream, and `stream_recognition_progress`, which validates the decoded image
    itself and closes a successful stream with an `end` event. Both routers register
    `/upload-stream`; backend/main.py includes the upload.py router first, so this variant is
    the one shadowed. */
module StreamApi {
  import opened Common
  import opened Validation
  import opened Service
  import opened Protocol
  import UploadApi

  const ValidatingImage: string := "验证图片格式和大小..."
  const InvalidImageMessage: string := "图片格式或大小不符合要求"
  const PreparingImage: string := "准备图片数据..."
  const CallingModel: string := "正在调用GLM-4.5V进行文字识别..."
  const RecognizedMessage: string := "识别完成"

  /** The start event and the three progress events `stream_recognition_progress` sends
      before the model answers. */
  const Waiting: seq<Event> := [Start(StartMessage), Progress(ValidatingImage), Progress(PreparingImage),
                                Progress(CallingModel)]

  /** The part of `stream_recognition_progress` after the image passes validation: two more
      progress events, the model call, then success followed by `end`, or an error. */
  function ValidatedStream(image: Image, customPrompt: Option<string>, api: Api): (r: Streamed)
    ensures var call := RecognizeText(image, customPrompt, api);
      && r.sent == call.sent
      && (call.outcome.Success? ==>
            r.events == [Start(StartMessage), Progress(ValidatingImage), Progress(PreparingImage),
                         Progress(CallingModel),
                         Event.Success(RecognizedMessage, Nested(call.outcome.value)), End])
      && (call.outcome.Failure? ==>
            && Narrates(r.events, 3, Error(RecognizeFailedPrefix + call.outcome.error.Describe()))
            && Waiting <= r.events)
  {
    var waiting := Waiting;
    var call := RecognizeText(image, customPrompt, api);
    match call.outcome
    case Success(text) =>
      Streamed(waiting + [Event.Success(RecognizedMessage, Nested(text)), End], call.sent)
    case Failure(err) =>
      Streamed(waiting + [Error(RecognizeFailedPrefix + err.Describe())], call.sent)
  }

  /** `stream_recognition_progress`: a failed validation ends the stream before any request;
      otherwise exactly one request is sent, and a failure is never the validation error
      again. */
  function StreamRecognitionProgress(image: Image, customPrompt: Option<string>, api: Api): (r: Streamed)
    ensures !ValidateImage(image) ==>
              && r.events == [Start(StartMessage), Progress(ValidatingImage), Error(InvalidImageMessage)]
              && r.sent == []
    ensures ValidateImage(image) ==>
              && r == ValidatedStream(image, customPrompt, api)
              && |r.sent| == 1
              && RecognizeText(image, customPrompt, api).outcome != Failure(InvalidImage)
  {
    if !ValidateImage(image) then
      Streamed([Start(StartMessage), Progress(ValidatingImage), Error(InvalidImageMessage)], [])
    else
      ValidatedStream(image, customPrompt, api)
  }

  /** The endpoint: a refused upload raises HTTP 400 and no stream is created; otherwise the
      body is the progress stream. */
  function StreamUpload(file: UploadFile, customPrompt: Option<string>, api: Api): (r: Handled<seq<Event>>)
    ensures CheckUpload(file).Fail? ==>
              r.reply == Rejected(BadRequest, CheckUpload(file).error.Detail()) && r.sent == []
    ensures CheckUpload(file) == Pass ==>
              var stream := StreamRecognitionProgress(file.image, customPrompt, api);
              r.reply == Responded(stream.events) && r.sent == stream.sent
  {
    match CheckUpload(file)
    case Fail(why) => Handled(Rejected(BadRequest, why.Detail()), [])
    case Pass =>
      var stream := StreamRecognitionProgress(file.image, customPrompt, api);
      Handled(Responded(stream.events), stream.sent)
  }

  /** Exactly one success or error; `end` only right after success; nothing after error. */
  lemma StreamClosedAfterTerminal(image: Image, customPrompt: Option<string>, api: Api)
    ensures ClosedAfterTerminal(StreamRecognitionProgress(image, customPrompt, api).events)
  {
    var events := StreamRecognitionProgress(image, customPrompt, api).events;
    if !ValidateImage(image) {
    } else if RecognizeText(image, customPrompt, api).outcome.Success? {
      assert forall i | 0 <= i < 4 :: !IsTerminal(events[i]) && !events[i].End?;
    } else {
      assert forall i | 1 <= i <= 3 :: events[i].Progress?;
    }
  }

  /** stream.py's endpoint and upload.py's `generate_stream` agree on every upload: they send
      the same requests; a refused upload is the error `generate_stream` closes with; and
      otherwise stream.py's stream delivers text `t` exactly when `generate_stream` does,
      nested rather than at the top level. */
  lemma StreamUploadAgreesWithGenerateStream(file: UploadFile, customPrompt: Option<string>, api: Api, t: string)
    ensures var handled := StreamUpload(file, customPrompt, api);
      var other := UploadApi.GenerateStream(file, customPrompt, api);
      var last := other.events[|other.events| - 1];
      && handled.sent == other.sent
      && (handled.reply.Rejected? ==> last == Error(handled.reply.detail))
      && (handled.reply.Responded? ==>
            (Event.Success(RecognizedMessage, Nested(t)) in handled.reply.body <==>
             last == Event.Success(UploadApi.RecognizedMessage, Flat(t))))
  {
    if CheckUpload(file) == Pass {
      DeliveredTextAgrees(file.image, customPrompt, api, t);
    }
  }

  /** Once the upload checks pass, both generators deliver the same text. */
  lemma DeliveredTextAgrees(image: Image, customPrompt: Option<string>, api: Api, t: string)
    ensures var events := StreamRecognitionProgress(image, customPrompt, api).events;
      var other := UploadApi.RecognitionStream(image, customPrompt, api).events;
      Event.Success(RecognizedMessage, Nested(t)) in events <==>
        other[|other| - 1] == Event.Success(UploadApi.RecognizedMessage, Flat(t))
  {
    var events := StreamRecognitionProgress(image, customPrompt, api).events;
    var call := RecognizeText(image, customPrompt, api);
    if !ValidateImage(image) {
      assert forall i | 0 <= i < 3 :: !events[i].Success?;
    } else if call.outcome.Success? {
      assert events[4] == Event.Success(RecognizedMessage, Nested(call.outcome.value));
    } else {
      assert forall i | 0 <= i < 5 :: !events[i].Success?;
    }
  }
}
