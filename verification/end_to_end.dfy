/** The two progress streams as the frontend store sees them: each event becomes the frame
    its JSON object parses to, and the frames are fed to `updateStreamingProgress` in order.
    The store reads `recognized_text` at the top level of a frame, which is where upload.py
    puts it; stream.py nests it under `data`. */
module EndToEnd {
  import opened Common
  import opened Validation
  import opened Service
  import opened Protocol
  import UploadApi
  import StreamApi
  import opened AppStore

  /** The fields of an event's JSON object that the store reads. */
  function Received(e: Event): (f: Frame)
    ensures (f.kind == StartType) == e.Start?
    ensures (f.kind == SuccessType) == e.Success?
    ensures (f.kind == ErrorType) == e.Error?
    ensures Reacts(f) <==> !e.End?
    ensures f.recognizedText.Some? <==> e.Success? && e.payload.Flat?
    ensures !e.End? ==> f.message == Some(e.message)
    ensures e.End? ==> f.message.None?
    ensures e.Success? && e.payload.Flat? ==> f.recognizedText == Some(e.payload.text)
  {
    match e
    case Start(m) => Frame(StartType, Some(m), None)
    case Progress(m) => Frame(ProgressType, Some(m), None)
    case Success(m, Flat(text)) => Frame(SuccessType, Some(m), Some(text))
    case Success(m, Nested(_)) => Frame(SuccessType, Some(m), None)
    case Error(m) => Frame(ErrorType, Some(m), None)
    case End => Frame("end", None, None)
  }

  function ReceivedAll(events: seq<Event>): (frames: seq<Frame>)
    ensures |frames| == |events|
    ensures forall i | 0 <= i < |events| :: frames[i] == Received(events[i])
  {
    seq(|events|, i requires 0 <= i < |events| => Received(events[i]))
  }

  /** Replaying a narration: the start and progress frames leave the shown result alone, so
      only the last frame can change it. */
  lemma ReplayNarration(s: State, events: seq<Event>, n: nat, last: Event)
    requires Narrates(events, n, last)
    ensures var frames := ReceivedAll(events);
      && Replay(s, frames) == Update(Replay(s, frames[..n + 1]), Received(last))
      && Replay(s, frames[..n + 1]).result == s.result
  {
    var frames := ReceivedAll(events);
    var before := frames[..n + 1];
    assert forall i | 0 <= i < |before| :: before[i] == Received(events[i]);
    ReplayKeepsResult(s, before);
  }

  /** However a `generate_stream` stream ends, the store stops streaming. */
  lemma UploadStreamLeavesStoreIdle(s: State, file: UploadFile, customPrompt: Option<string>, api: Api)
    ensures !Replay(s, ReceivedAll(UploadApi.GenerateStream(file, customPrompt, api).events)).isStreaming
  {
    var events := UploadApi.GenerateStream(file, customPrompt, api).events;
    UploadApi.GenerateStreamEndsOnce(file, customPrompt, api);
    var frames := ReceivedAll(events);
    assert IsTerminal(events[|events| - 1]);
    ReplayEndsIdle(s, frames, |frames| - 1);
  }

  /** However a `stream_recognition_progress` stream ends, the store stops streaming: the
      `end` event after a success is ignored by the reducer. */
  lemma ProgressStreamLeavesStoreIdle(s: State, image: Image, customPrompt: Option<string>, api: Api)
    ensures !Replay(s, ReceivedAll(StreamApi.StreamRecognitionProgress(image, customPrompt, api).events)).isStreaming
  {
    var events := StreamApi.StreamRecognitionProgress(image, customPrompt, api).events;
    StreamApi.StreamClosedAfterTerminal(image, customPrompt, api);
    var frames := ReceivedAll(events);
    var last := |events| - 1;
    if events[last].End? {
      ReplayEndsIdle(s, frames, last - 1);
    } else {
      ReplayEndsIdle(s, frames, last);
    }
  }

  /** Through upload.py's stream, a recognition that succeeds shows exactly the service's
      text in the store's result and marks it no longer processing. */
  lemma UploadStreamDeliversText(s: State, file: UploadFile, customPrompt: Option<string>, api: Api)
    requires s.result.Some?
    requires CheckUpload(file) == Pass
    requires RecognizeText(file.image, customPrompt, api).outcome.Success?
    ensures Replay(s, ReceivedAll(UploadApi.GenerateStream(file, customPrompt, api).events)).result
         == Some(s.result.value.(recognizedText := RecognizeText(file.image, customPrompt, api).outcome.value,
                                 isProcessing := Some(false)))
  {
    var events := UploadApi.GenerateStream(file, customPrompt, api).events;
    ReplayNarration(s, events, 5, events[6]);
  }

  /** Through upload.py's stream, a failed recognition leaves the shown text as it was, marks
      the result no longer processing and logs the failure with both prefixes. */
  lemma UploadStreamReportsFailure(s: State, file: UploadFile, customPrompt: Option<string>, api: Api)
    requires CheckUpload(file) == Pass
    requires RecognizeText(file.image, customPrompt, api).outcome.Failure?
    ensures var r := Replay(s, ReceivedAll(UploadApi.GenerateStream(file, customPrompt, api).events));
      && (s.result.Some? ==> r.result == Some(s.result.value.(isProcessing := Some(false))))
      && r.logs[|r.logs| - 1] == ErrorLogPrefix + RecognizeFailedPrefix
                                 + RecognizeText(file.image, customPrompt, api).outcome.error.Describe()
  {
    var events := UploadApi.GenerateStream(file, customPrompt, api).events;
    var reason := RecognizeText(file.image, customPrompt, api).outcome.error.Describe();
    var message := RecognizeFailedPrefix + reason;
    ReplayNarration(s, events, 4, Error(message));
    var frames := ReceivedAll(events);
    var mid := Replay(s, frames[..5]);
    var r := Update(mid, Frame(ErrorType, Some(message), None));
    assert |message| > 0 && OrElse(Some(message), DefaultErrorLog) == message;
    assert r.logs[|mid.logs|] == ErrorLogPrefix + message;
    assert ErrorLogPrefix + message == ErrorLogPrefix + RecognizeFailedPrefix + reason;
  }

  /** Through stream.py's stream, a successful recognition still blanks the shown text,
      because the text travels under `data` and the store reads the absent top-level field. */
  lemma ProgressStreamLosesText(s: State, image: Image, customPrompt: Option<string>, api: Api)
    requires s.result.Some?
    requires RecognizeText(image, customPrompt, api).outcome.Success?
    ensures Replay(s, ReceivedAll(StreamApi.StreamRecognitionProgress(image, customPrompt, api).events)).result
         == Some(s.result.value.(recognizedText := "", isProcessing := Some(false)))
  {
    var events := StreamApi.StreamRecognitionProgress(image, customPrompt, api).events;
    var upToSuccess := events[..5];
    var frames := ReceivedAll(events);
    assert ReceivedAll(upToSuccess) == frames[..5];
    ReplayNarration(s, upToSuccess, 3, events[4]);
  }

  /** Every event of upload.py's stream adds one log line, in order. */
  lemma UploadStreamLogsEveryEvent(s: State, file: UploadFile, customPrompt: Option<string>, api: Api)
    ensures var events := UploadApi.GenerateStream(file, customPrompt, api).events;
      var r := Replay(s, ReceivedAll(events));
      |r.logs| == |s.logs| + |events| && r.logs[..|s.logs|] == s.logs
  {
    var events := UploadApi.GenerateStream(file, customPrompt, api).events;
    UploadApi.GenerateStreamEndsOnce(file, customPrompt, api);
    AllHandledCounted(ReceivedAll(events));
    ReplayKeepsPromptAndLogs(s, ReceivedAll(events));
  }

  lemma {:induction false} AllHandledCounted(frames: seq<Frame>)
    requires forall i | 0 <= i < |frames| :: Reacts(frames[i])
    ensures CountHandled(frames) == |frames|
    decreases |frames|
  {
    if frames != [] {
      AllHandledCounted(frames[..|frames| - 1]);
    }
  }
}
