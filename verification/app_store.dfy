/** frontend/src/stores/app.ts: the store state and its pure transitions. The streaming
    reducer `updateStreamingProgress` folds the frames of a progress stream into the store. */
module AppStore {
  import opened Common

  /** The part of the displayed recognition result the reducer touches; confidence and
      processing time are floating-point display fields and are not modelled. */
  datatype RecognitionResult = RecognitionResult(
    originalImage: string,
    recognizedText: string,
    isProcessing: Option<bool>)

  /** A parsed progress frame as the store receives it: the `type` string and the optional
      `message` and top-level `recognized_text` fields. */
  datatype Frame = Frame(kind: string, message: Option<string>, recognizedText: Option<string>)

  datatype State = State(
    prompt: string,
    result: Option<RecognitionResult>,
    isLoading: bool,
    logs: seq<string>,
    isStreaming: bool)

  const StartType: string := "start"
  const ProgressType: string := "progress"
  const SuccessType: string := "success"
  const ErrorType: string := "error"

  const DefaultStartLog: string := "开始识别..."
  const DefaultProgressLog: string := "处理中..."
  const SuccessLog: string := "识别完成！"
  const ErrorLogPrefix: string := "错误: "
  const DefaultErrorLog: string := "识别失败"

  /** The kinds the reducer's switch handles; every other kind falls through unchanged. */
  predicate Reacts(f: Frame) {
    f.kind in {StartType, ProgressType, SuccessType, ErrorType}
  }

  /** The streaming flag a frame sets, if it sets one. */
  function Toggle(f: Frame): Option<bool> {
    if f.kind == StartType then Some(true)
    else if f.kind == SuccessType || f.kind == ErrorType then Some(false)
    else None
  }

  function Initial(): State {
    State("", None, false, [], false)
  }

  /** `clearResult`. */
  function ClearResult(s: State): (r: State)
    ensures r.result.None? && r.logs == [] && !r.isStreaming
    ensures r.prompt == s.prompt && r.isLoading == s.isLoading
  {
    s.(result := None, logs := [], isStreaming := false)
  }

  /** `reset`. */
  function Reset(s: State): (r: State)
    ensures r.prompt == "" && r.result.None? && !r.isLoading && r.logs == [] && !r.isStreaming
  {
    Initial()
  }

  /** `updateStreamingProgress`. */
  function Update(s: State, f: Frame): (r: State)
    ensures r.prompt == s.prompt && r.isLoading == s.isLoading
    ensures !Reacts(f) ==> r == s
    ensures Reacts(f) ==> |r.logs| == |s.logs| + 1 && r.logs[..|s.logs|] == s.logs
    ensures Toggle(f).Some? ==> r.isStreaming == Toggle(f).value
    ensures Toggle(f).None? ==> r.isStreaming == s.isStreaming
    ensures f.kind == StartType ==>
              r.logs[|s.logs|] == OrElse(f.message, DefaultStartLog) && r.result == s.result
    ensures f.kind == ProgressType ==>
              r.logs[|s.logs|] == OrElse(f.message, DefaultProgressLog) && r.result == s.result
    ensures f.kind == SuccessType ==>
              && r.logs[|s.logs|] == SuccessLog
              && (s.result.None? ==> r.result.None?)
              && (s.result.Some? ==> r.result == Some(s.result.value.(
                    recognizedText := OrElse(f.recognizedText, ""), isProcessing := Some(false))))
    ensures f.kind == ErrorType ==>
              && r.logs[|s.logs|] == ErrorLogPrefix + OrElse(f.message, DefaultErrorLog)
              && (s.result.None? ==> r.result.None?)
              && (s.result.Some? ==> r.result == Some(s.result.value.(isProcessing := Some(false))))
  {
    if f.kind == StartType then
      s.(isStreaming := true, logs := s.logs + [OrElse(f.message, DefaultStartLog)])
    else if f.kind == ProgressType then
      s.(logs := s.logs + [OrElse(f.message, DefaultProgressLog)])
    else if f.kind == SuccessType then
      var result := match s.result
        case None => None
        case Some(res) => Some(res.(recognizedText := OrElse(f.recognizedText, ""), isProcessing := Some(false)));
      s.(isStreaming := false, logs := s.logs + [SuccessLog], result := result)
    else if f.kind == ErrorType then
      var result := match s.result
        case None => None
        case Some(res) => Some(res.(isProcessing := Some(false)));
      s.(isStreaming := false, logs := s.logs + [ErrorLogPrefix + OrElse(f.message, DefaultErrorLog)], result := result)
    else
      s
  }

  /** Feeding the frames of a stream to the reducer in order. */
  function Replay(s: State, frames: seq<Frame>): State
    decreases |frames|
  {
    if frames == [] then s else Update(Replay(s, frames[..|frames| - 1]), frames[|frames| - 1])
  }

  /** The flag set by the last frame that sets one, if any frame does. */
  function LastToggle(frames: seq<Frame>): Option<bool>
    decreases |frames|
  {
    if frames == [] then None
    else
      var t := Toggle(frames[|frames| - 1]);
      if t.Some? then t else LastToggle(frames[..|frames| - 1])
  }

  function CountHandled(frames: seq<Frame>): nat
    decreases |frames|
  {
    if frames == [] then 0
    else CountHandled(frames[..|frames| - 1]) + (if Reacts(frames[|frames| - 1]) then 1 else 0)
  }

  /** After a stream, `isStreaming` is what the last start, success or error frame set, or
      its old value when there was none. */
  lemma {:induction false} ReplayStreamingFlag(s: State, frames: seq<Frame>)
    ensures Replay(s, frames).isStreaming == LastToggle(frames).GetOr(s.isStreaming)
    decreases |frames|
  {
    if frames != [] {
      ReplayStreamingFlag(s, frames[..|frames| - 1]);
    }
  }

  /** A stream never touches the prompt or the loading flag, keeps the old log lines and
      adds one line per handled frame. */
  lemma {:induction false} ReplayKeepsPromptAndLogs(s: State, frames: seq<Frame>)
    ensures var r := Replay(s, frames);
      && r.prompt == s.prompt && r.isLoading == s.isLoading
      && |r.logs| == |s.logs| + CountHandled(frames) && r.logs[..|s.logs|] == s.logs
    decreases |frames|
  {
    if frames != [] {
      var before := frames[..|frames| - 1];
      ReplayKeepsPromptAndLogs(s, before);
      var mid := Replay(s, before);
      assert mid.logs[..|s.logs|] == s.logs;
      var r := Update(mid, frames[|frames| - 1]);
      if Reacts(frames[|frames| - 1]) {
        assert r.logs[..|mid.logs|] == mid.logs;
        assert r.logs[..|s.logs|] == mid.logs[..|s.logs|];
      }
    }
  }

  /** Frames that are neither success nor error leave the displayed result alone. */
  lemma {:induction false} ReplayKeepsResult(s: State, frames: seq<Frame>)
    requires forall i | 0 <= i < |frames| :: frames[i].kind != SuccessType && frames[i].kind != ErrorType
    ensures Replay(s, frames).result == s.result
    decreases |frames|
  {
    if frames != [] {
      ReplayKeepsResult(s, frames[..|frames| - 1]);
    }
  }

  /** A stream whose last start/success/error frame is a success or an error leaves the
      store not streaming, whatever follows it (an `end` frame, say). */
  lemma {:induction false} ReplayEndsIdle(s: State, frames: seq<Frame>, k: nat)
    requires k < |frames| && (frames[k].kind == SuccessType || frames[k].kind == ErrorType)
    requires forall i | k < i < |frames| :: Toggle(frames[i]).None?
    ensures !Replay(s, frames).isStreaming
  {
    LastToggleFindsTerminal(frames, k);
    ReplayStreamingFlag(s, frames);
  }

  lemma {:induction false} LastToggleFindsTerminal(frames: seq<Frame>, k: nat)
    requires k < |frames| && (frames[k].kind == SuccessType || frames[k].kind == ErrorType)
    requires forall i | k < i < |frames| :: Toggle(frames[i]).None?
    ensures LastToggle(frames) == Some(false)
    decreases |frames|
  {
    if k < |frames| - 1 {
      LastToggleFindsTerminal(frames[..|frames| - 1], k);
    }
  }

  /** Clearing twice is clearing once, and a reset store is already clear. */
  lemma ClearAndReset(s: State)
    ensures ClearResult(ClearResult(s)) == ClearResult(s)
    ensures ClearResult(Reset(s)) == Reset(s)
    ensures Reset(ClearResult(s)) == Reset(s)
    ensures ClearResult(s) == Reset(s) <==> s.prompt == "" && !s.isLoading
  {
  }
}
