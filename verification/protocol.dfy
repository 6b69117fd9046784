/** The progress events both streaming endpoints emit, and the reply shapes of the HTTP
    endpoints. Each event is one `data: <json>` frame on the wire; the JSON encoding itself
    is not modelled, only which fields each frame carries. */
module Protocol {
  import Service

  /** Where a success frame puts the recognized text: at the top level of the JSON object
      (upload.py) or under a `data` object (stream.py). */
  datatype Payload = Flat(text: string) | Nested(text: string)

  datatype Event =
    | Start(message: string)
    | Progress(message: string)
    | Success(message: string, payload: Payload)
    | Error(message: string)
    | End

  predicate IsTerminal(e: Event) {
    e.Success? || e.Error?
  }

  /** A start event, then `n` progress events, then `last`: the narration of one model
      call. */
  predicate Narrates(events: seq<Event>, n: nat, last: Event) {
    && |events| == n + 2
    && events[0].Start?
    && (forall i | 1 <= i <= n :: events[i].Progress?)
    && events[n + 1] == last
  }

  /** Exactly one success-or-error event, and it is the last one. */
  predicate EndsWithOneTerminal(events: seq<Event>) {
    forall i | 0 <= i < |events| :: IsTerminal(events[i]) <==> i == |events| - 1
  }

  /** Exactly one success-or-error event; an `end` event follows a success immediately and
      closes the stream; nothing follows an error. */
  predicate ClosedAfterTerminal(events: seq<Event>) {
    && |events| >= 1
    && var last := |events| - 1;
       if events[last].End? then
         && last >= 1 && events[last - 1].Success?
         && forall i | 0 <= i < last - 1 :: !IsTerminal(events[i]) && !events[i].End?
       else
         && events[last].Error?
         && forall i | 0 <= i < last :: !IsTerminal(events[i]) && !events[i].End?
  }

  /** A narration that ends in a success or an error has exactly one of them, last. */
  lemma NarrationEndsOnce(events: seq<Event>, n: nat, last: Event)
    requires Narrates(events, n, last) && IsTerminal(last)
    ensures EndsWithOneTerminal(events)
    ensures forall i | 0 <= i < |events| :: !events[i].End?
  {
    assert forall i | 1 <= i <= n :: !IsTerminal(events[i]);
  }

  const StartMessage: string := "开始处理图片..."
  const RecognizeFailedPrefix: string := "识别失败: "

  /** A stream of events with the requests the recognition service sent while producing
      it. */
  datatype Streamed = Streamed(events: seq<Event>, sent: seq<Service.ApiRequest>)

  const BadRequest: nat := 400

  /** An endpoint either raises an HTTP error before doing any work or returns a body. */
  datatype HttpReply<T> = Rejected(status: nat, detail: string) | Responded(body: T)

  datatype Handled<T> = Handled(reply: HttpReply<T>, sent: seq<Service.ApiRequest>)
}
