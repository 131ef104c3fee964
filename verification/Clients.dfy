/** One exchange at a time over one transport: `Client::call` and what a client knows about itself (src/client/mod.rs). */
module Clients {
  import opened Basics
  import opened TransactionIds
  import opened Messages
  import opened Framings
  import opened Stream
  import opened Delivery
  import opened Sessions
  import opened StreamEnds
  import opened FrameErrors
  import Codes
  import Pdu

  datatype UnusableReason = PeerClosed | IoFailure(kind: IoKind) | Silent | Undecodable

  datatype ClientState = Untried | Answered | Unanswered | Unusable(reason: UnusableReason)

  /** `classify_unusable_reason`. */
  function Classify(error: Error): UnusableReason {
    match error
    case ConnectionClosed => PeerClosed
    case Io(kind) => if kind.UnexpectedEof? then PeerClosed else IoFailure(kind)
    case Timeout(_) => Silent
    case _ => Undecodable
  }

  /** `request_header`. */
  function RequestHeader(f: Framing, unit: Byte, transaction: Word): (h: Header)
    ensures HeaderOf(f, h) && h.unit == unit
  {
    if f.Tcp? then Mbap(transaction, unit) else Address(unit)
  }

  /** A request whose write was begun: the bytes it goes out as, and whether they were written in full. */
  datatype Attempt = Attempt(header: Header, adu: Bytes, completed: bool)

  /** A client, with the writes it has begun. */
  datatype Client = Client(framing: Framing, next: Word, state: ClientState, receiver: Receiver, attempts: seq<Attempt>)

  function NewClient(f: Framing): Client {
    Client(f, 1, Untried, Receiver([], false), [])
  }

  /** What becomes of the write: done, failed, or given up by the caller part-way. */
  datatype Sending = Written | WriteFailed(kind: IoKind) | WriteDropped

  /** How a wait that no event ends is ended: by the deadline, or by the caller dropping the call. */
  datatype End = Deadline | Dropped

  /** Everything outside the client that a call meets: its write, then the stream until the wait is cut short. */
  datatype World = World(sending: Sending, events: seq<Event>, end: End) {
    /** The caller stays with the call until it returns. */
    predicate Kept() {
      !sending.WriteDropped? && end.Deadline?
    }
  }

  datatype CallResult = Returned(result: Result<Option<Pdu.ResponsePdu>>) | Abandoned

  /** How a wait ended, and what it left of the transport and the stream. */
  datatype Waited = Waited(result: CallResult, state: ClientState, receiver: Receiver, events: seq<Event>)

  /** `decode_response`. */
  function DecodeResponseAdu(f: Framing, adu: Bytes): Result<(Header, Pdu.ResponsePdu)> {
    var (h, pdu) :- Split(f, adu);
    var p :- Pdu.DecodeResponse(pdu);
    Ok((h, p))
  }

  /** What a failed receive leaves of the client. */
  function AfterFailure(f: Framing, error: Error): ClientState {
    if error.EndsStream() || !BoundaryOf(f).SelfLocating() then Unusable(Classify(error)) else Unanswered
  }

  /** The receive loop of `call`: frames that answer something else are discarded. */
  function AwaitResponse(
    f: Framing, sent: Header, expected: Codes.FunctionCode, state: ClientState, s: Receiver, events: seq<Event>, end: End)
    : Waited
    decreases |s.buffer| + |Payload(events)|
  {
    var r := RecvAdu(f, Response, s, events);
    match r.outcome
    case Pending =>
      if end.Deadline? then Waited(Returned(Err(Timeout(ResponseWait))), Unusable(Silent), r.receiver, r.events)
      else Waited(Abandoned, state, r.receiver, r.events)
    case Ready(Err(error)) => Waited(Returned(Err(error)), AfterFailure(f, error), r.receiver, r.events)
    case Ready(Ok(adu)) =>
      match DecodeResponseAdu(f, adu)
      case Err(error) => Waited(Returned(Err(error)), AfterFailure(f, error), r.receiver, r.events)
      case Ok((header, response)) =>
        if header != sent then
          HandOutShrinks(f, Response, s.buffer, events);
          AwaitResponse(f, sent, expected, state, r.receiver, r.events, end)
        else Waited(Accepted(response, expected), Answered, r.receiver, r.events)
  }

  /** The peer answered; what it said may still be for another function. */
  function Accepted(response: Pdu.ResponsePdu, expected: Codes.FunctionCode): CallResult {
    Returned(if response.Function() == expected then Ok(Some(response)) else Err(UnexpectedFunction))
  }

  datatype Outcome = Outcome(result: CallResult, client: Client)

  /** `Client::call`. */
  function Call(c: Client, unit: Byte, request: Pdu.RequestPdu, w: World): Outcome {
    if c.state.Unusable? then Outcome(Returned(Err(Desynchronized)), c)
    else
      match Pdu.EncodeRequest(request)
      case Err(error) => Outcome(Returned(Err(error)), c)
      case Ok(_) =>
        var header := RequestHeader(c.framing, unit, c.next);
        match EncodeAdu(c.framing, header, RequestMessage(request))
        case Err(error) => Outcome(Returned(Err(error)), c.(state := Unusable(Classify(error))))
        case Ok(adu) => Transmit(c, header, request, adu, w)
  }

  /** From the write on. */
  function Transmit(c: Client, header: Header, request: Pdu.RequestPdu, adu: Bytes, w: World): Outcome {
    var d := c.(attempts := c.attempts + [Attempt(header, adu, w.sending.Written?)]);
    match w.sending
    case WriteFailed(kind) => Outcome(Returned(Err(Io(kind))), d.(state := Unusable(Classify(Io(kind)))))
    case WriteDropped => Outcome(Abandoned, d)
    case Written =>
      var e := d.(next := Next(c.next));
      if IsBroadcast(c.framing, header.unit) then Outcome(Returned(Ok(None)), e)
      else
        var r := AwaitResponse(c.framing, header, request.Function(), c.state, c.receiver, w.events, w.end);
        Outcome(r.result, e.(state := r.state, receiver := r.receiver))
  }

  // ---- One call ----

  /** What encodes as a PDU encodes in every framing, so only the stream can fail a send. */
  lemma {:induction false} EncodesInEveryFraming(f: Framing, header: Header, request: Pdu.RequestPdu)
    requires HeaderOf(f, header) && Pdu.EncodeRequest(request).Ok?
    ensures EncodeAdu(f, header, RequestMessage(request)).Ok?
  {
    hide Pdu.EncodeRequest;
    AduWritten(f, header, RequestMessage(request));
  }

  /** A receive that completes takes the latch back; one that does not leaves it set. */
  lemma {:induction false} LatchAfter(f: Framing, s: Receiver, events: seq<Event>)
    requires !s.receiving
    ensures RecvAdu(f, Response, s, events).receiver.receiving <==> RecvAdu(f, Response, s, events).outcome.Pending?
  {
    hide ReadAdu;
  }

  /** A wait entered with the latch free ends with it set only by running out of time or being dropped. */
  lemma {:induction false} AwaitLatch(
    f: Framing, sent: Header, expected: Codes.FunctionCode, state: ClientState, s: Receiver, events: seq<Event>, end: End)
    requires !s.receiving
    ensures var r := AwaitResponse(f, sent, expected, state, s, events, end);
            r.receiver.receiving ==> (if end.Deadline? then r.state == Unusable(Silent) else r.result.Abandoned?)
    decreases |s.buffer| + |Payload(events)|
  {
    hide RecvAdu;
    hide DecodeResponseAdu;
    LatchAfter(f, s, events);
    var r := RecvAdu(f, Response, s, events);
    if r.outcome.Ready? && r.outcome.result.Ok? {
      ReceiveShrinks(f, s, events);
      var d := DecodeResponseAdu(f, r.outcome.result.value);
      if d.Ok? && d.value.0 != sent {
        AwaitLatch(f, sent, expected, state, r.receiver, r.events, end);
      }
    }
  }

  lemma {:induction false} ReceiveShrinks(f: Framing, s: Receiver, events: seq<Event>)
    ensures var r := RecvAdu(f, Response, s, events);
            r.outcome.Ready? && r.outcome.result.Ok?
            ==> |r.receiver.buffer| + |Payload(r.events)| < |s.buffer| + |Payload(events)|
  {
    hide ReadAdu;
    HandOutShrinks(f, Response, s.buffer, events);
  }

  /** A frame that decodes, under another header than the one sent. */
  ghost predicate AnswersOther(f: Framing, sent: Header, piece: Piece) {
    && Skippable(f, piece.garbage) && OneAdu(f, Response, piece.frame)
    && DecodeResponseAdu(f, piece.frame).Ok? && DecodeResponseAdu(f, piece.frame).value.0 != sent
  }

  /**
   * On this stream the first frame under the header sent, behind frames that answer other headers, is this ADU; it
   * decodes to this response, and `left` follows it.
   */
  ghost predicate FirstAnswer(
    f: Framing, sent: Header, response: Pdu.ResponsePdu, stream: Bytes, left: Bytes, others: seq<Piece>, answer: Piece)
  {
    && stream == Joined(others) + (answer.garbage + (answer.frame + left))
    && (forall i :: 0 <= i < |others| ==> AnswersOther(f, sent, others[i]))
    && Skippable(f, answer.garbage) && OneAdu(f, Response, answer.frame)
    && DecodeResponseAdu(f, answer.frame) == Ok((sent, response))
  }

  lemma {:induction false} AnswerNow(
    f: Framing, sent: Header, response: Pdu.ResponsePdu, stream: Bytes, left: Bytes, answer: Piece)
    requires stream == answer.garbage + (answer.frame + left)
    requires Skippable(f, answer.garbage) && OneAdu(f, Response, answer.frame)
    requires DecodeResponseAdu(f, answer.frame) == Ok((sent, response))
    ensures FirstAnswer(f, sent, response, stream, left, [], answer)
  {
    Nothing(stream);
  }

  lemma {:induction false} AnswerLater(
    f: Framing, sent: Header, response: Pdu.ResponsePdu, stream: Bytes, later: Bytes, left: Bytes, other: Piece,
    others: seq<Piece>, answer: Piece)
    requires stream == other.garbage + (other.frame + later) && AnswersOther(f, sent, other)
    requires FirstAnswer(f, sent, response, later, left, others, answer)
    ensures FirstAnswer(f, sent, response, stream, left, [other] + others, answer)
  {
    hide AnswersOther;
    assert ([other] + others)[1..] == others;
    var tail := answer.garbage + (answer.frame + left);
    Assoc(other.frame, Joined(others), tail);
    Assoc(other.garbage, other.frame + Joined(others), tail);
  }

  /**
   * An answer is decoded from the stream of this very call: from the first of its frames that bears the header sent,
   * every frame before it answering another; and what follows it is what the transport still holds.
   */
  lemma {:induction false} AwaitSound(
    f: Framing, sent: Header, expected: Codes.FunctionCode, state: ClientState, s: Receiver, events: seq<Event>, end: End,
    response: Pdu.ResponsePdu)
    requires AwaitResponse(f, sent, expected, state, s, events, end).result == Returned(Ok(Some(response)))
    ensures AwaitResponse(f, sent, expected, state, s, events, end).state == Answered
    ensures response.Function() == expected
    ensures var w := AwaitResponse(f, sent, expected, state, s, events, end);
            exists others, answer ::
              FirstAnswer(f, sent, response, s.buffer + Payload(events), w.receiver.buffer + Payload(w.events), others, answer)
    decreases |s.buffer| + |Payload(events)|
  {
    hide RecvAdu;
    hide DecodeResponseAdu;
    hide OneAdu;
    hide FirstAnswer;
    hide Skippable;
    hide Payload;
    hide Discarded;
    ReceiveShrinks(f, s, events);
    ReceivedPiece(f, s, events);
    var r, w := RecvAdu(f, Response, s, events), AwaitResponse(f, sent, expected, state, s, events, end);
    var stream, later := s.buffer + Payload(events), r.receiver.buffer + Payload(r.events);
    var piece := Piece(Discarded(f, Response, s.buffer, events), r.outcome.result.value);
    var left := w.receiver.buffer + Payload(w.events);
    if DecodeResponseAdu(f, piece.frame).value.0 != sent {
      AwaitSound(f, sent, expected, state, r.receiver, r.events, end, response);
      var others, answer :| FirstAnswer(f, sent, response, later, left, others, answer);
      AnswerLater(f, sent, response, stream, later, left, piece, others, answer);
    } else {
      AnswerNow(f, sent, response, stream, left, piece);
    }
  }

  /** A receive that yields an ADU took it off the front of the stream, behind what it discards. */
  lemma {:induction false} ReceivedPiece(f: Framing, s: Receiver, events: seq<Event>)
    ensures var r, dropped := RecvAdu(f, Response, s, events), Discarded(f, Response, s.buffer, events);
            r.outcome.Ready? && r.outcome.result.Ok?
            ==> && Skippable(f, dropped) && OneAdu(f, Response, r.outcome.result.value)
                && s.buffer + Payload(events)
                   == dropped + (r.outcome.result.value + (r.receiver.buffer + Payload(r.events)))
  {
    hide ReadAdu;
    hide Discarded;
    hide OneAdu;
    hide Skippable;
    hide Payload;
    var r := ReadAdu(f, Response, s.buffer, events);
    if r.outcome.Ready? && r.outcome.result.Ok? {
      HandedOutIsAdu(f, Response, s.buffer, events);
      Conserved(f, Response, s.buffer, events);
    }
  }

  /** Conversely, such a frame is accepted, however the stream is split into reads, on every framing silence does not end. */
  lemma {:induction false} AwaitComplete(
    f: Framing, sent: Header, expected: Codes.FunctionCode, state: ClientState, s: Receiver, events: seq<Event>, end: End,
    response: Pdu.ResponsePdu, left: Bytes, others: seq<Piece>, answer: Piece)
    requires !f.Rtu? && !s.receiving && Steady(f, events)
    requires FirstAnswer(f, sent, response, s.buffer + Payload(events), left, others, answer)
    requires |answer.frame| <= MaxAdu(f) && forall i :: 0 <= i < |others| ==> |others[i].frame| <= MaxAdu(f)
    ensures var w := AwaitResponse(f, sent, expected, state, s, events, end);
            && w.result == Returned(if response.Function() == expected then Ok(Some(response)) else Err(UnexpectedFunction))
            && w.state == Answered
            && w.receiver.buffer + Payload(w.events) == left
    decreases |others|
  {
    hide ReadAdu;
    hide DecodeResponseAdu;
    hide OneAdu;
    hide Skippable;
    hide Steady;
    hide Payload;
    var tail := answer.garbage + (answer.frame + left);
    var r := RecvAdu(f, Response, s, events);
    if others == [] {
      Nothing(tail);
      ReceiveOne(f, Response, s.buffer, events, answer.garbage, answer.frame, left);
    } else {
      var other, later := others[0], Joined(others[1..]) + tail;
      assert AnswersOther(f, sent, other);
      Assoc(other.garbage, other.frame + Joined(others[1..]), tail);
      Assoc(other.frame, Joined(others[1..]), tail);
      ReceiveOne(f, Response, s.buffer, events, other.garbage, other.frame, later);
      AwaitComplete(f, sent, expected, state, r.receiver, r.events, end, response, left, others[1..], answer);
    }
  }

  /**
   * A failed wait leaves the client unusable exactly when the failure ends the stream or the framing cannot find the
   * next boundary on the wire; the reason is read off the failure.
   */
  lemma {:induction false} AwaitFailure(
    f: Framing, sent: Header, expected: Codes.FunctionCode, state: ClientState, s: Receiver, events: seq<Event>, end: End)
    ensures var r := AwaitResponse(f, sent, expected, state, s, events, end);
            r.result.Returned? && r.result.result.Err? && r.state != Answered
            ==> && r.state == AfterFailure(f, r.result.result.error)
                && (r.state.Unusable?
                    <==> r.result.result.error.EndsStream() || !BoundaryOf(f).SelfLocating())
    decreases |s.buffer| + |Payload(events)|
  {
    hide RecvAdu;
    hide DecodeResponseAdu;
    var r := RecvAdu(f, Response, s, events);
    if r.outcome.Ready? && r.outcome.result.Ok? {
      ReceiveShrinks(f, s, events);
      var d := DecodeResponseAdu(f, r.outcome.result.value);
      if d.Ok? && d.value.0 != sent {
        AwaitFailure(f, sent, expected, state, r.receiver, r.events, end);
      }
    }
  }

  /** After an abandoned receive the next call that waits is refused, whatever the stream brings, and ends the client. */
  lemma {:induction false} AbandonedThenRefused(c: Client, unit: Byte, request: Pdu.RequestPdu, w: World)
    requires c.receiver.receiving && !c.state.Unusable? && w.sending.Written?
    requires Pdu.EncodeRequest(request).Ok? && !IsBroadcast(c.framing, unit)
    ensures var r := Call(c, unit, request, w);
            r.result == Returned(Err(Timeout(AbandonedReceive))) && r.client.state == Unusable(Silent)
  {
    hide Pdu.EncodeRequest;
    hide EncodeAdu;
    hide ReadAdu;
    EncodesInEveryFraming(c.framing, RequestHeader(c.framing, unit, c.next), request);
  }

  // ---- Runs ----

  datatype Request = Request(unit: Byte, pdu: Pdu.RequestPdu, world: World)

  function After(c: Client, calls: seq<Request>): Client
    decreases |calls|
  {
    if calls == [] then c else After(Call(c, calls[0].unit, calls[0].pdu, calls[0].world).client, calls[1..])
  }

  /** Once unusable, always so for the same reason, with nothing written and nothing read: every call is refused. */
  lemma {:induction false} UnusableForever(c: Client, calls: seq<Request>)
    requires c.state.Unusable?
    ensures After(c, calls) == c
    decreases |calls|
  {
    if calls == [] {
    } else {
      UnusableForever(c, calls[1..]);
    }
  }

  /** A latched receive means the client is unusable, so its refusal never reaches a caller. */
  ghost predicate LatchedIsUnusable(c: Client) {
    c.receiver.receiving ==> c.state.Unusable?
  }

  lemma {:induction false} CallKeepsLatch(c: Client, unit: Byte, request: Pdu.RequestPdu, w: World)
    requires LatchedIsUnusable(c) && w.Kept()
    ensures LatchedIsUnusable(Call(c, unit, request, w).client)
    ensures Call(c, unit, request, w).result.Returned?
    ensures Call(c, unit, request, w).result != Returned(Err(Timeout(AbandonedReceive)))
  {
    hide Pdu.EncodeRequest;
    hide EncodeAdu;
    hide AwaitResponse;
    if !c.state.Unusable? {
      RequestEncodeErrors(request);
      var header := RequestHeader(c.framing, unit, c.next);
      if Pdu.EncodeRequest(request).Ok? {
        EncodesInEveryFraming(c.framing, header, request);
      }
      AwaitNeverRefused(c.framing, header, request.Function(), c.state, c.receiver, w.events, w.end);
      AwaitLatch(c.framing, header, request.Function(), c.state, c.receiver, w.events, w.end);
      AwaitReturns(c.framing, header, request.Function(), c.state, c.receiver, w.events);
    }
  }

  lemma {:induction false} ResponseErrorKind(f: Framing, adu: Bytes)
    ensures DecodeResponseAdu(f, adu).Err? ==> !DecodeResponseAdu(f, adu).error.EndsStream()
  {
    hide Split;
    hide Pdu.DecodeResponse;
    SplitErrors(f, adu);
    if Split(f, adu).Ok? {
      ResponseErrors(Split(f, adu).value.1);
    }
  }

  /** A wait entered with the latch free never ends in the refusal of a latched receive. */
  lemma {:induction false} AwaitNeverRefused(
    f: Framing, sent: Header, expected: Codes.FunctionCode, state: ClientState, s: Receiver, events: seq<Event>, end: End)
    requires !s.receiving
    ensures AwaitResponse(f, sent, expected, state, s, events, end).result != Returned(Err(Timeout(AbandonedReceive)))
    decreases |s.buffer| + |Payload(events)|
  {
    hide ReadAdu;
    hide DecodeResponseAdu;
    StreamFailure(f, Response, s.buffer, events);
    ReceiveShrinks(f, s, events);
    var r := RecvAdu(f, Response, s, events);
    if r.outcome.Ready? && r.outcome.result.Ok? {
      ResponseErrorKind(f, r.outcome.result.value);
      var d := DecodeResponseAdu(f, r.outcome.result.value);
      if d.Ok? && d.value.0 != sent {
        AwaitNeverRefused(f, sent, expected, state, r.receiver, r.events, end);
      }
    }
  }

  /** With a deadline every wait returns. */
  lemma {:induction false} AwaitReturns(
    f: Framing, sent: Header, expected: Codes.FunctionCode, state: ClientState, s: Receiver, events: seq<Event>)
    ensures AwaitResponse(f, sent, expected, state, s, events, Deadline).result.Returned?
    decreases |s.buffer| + |Payload(events)|
  {
    hide RecvAdu;
    hide DecodeResponseAdu;
    var r := RecvAdu(f, Response, s, events);
    if r.outcome.Ready? && r.outcome.result.Ok? {
      ReceiveShrinks(f, s, events);
      var d := DecodeResponseAdu(f, r.outcome.result.value);
      if d.Ok? && d.value.0 != sent {
        AwaitReturns(f, sent, expected, state, r.receiver, r.events);
      }
    }
  }

  /**
   * Over every run in which no caller drops a call: a latched receive means the client is unusable, and no call returns
   * the refusal of one.
   */
  lemma {:induction false} LatchNeverSurfaces(f: Framing, calls: seq<Request>, n: nat)
    requires n < |calls| && forall i :: 0 <= i < |calls| ==> calls[i].world.Kept()
    ensures var c := After(NewClient(f), calls[..n]);
            && LatchedIsUnusable(c)
            && Call(c, calls[n].unit, calls[n].pdu, calls[n].world).result != Returned(Err(Timeout(AbandonedReceive)))
    decreases n
  {
    hide Call;
    var c := After(NewClient(f), calls[..n]);
    if n == 0 {
      assert calls[..0] == [];
    } else {
      LatchNeverSurfaces(f, calls, n - 1);
      AfterLast(NewClient(f), calls[..n]);
      assert calls[..n][..n - 1] == calls[..n - 1];
      var d := After(NewClient(f), calls[..n - 1]);
      CallKeepsLatch(d, calls[n - 1].unit, calls[n - 1].pdu, calls[n - 1].world);
    }
    CallKeepsLatch(c, calls[n].unit, calls[n].pdu, calls[n].world);
  }

  lemma {:induction false} AfterLast(c: Client, calls: seq<Request>)
    requires calls != []
    ensures var last, n := calls[|calls| - 1], |calls| - 1;
            After(c, calls) == Call(After(c, calls[..n]), last.unit, last.pdu, last.world).client
    decreases |calls|
  {
    hide Call;
    if |calls| > 1 {
      var d := Call(c, calls[0].unit, calls[0].pdu, calls[0].world).client;
      AfterLast(d, calls[1..]);
      assert calls[..|calls| - 1][1..] == calls[1..][..|calls| - 2];
    } else {
      assert calls[1..] == [] && calls[..0] == [];
    }
  }

  // ---- Identifiers ----

  /** How many of the first `k` writes were completed. */
  function Completed(attempts: seq<Attempt>, k: nat): nat
    requires k <= |attempts|
  {
    if k == 0 then 0 else Completed(attempts, k - 1) + (if attempts[k - 1].completed then 1 else 0)
  }

  lemma {:induction false} CompletedPrefix(attempts: seq<Attempt>, more: seq<Attempt>, k: nat)
    requires k <= |attempts|
    ensures Completed(attempts + more, k) == Completed(attempts, k)
  {
    if k == 0 {
    } else {
      CompletedPrefix(attempts, more, k - 1);
    }
  }

  /** Completions only add up; their number stands still exactly where no write is completed. */
  lemma {:induction false} CompletedGrows(attempts: seq<Attempt>, k: nat, l: nat)
    requires k <= l <= |attempts|
    ensures Completed(attempts, k) <= Completed(attempts, l)
    ensures Completed(attempts, k) == Completed(attempts, l) <==> forall i :: k <= i < l ==> !attempts[i].completed
    decreases l
  {
    if k == l {
    } else {
      CompletedGrows(attempts, k, l - 1);
    }
  }

  /** The counter stands at the identifier after the completed writes, and each write began under the one due then. */
  ghost predicate Numbered(c: Client) {
    && c.next == IdOf(Completed(c.attempts, |c.attempts|))
    && (c.framing.Tcp? ==> forall k :: 0 <= k < |c.attempts| ==>
          c.attempts[k].header.Mbap? && c.attempts[k].header.transaction == IdOf(Completed(c.attempts, k)))
  }

  /**
   * A call begins a write exactly when the client is usable and the request encodes; the bytes are the request's ADU,
   * over TCP under the identifier due, and the call spends that identifier exactly by completing the write.
   */
  lemma {:induction false} CallAttempts(c: Client, unit: Byte, request: Pdu.RequestPdu, w: World)
    ensures var d := Call(c, unit, request, w).client;
            var header := if c.framing.Tcp? then Mbap(c.next, unit) else Address(unit);
            var encoding, completed := EncodeAdu(c.framing, header, RequestMessage(request)), w.sending.Written?;
            && d.framing == c.framing
            && if c.state.Unusable? || encoding.Err? then d.attempts == c.attempts && d.next == c.next
               else && d.attempts == c.attempts + [Attempt(header, encoding.value, completed)]
                    && d.next == if completed then Next(c.next) else c.next
  {
    hide Pdu.EncodeRequest;
    hide AwaitResponse;
    hide Wrap;
  }

  lemma {:induction false} AttemptNumbered(c: Client, d: Client, a: Attempt)
    requires Numbered(c) && d.framing == c.framing && d.attempts == c.attempts + [a]
    requires c.framing.Tcp? ==> a.header.Mbap? && a.header.transaction == c.next
    requires d.next == if a.completed then Next(c.next) else c.next
    ensures Numbered(d)
  {
    hide IdOf;
    hide Next;
    var n := |c.attempts|;
    NextId(Completed(c.attempts, n));
    forall k | 0 <= k <= n
      ensures Completed(d.attempts, k) == Completed(c.attempts, k)
    {
      CompletedPrefix(c.attempts, [a], k);
    }
  }

  lemma {:induction false} CallNumbered(c: Client, unit: Byte, request: Pdu.RequestPdu, w: World)
    requires Numbered(c)
    ensures Numbered(Call(c, unit, request, w).client)
  {
    hide *;
    CallAttempts(c, unit, request, w);
    var d := Call(c, unit, request, w).client;
    if d.attempts == c.attempts {
      SameNumbered(c, d);
    } else {
      AttemptNumbered(c, d, d.attempts[|c.attempts|]);
    }
  }

  lemma {:induction false} SameNumbered(c: Client, d: Client)
    requires Numbered(c) && d.framing == c.framing && d.attempts == c.attempts && d.next == c.next
    ensures Numbered(d)
  {
  }

  lemma {:induction false} RunNumbered(c: Client, calls: seq<Request>)
    requires Numbered(c)
    ensures Numbered(After(c, calls)) && After(c, calls).framing == c.framing
    decreases |calls|
  {
    if calls == [] {
    } else {
      var d := Call(c, calls[0].unit, calls[0].pdu, calls[0].world).client;
      CallNumbered(c, calls[0].unit, calls[0].pdu, calls[0].world);
      CallAttempts(c, calls[0].unit, calls[0].pdu, calls[0].world);
      hide Call;
      hide Numbered;
      RunNumbered(d, calls[1..]);
    }
  }

  lemma {:induction false} NewNumbered(f: Framing)
    ensures Numbered(NewClient(f))
  {
  }

  /** No write from the k-th on was completed. */
  predicate NoneCompleted(attempts: seq<Attempt>, k: nat) {
    forall i :: k <= i < |attempts| ==> !attempts[i].completed
  }

  /**
   * Over TCP, in every run: the header due for the next request is that of an earlier attempt, begun fewer than 65535
   * completed writes ago, if and only if that attempt was for the same unit and neither it nor any after it was completed.
   */
  lemma {:induction false} HeaderSharedIff(c: Client, unit: Byte, k: nat)
    requires Numbered(c) && c.framing.Tcp? && k < |c.attempts|
    requires Completed(c.attempts, |c.attempts|) - Completed(c.attempts, k) < CYCLE
    ensures c.attempts[k].header == RequestHeader(c.framing, unit, c.next)
            <==> c.attempts[k].header.unit == unit && NoneCompleted(c.attempts, k)
  {
    hide IdOf;
    var before, all := Completed(c.attempts, k), Completed(c.attempts, |c.attempts|);
    CompletedGrows(c.attempts, k, |c.attempts|);
    if before < all {
      WindowDistinct(before, all);
    }
  }

  /** All attempts bear different identifiers. */
  ghost predicate Distinct(attempts: seq<Attempt>) {
    forall k, l :: 0 <= k < l < |attempts| && attempts[k].header.Mbap? && attempts[l].header.Mbap? ==>
      attempts[k].header.transaction != attempts[l].header.transaction
  }

  predicate CompletedButLast(attempts: seq<Attempt>) {
    forall k :: 0 <= k < |attempts| - 1 ==> attempts[k].completed
  }

  lemma {:induction false} CompletedDiffer(c: Client, k: nat, l: nat)
    requires Numbered(c) && c.framing.Tcp? && k < l < |c.attempts|
    requires Completed(c.attempts, |c.attempts|) < CYCLE
    ensures c.attempts[k].header.transaction == c.attempts[l].header.transaction
            <==> forall i :: k <= i < l ==> !c.attempts[i].completed
  {
    hide IdOf;
    CompletedGrows(c.attempts, k, l);
    CompletedGrows(c.attempts, l, |c.attempts|);
    if Completed(c.attempts, k) != Completed(c.attempts, l) {
      WindowDistinct(Completed(c.attempts, k), Completed(c.attempts, l));
    }
  }

  /**
   * Over a run of calls over TCP that completes fewer than 65535 writes, all attempts bear different identifiers if and
   * only if every write but the last was completed.
   */
  lemma {:induction false} IdentifiersDistinctIff(calls: seq<Request>)
    requires var c := After(NewClient(Tcp), calls); Completed(c.attempts, |c.attempts|) < CYCLE
    ensures var c := After(NewClient(Tcp), calls); Distinct(c.attempts) <==> CompletedButLast(c.attempts)
  {
    hide Call;
    hide Completed;
    hide IdOf;
    NewNumbered(Tcp);
    RunNumbered(NewClient(Tcp), calls);
    var c := After(NewClient(Tcp), calls);
    var a := c.attempts;
    if CompletedButLast(a) {
      forall k, l | 0 <= k < l < |a|
        ensures a[k].header.transaction != a[l].header.transaction
      {
        CompletedDiffer(c, k, l);
        assert a[k].completed;
      }
    } else {
      var k :| 0 <= k < |a| - 1 && !a[k].completed;
      CompletedDiffer(c, k, k + 1);
    }
  }

  /**
   * Over every run of calls over TCP: what a call returns was decoded from its own stream under its own header, and that
   * header is the one of an earlier attempt, fewer than 65535 completed writes back, if and only if the attempt was for
   * the same unit and it and all after it were left uncompleted. So where no write is dropped, a frame that answers an
   * earlier request is never accepted.
   */
  lemma {:induction false} NoCrossAnswer(
    calls: seq<Request>, unit: Byte, request: Pdu.RequestPdu, w: World, response: Pdu.ResponsePdu, k: nat)
    requires var c := After(NewClient(Tcp), calls);
             && Call(c, unit, request, w).result == Returned(Ok(Some(response)))
             && k < |c.attempts| && Completed(c.attempts, |c.attempts|) - Completed(c.attempts, k) < CYCLE
    ensures var c := After(NewClient(Tcp), calls);
            var header := RequestHeader(Tcp, unit, c.next);
            && (c.attempts[k].header == header <==> c.attempts[k].header.unit == unit && NoneCompleted(c.attempts, k))
            && exists left, others, answer ::
                 FirstAnswer(Tcp, header, response, c.receiver.buffer + Payload(w.events), left, others, answer)
  {
    var c := After(NewClient(Tcp), calls);
    RunNumbered(NewClient(Tcp), calls);
    HeaderSharedIff(c, unit, k);
    CallSound(c, unit, request, w, response);
  }

  lemma {:induction false} CallSound(
    c: Client, unit: Byte, request: Pdu.RequestPdu, w: World, response: Pdu.ResponsePdu)
    requires Call(c, unit, request, w).result == Returned(Ok(Some(response)))
    ensures response.Function() == request.Function()
    ensures exists left, others, answer ::
              FirstAnswer(c.framing, RequestHeader(c.framing, unit, c.next), response,
                          c.receiver.buffer + Payload(w.events), left, others, answer)
  {
    hide Pdu.EncodeRequest;
    hide EncodeAdu;
    hide AwaitResponse;
    hide FirstAnswer;
    var header := RequestHeader(c.framing, unit, c.next);
    AwaitSound(c.framing, header, request.Function(), c.state, c.receiver, w.events, w.end, response);
    var r := AwaitResponse(c.framing, header, request.Function(), c.state, c.receiver, w.events, w.end);
    var left := r.receiver.buffer + Payload(r.events);
    var others, answer :|
      FirstAnswer(c.framing, header, response, c.receiver.buffer + Payload(w.events), left, others, answer);
  }

  /**
   * A dropped write, then a completed one: both went out under one header, so the answer to the first request is
   * returned for the second, whenever it is for the same function.
   */
  lemma {:induction false} DroppedWriteCrossAnswers(
    c: Client, unit: Byte, first: Pdu.RequestPdu, second: Pdu.RequestPdu, w: World, response: Pdu.ResponsePdu)
    requires c.framing.Tcp? && !c.state.Unusable? && c.receiver == Receiver([], false)
    requires Pdu.EncodeRequest(first).Ok? && Pdu.EncodeRequest(second).Ok?
    requires EncodeMessage(ResponseMessage(response)).Ok? && response.Canonical() && response.Function() == second.Function()
    requires w.sending.Written? && Steady(Tcp, w.events)
    requires Ok(Payload(w.events)) == EncodeAdu(Tcp, RequestHeader(Tcp, unit, c.next), ResponseMessage(response))
    ensures var dropped := Call(c, unit, first, World(WriteDropped, [], Deadline));
            var late := Call(dropped.client, unit, second, w);
            && dropped.result == Abandoned && late.result == Returned(Ok(Some(response)))
            && var n := |c.attempts|;
            && |late.client.attempts| == n + 2
            && late.client.attempts[n].header == late.client.attempts[n + 1].header
  {
    hide Pdu.EncodeRequest;
    hide EncodeAdu;
    hide EncodeMessage;
    var header := RequestHeader(Tcp, unit, c.next);
    EncodesInEveryFraming(Tcp, header, first);
    EncodesInEveryFraming(Tcp, header, second);
    LateAnswerAccepted(header, second.Function(), c.state, w, response);
    hide AwaitResponse;
  }

  lemma {:induction false} LateAnswerAccepted(
    header: Header, expected: Codes.FunctionCode, state: ClientState, w: World, response: Pdu.ResponsePdu)
    requires header.Mbap? && Steady(Tcp, w.events) && response.Function() == expected
    requires EncodeMessage(ResponseMessage(response)).Ok? && response.Canonical()
    requires Ok(Payload(w.events)) == EncodeAdu(Tcp, header, ResponseMessage(response))
    ensures AwaitResponse(Tcp, header, expected, state, Receiver([], false), w.events, w.end).result
            == Returned(Ok(Some(response)))
  {
    hide EncodeMessage;
    hide AwaitResponse;
    var adu := Payload(w.events);
    EncodedFramed(Tcp, header, ResponseMessage(response));
    DecodedResponse(Tcp, header, response);
    hide EncodeAdu;
    hide DecodeResponseAdu;
    Nothing(adu);
    AnswerNow(Tcp, header, response, adu, [], Piece([], adu));
    AwaitComplete(Tcp, header, expected, state, Receiver([], false), w.events, w.end, response, [], [], Piece([], adu));
  }

  lemma {:induction false} DecodedResponse(f: Framing, header: Header, response: Pdu.ResponsePdu)
    requires HeaderOf(f, header) && EncodeMessage(ResponseMessage(response)).Ok? && response.Canonical()
    ensures DecodeResponseAdu(f, EncodeAdu(f, header, ResponseMessage(response)).value) == Ok((header, response))
  {
    hide EncodeMessage;
    hide EncodeAdu;
    hide Split;
    hide Pdu.DecodeResponse;
    AduWritten(f, header, ResponseMessage(response));
  }
}
