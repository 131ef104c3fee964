/** What a call writes, returns and leaves of the client: every outcome spelled out, down to the events of the stream. */
module ClientAnswers {
  import opened Basics
  import opened Messages
  import opened Framings
  import opened Stream
  import opened Delivery
  import opened Sessions
  import opened StreamEnds
  import opened Clients
  import Codes
  import Pdu

  // ---- One call ----

  /** The header a request goes out under: over TCP the identifier due and the unit, elsewhere the unit alone. */
  function HeaderDue(c: Client, unit: Byte): (h: Header)
    ensures HeaderOf(c.framing, h)
  {
    if c.framing.Tcp? then Mbap(c.next, unit) else Address(unit)
  }

  /** The identifier after this one: 65535 is followed by 1. */
  function Following(id: Word): Word {
    if id < 65535 then id + 1 else 1
  }

  /** What a call does once the client is usable and the request is encoded as this ADU. */
  ghost predicate Carried(c: Client, unit: Byte, request: Pdu.RequestPdu, adu: Bytes, w: World, r: Outcome) {
    var header := HeaderDue(c, unit);
    match w.sending
    case WriteDropped => r == Outcome(Abandoned, c.(attempts := c.attempts + [Attempt(header, adu, false)]))
    case WriteFailed(kind) =>
      r == Outcome(Returned(Err(Io(kind))),
                   c.(attempts := c.attempts + [Attempt(header, adu, false)],
                      state := Unusable(if kind == UnexpectedEof then PeerClosed else IoFailure(kind))))
    case Written =>
      var d := c.(attempts := c.attempts + [Attempt(header, adu, true)], next := Following(c.next));
      if !c.framing.Tcp? && unit == 0 then r == Outcome(Returned(Ok(None)), d)
      else
        var a := AwaitResponse(c.framing, header, request.Function(), c.state, c.receiver, w.events, w.end);
        r == Outcome(a.result, d.(state := a.state, receiver := a.receiver))
  }

  /**
   * A call on an unusable client is refused and changes nothing; so is, on a usable one, a request that does not
   * encode, with the failure; any other is written as its ADU under the header due, and a broadcast awaits no answer.
   */
  lemma {:induction false} CallSpelled(c: Client, unit: Byte, request: Pdu.RequestPdu, w: World)
    ensures var r := Call(c, unit, request, w);
            if c.state.Unusable? then r == Outcome(Returned(Err(Desynchronized)), c)
            else match EncodeAdu(c.framing, HeaderDue(c, unit), RequestMessage(request))
                 case Err(error) => r == Outcome(Returned(Err(error)), c)
                 case Ok(adu) => Carried(c, unit, request, adu, w, r)
  {
    hide Pdu.EncodeRequest;
    hide AwaitResponse;
    hide Wrap;
  }

  /** Every write begun in a run of calls goes out as the ADU of its own call's request, under the header due then. */
  lemma {:induction false} RunWrites(c: Client, calls: seq<Request>, n: nat)
    requires n < |calls|
    ensures var before, after := Clients.After(c, calls[..n]), Clients.After(c, calls[..n + 1]);
            && before.framing == after.framing == c.framing && before.attempts <= after.attempts
            && (before.attempts == after.attempts
                <==> before.state.Unusable?
                     || EncodeAdu(c.framing, HeaderDue(before, calls[n].unit), RequestMessage(calls[n].pdu)).Err?)
            && (before.attempts != after.attempts
                ==> && |after.attempts| == |before.attempts| + 1
                    && var a := after.attempts[|before.attempts|];
                    && a.header == HeaderDue(before, calls[n].unit)
                    && EncodeAdu(c.framing, a.header, RequestMessage(calls[n].pdu)) == Ok(a.adu)
                    && a.completed == calls[n].world.sending.Written?)
  {
    hide Call;
    hide EncodeAdu;
    var before, call := Clients.After(c, calls[..n]), calls[n];
    AfterLast(c, calls[..n + 1]);
    assert calls[..n + 1][..n] == calls[..n];
    SameFraming(c, calls[..n]);
    CallAttempts(before, call.unit, call.pdu, call.world);
  }

  lemma {:induction false} SameFraming(c: Client, calls: seq<Request>)
    ensures Clients.After(c, calls).framing == c.framing
    decreases |calls|
  {
    if calls == [] {
    } else {
      var d := Call(c, calls[0].unit, calls[0].pdu, calls[0].world).client;
      CallAttempts(c, calls[0].unit, calls[0].pdu, calls[0].world);
      hide Call;
      SameFraming(d, calls[1..]);
    }
  }

  // ---- The receive that ends a wait ----

  /** Whether a receive yields a frame that answers another header, so that the wait goes on. */
  predicate PassedOver(f: Framing, sent: Header, s: Receiver, events: seq<Event>) {
    var r := RecvAdu(f, Response, s, events);
    && r.outcome.Ready? && r.outcome.result.Ok?
    && var d := DecodeResponseAdu(f, r.outcome.result.value); d.Ok? && d.value.0 != sent
  }

  /** Where the receive begins that ends the wait: past every frame that answers another header. */
  function LastReceive(f: Framing, sent: Header, s: Receiver, events: seq<Event>): (Receiver, seq<Event>)
    decreases |s.buffer| + |Payload(events)|
  {
    if PassedOver(f, sent, s, events) then
      var r := RecvAdu(f, Response, s, events);
      ReceiveShrinks(f, s, events);
      LastReceive(f, sent, r.receiver, r.events)
    else (s, events)
  }

  /** The wait is decided by that receive alone. */
  lemma {:induction false} AwaitAtLast(
    f: Framing, sent: Header, expected: Codes.FunctionCode, state: ClientState, s: Receiver, events: seq<Event>, end: End)
    requires !s.receiving
    ensures var (last, rest) := LastReceive(f, sent, s, events);
            && !last.receiving && !PassedOver(f, sent, last, rest)
            && AwaitResponse(f, sent, expected, state, s, events, end)
               == AwaitResponse(f, sent, expected, state, last, rest, end)
    decreases |s.buffer| + |Payload(events)|
  {
    hide RecvAdu;
    hide DecodeResponseAdu;
    if PassedOver(f, sent, s, events) {
      LatchAfter(f, s, events);
      ReceiveShrinks(f, s, events);
      var r := RecvAdu(f, Response, s, events);
      AwaitAtLast(f, sent, expected, state, r.receiver, r.events, end);
    }
  }

  /** The stream is these frames, each answering another header, and then what is left. */
  ghost predicate PassedBy(f: Framing, sent: Header, stream: Bytes, others: seq<Piece>, left: Bytes) {
    stream == Joined(others) + left && forall i :: 0 <= i < |others| ==> AnswersOther(f, sent, others[i])
  }

  /** What is passed over on the way to the last receive. */
  function PassedPieces(f: Framing, sent: Header, s: Receiver, events: seq<Event>): seq<Piece>
    decreases |s.buffer| + |Payload(events)|
  {
    if PassedOver(f, sent, s, events) then
      var r := RecvAdu(f, Response, s, events);
      ReceiveShrinks(f, s, events);
      [Piece(Discarded(f, Response, s.buffer, events), r.outcome.result.value)]
      + PassedPieces(f, sent, r.receiver, r.events)
    else []
  }

  /** It is whole frames that answer other headers, and what follows them is where that receive begins. */
  lemma {:induction false} PassedOverFrames(f: Framing, sent: Header, s: Receiver, events: seq<Event>)
    ensures var (last, rest) := LastReceive(f, sent, s, events);
            PassedBy(f, sent, s.buffer + Payload(events), PassedPieces(f, sent, s, events), last.buffer + Payload(rest))
    decreases |s.buffer| + |Payload(events)|
  {
    hide RecvAdu;
    hide DecodeResponseAdu;
    hide OneAdu;
    hide Skippable;
    hide Payload;
    hide Discarded;
    hide PassedBy;
    var stream := s.buffer + Payload(events);
    if PassedOver(f, sent, s, events) {
      ReceiveShrinks(f, s, events);
      ReceivedPiece(f, s, events);
      var r := RecvAdu(f, Response, s, events);
      var piece := Piece(Discarded(f, Response, s.buffer, events), r.outcome.result.value);
      PassedOverFrames(f, sent, r.receiver, r.events);
      var (last, rest) := LastReceive(f, sent, s, events);
      assert AnswersOther(f, sent, piece);
      OneMorePassed(f, sent, stream, piece, r.receiver.buffer + Payload(r.events),
                    PassedPieces(f, sent, r.receiver, r.events), last.buffer + Payload(rest));
    } else {
      NonePassed(f, sent, stream);
    }
  }

  lemma {:induction false} NonePassed(f: Framing, sent: Header, stream: Bytes)
    ensures PassedBy(f, sent, stream, [], stream)
  {
    Nothing(stream);
  }

  lemma {:induction false} OneMorePassed(
    f: Framing, sent: Header, stream: Bytes, piece: Piece, later: Bytes, others: seq<Piece>, left: Bytes)
    requires stream == piece.garbage + (piece.frame + later) && AnswersOther(f, sent, piece)
    requires PassedBy(f, sent, later, others, left)
    ensures PassedBy(f, sent, stream, [piece] + others, left)
  {
    hide AnswersOther;
    assert ([piece] + others)[1..] == others;
    Assoc(piece.frame, Joined(others), left);
    Assoc(piece.garbage, piece.frame + Joined(others), left);
  }

  /** The frame that receive delimits, or the receive itself, is refused for what its bytes say. */
  predicate Malformed(f: Framing, outcome: Poll<Bytes>) {
    && outcome.Ready?
    && match outcome.result
       case Err(error) => !error.Io? && !error.ConnectionClosed? && !error.Timeout?
       case Ok(adu) => DecodeResponseAdu(f, adu).Err?
  }

  /** What a wait leaves of the client, read off the events its last receive met. */
  ghost predicate LeftBecause(
    f: Framing, state: ClientState, end: End, last: Receiver, rest: seq<Event>, after: ClientState)
  {
    var r := ReadAdu(f, Response, last.buffer, rest);
    var n := |rest| - |r.events|;
    && (after == Unusable(PeerClosed)
        <==> MetIo(f, last.buffer, rest, n, UnexpectedEof) || (!f.Rtu? && MetSevered(f, last.buffer, rest, n)))
    && (forall kind :: after == Unusable(IoFailure(kind))
          <==> kind != UnexpectedEof && MetIo(f, last.buffer, rest, n, kind))
    && (after == Unusable(Silent)
        <==> (r.outcome.Pending? && end.Deadline?) || (f.Ascii? && MetGap(f, last.buffer, rest, n)))
    && (after == Unusable(Undecodable) <==> Malformed(f, r.outcome) && (f.Tcp? || f.RtuOverTcp?))
    && (Malformed(f, r.outcome) && (f.Rtu? || f.Ascii?) ==> after == Unanswered)
    && (r.outcome.Pending? && end.Dropped? ==> after == state)
  }

  /** The reason each failure leaves, and the two framings that go on after a malformed frame. */
  lemma {:induction false} FailureClassified(f: Framing, error: Error)
    ensures var after, malformed := AfterFailure(f, error), !error.Io? && !error.ConnectionClosed? && !error.Timeout?;
            && (after == Unusable(PeerClosed) <==> error == ConnectionClosed || error == Io(UnexpectedEof))
            && (forall kind :: after == Unusable(IoFailure(kind)) <==> error == Io(kind) && kind != UnexpectedEof)
            && (after == Unusable(Silent) <==> error.Timeout?)
            && (after == Unusable(Undecodable) <==> malformed && (f.Tcp? || f.RtuOverTcp?))
            && (after == Unanswered <==> malformed && (f.Rtu? || f.Ascii?))
  {
  }

  /** A receive that fails. */
  lemma {:induction false} ErrorLeaves(
    f: Framing, state: ClientState, end: End, last: Receiver, rest: seq<Event>, error: Error)
    requires ReadAdu(f, Response, last.buffer, rest).outcome == Ready(Err(error))
    ensures LeftBecause(f, state, end, last, rest, AfterFailure(f, error))
  {
    hide ReadAdu;
    hide DecodeResponseAdu;
    hide MetIo;
    hide MetSevered;
    hide MetGap;
    StreamFailure(f, Response, last.buffer, rest);
    FailureClassified(f, error);
    hide AfterFailure;
    assert error.Timeout? ==> error.what == InterCharacterGap by {
      assert error != Timeout(AbandonedReceive) && error != Timeout(ResponseWait);
    }
  }

  /** A receive that does not: no event of the stream failed it. */
  lemma {:induction false} NoErrorLeaves(
    f: Framing, state: ClientState, end: End, last: Receiver, rest: seq<Event>, after: ClientState)
    requires var outcome := ReadAdu(f, Response, last.buffer, rest).outcome;
             if outcome.Pending? then after == if end.Deadline? then Unusable(Silent) else state
             else && outcome.result.Ok?
                  && match DecodeResponseAdu(f, outcome.result.value)
                     case Ok(_) => after == Answered
                     case Err(error) => after == AfterFailure(f, error)
    requires !state.Unusable?
    ensures LeftBecause(f, state, end, last, rest, after)
  {
    hide ReadAdu;
    hide DecodeResponseAdu;
    hide MetIo;
    hide MetSevered;
    hide MetGap;
    StreamFailure(f, Response, last.buffer, rest);
    var outcome := ReadAdu(f, Response, last.buffer, rest).outcome;
    if outcome.Ready? {
      ResponseErrorKind(f, outcome.result.value);
    }
  }

  lemma {:induction false} LastLeaves(
    f: Framing, sent: Header, expected: Codes.FunctionCode, state: ClientState, end: End, last: Receiver, rest: seq<Event>)
    requires !last.receiving && !state.Unusable? && !PassedOver(f, sent, last, rest)
    ensures LeftBecause(f, state, end, last, rest, AwaitResponse(f, sent, expected, state, last, rest, end).state)
  {
    hide ReadAdu;
    hide DecodeResponseAdu;
    hide LeftBecause;
    hide AfterFailure;
    var r, after := ReadAdu(f, Response, last.buffer, rest), AwaitResponse(f, sent, expected, state, last, rest, end).state;
    if r.outcome.Ready? && r.outcome.result.Err? {
      ErrorLeaves(f, state, end, last, rest, r.outcome.result.error);
    } else {
      NoErrorLeaves(f, state, end, last, rest, after);
    }
  }

  /**
   * Why a client is unusable after a wait: the peer closed, on an end of file or a close inside a frame; an I/O failure,
   * on a failed read of that kind; silence, when time ran out or an ASCII frame broke off; undecodable, on a frame
   * refused where no boundary can be found behind it, and nowhere else.
   */
  lemma {:induction false} AwaitLeaves(
    f: Framing, sent: Header, expected: Codes.FunctionCode, state: ClientState, s: Receiver, events: seq<Event>, end: End)
    requires !s.receiving && !state.Unusable?
    ensures var (last, rest) := LastReceive(f, sent, s, events);
            LeftBecause(f, state, end, last, rest, AwaitResponse(f, sent, expected, state, s, events, end).state)
  {
    hide LeftBecause;
    hide AwaitResponse;
    hide LastReceive;
    AwaitAtLast(f, sent, expected, state, s, events, end);
    var (last, rest) := LastReceive(f, sent, s, events);
    LastLeaves(f, sent, expected, state, end, last, rest);
  }

  // ---- An exchange with a peer that answers ----

  /** What a caller gets for this response to its request. */
  function Given(request: Pdu.RequestPdu, response: Pdu.ResponsePdu): CallResult {
    Returned(if response.Function() == request.Function() then Ok(Some(response)) else Err(UnexpectedFunction))
  }

  /**
   * A response that comes back under the request's own header is what the call returns, however the stream is split
   * into reads and whatever frames for others come before it; one for another function is an error, but an answer.
   */
  lemma {:induction false} CallAnswered(
    c: Client, unit: Byte, request: Pdu.RequestPdu, w: World, response: Pdu.ResponsePdu, others: seq<Piece>,
    garbage: Bytes, left: Bytes)
    requires !c.framing.Rtu? && !c.state.Unusable? && !c.receiver.receiving && w.sending.Written?
    requires c.framing.Tcp? || unit != 0
    requires EncodeAdu(c.framing, HeaderDue(c, unit), RequestMessage(request)).Ok? && Steady(c.framing, w.events)
    requires Sendable(c.framing, Response, Sent(garbage, HeaderDue(c, unit), ResponseMessage(response)))
    requires forall i :: 0 <= i < |others| ==>
      AnswersOther(c.framing, HeaderDue(c, unit), others[i]) && |others[i].frame| <= MaxAdu(c.framing)
    requires var adu := EncodeAdu(c.framing, HeaderDue(c, unit), ResponseMessage(response)).value;
             c.receiver.buffer + Payload(w.events) == Joined(others) + (garbage + (adu + left))
    ensures var r := Call(c, unit, request, w);
            r.result == Given(request, response) && r.client.state == Answered
  {
    hide EncodeMessage;
    hide AnswersOther;
    var header := HeaderDue(c, unit);
    var adu := EncodeAdu(c.framing, header, ResponseMessage(response)).value;
    CallSpelled(c, unit, request, w);
    EncodedFramed(c.framing, header, ResponseMessage(response));
    DecodedResponse(c.framing, header, response);
    hide EncodeAdu;
    hide DecodeResponseAdu;
    hide Call;
    hide AwaitResponse;
    var answer := Piece(garbage, adu);
    var stream := c.receiver.buffer + Payload(w.events);
    assert FirstAnswer(c.framing, header, response, stream, left, others, answer);
    AwaitComplete(
      c.framing, header, request.Function(), c.state, c.receiver, w.events, w.end, response, left, others, answer);
  }

  /** On a silence-delimited line the response is one burst, behind bursts for others. */
  lemma {:induction false} RtuCallAnswered(
    c: Client, unit: Byte, request: Pdu.RequestPdu, response: Pdu.ResponsePdu, others: seq<seq<Chunk>>, burst: seq<Chunk>,
    rest: seq<Event>, end: End)
    requires c.framing.Rtu? && !c.state.Unusable? && c.receiver == Receiver([], false) && unit != 0
    requires EncodeAdu(Rtu, Address(unit), RequestMessage(request)).Ok?
    requires Sendable(Rtu, Response, Sent([], Address(unit), ResponseMessage(response)))
    requires Ok(Together(burst)) == EncodeAdu(Rtu, Address(unit), ResponseMessage(response))
    requires forall i :: 0 <= i < |others| ==> BurstForOther(unit, others[i])
    ensures var w := World(Written, Bursts(others + [burst]) + rest, end);
            var r := Call(c, unit, request, w);
            r.result == Given(request, response) && r.client.state == Answered
  {
    hide EncodeMessage;
    hide BurstForOther;
    var w := World(Written, Bursts(others + [burst]) + rest, end);
    CallSpelled(c, unit, request, w);
    EncodedFramed(Rtu, Address(unit), ResponseMessage(response));
    DecodedResponse(Rtu, Address(unit), response);
    hide EncodeAdu;
    hide Call;
    hide AwaitResponse;
    hide DecodeResponseAdu;
    AwaitBurst(unit, request.Function(), c.state, others, burst, rest, end, response);
  }

  /** A burst that is a frame, under 256 bytes, of another unit. */
  ghost predicate BurstForOther(unit: Byte, burst: seq<Chunk>) {
    && 0 < |Together(burst)| < 256
    && DecodeResponseAdu(Rtu, Together(burst)).Ok? && DecodeResponseAdu(Rtu, Together(burst)).value.0 != Address(unit)
  }

  lemma {:induction false} AwaitBurst(
    unit: Byte, expected: Codes.FunctionCode, state: ClientState, others: seq<seq<Chunk>>, burst: seq<Chunk>,
    rest: seq<Event>, end: End, response: Pdu.ResponsePdu)
    requires 0 < |Together(burst)| < 256
    requires DecodeResponseAdu(Rtu, Together(burst)) == Ok((Address(unit), response))
    requires forall i :: 0 <= i < |others| ==> BurstForOther(unit, others[i])
    ensures var w := AwaitResponse(Rtu, Address(unit), expected, state, Receiver([], false),
                                   Bursts(others + [burst]) + rest, end);
            && w.result == Returned(if response.Function() == expected then Ok(Some(response)) else Err(UnexpectedFunction))
            && w.state == Answered
    decreases |others|
  {
    hide ReadAdu;
    hide DecodeResponseAdu;
    hide Datas;
    hide Payload;
    var all := others + [burst];
    var first, later := all[0], Bursts(all[1..]) + rest;
    assert Bursts(all) + rest == Datas(first) + ([Elapsed] + later) by {
      Assoc(Datas(first), [Elapsed] + Bursts(all[1..]), rest);
      Assoc([Elapsed], Bursts(all[1..]), rest);
    }
    assert first != [] by {
      assert others != [] ==> BurstForOther(unit, others[0]);
    }
    SilenceDelivers(Response, first, Elapsed, later);
    if others != [] {
      assert BurstForOther(unit, others[0]);
      assert all[1..] == others[1..] + [burst];
      AwaitBurst(unit, expected, state, others[1..], burst, rest, end, response);
    }
  }
}
