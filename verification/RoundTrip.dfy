/** A client and a server on the two ends of one stream: a request goes over, and its response comes back. */
module RoundTrip {
  import opened Basics
  import opened Messages
  import opened Framings
  import opened Stream
  import opened Delivery
  import opened Sessions
  import opened Clients
  import opened ClientAnswers
  import opened Server
  import opened ServerAnswers
  import Pdu

  /** The request as the client sends it and the response to it: both pass their framing, under the header due. */
  ghost predicate Exchangeable(c: Client, unit: Byte, request: Pdu.RequestPdu, response: Pdu.ResponsePdu) {
    && Sendable(c.framing, Direction.Request, Sent([], HeaderDue(c, unit), RequestMessage(request)))
    && Sendable(c.framing, Response, Sent([], HeaderDue(c, unit), ResponseMessage(response)))
    && response.Function() == request.Function()
  }

  /** This is what the client wrote for its request. */
  ghost predicate Wrote(c: Client, unit: Byte, request: Pdu.RequestPdu, w: World, adu: Bytes) {
    Call(c, unit, request, w).client.attempts == c.attempts + [Attempt(HeaderDue(c, unit), adu, true)]
  }

  lemma {:induction false} WroteAdu(c: Client, unit: Byte, request: Pdu.RequestPdu, w: World, adu: Bytes)
    requires !c.state.Unusable? && EncodeMessage(RequestMessage(request)).Ok? && Wrote(c, unit, request, w, adu)
    ensures EncodeAdu(c.framing, HeaderDue(c, unit), RequestMessage(request)) == Ok(adu)
  {
    hide EncodeMessage;
    hide EncodeAdu;
    hide DecodeAdu;
    hide Call;
    AduWritten(c.framing, HeaderDue(c, unit), RequestMessage(request));
    CallAttempts(c, unit, request, w);
    var attempts, n := Call(c, unit, request, w).client.attempts, |c.attempts|;
    assert attempts[n].adu == adu;
  }

  /**
   * End to end: the bytes the client writes, split into reads in any way, make a server for that unit dispatch exactly
   * that request and write back the service's response; and those bytes, split in any way again, make the call return
   * that response.
   */
  lemma {:induction false} ResponseReturned(
    c: Client, config: Config, unit: Byte, request: Pdu.RequestPdu, response: Pdu.ResponsePdu, up: seq<Event>, w: World)
    requires !c.framing.Rtu? && config.framing == c.framing && !c.state.Unusable? && c.receiver == Receiver([], false)
    requires Exchangeable(c, unit, request, response) && ToThis(config, HeaderDue(c, unit))
    requires w.sending.Written? && Steady(c.framing, w.events) && Steady(c.framing, up)
    requires Wrote(c, unit, request, w, Payload(up))
    ensures var h := Exchange(config, Link(Receiver([], false), up), Answering([response], [[]]));
            && |h.notes| == 2 && h.notes[0] == Dispatched(HeaderDue(c, unit), request) && h.notes[1].Responded?
            && (Payload(w.events) == h.notes[1].adu ==> Call(c, unit, request, w).result == Returned(Ok(Some(response))))
  {
    hide EncodeMessage;
    hide EncodeAdu;
    hide Call;
    hide Exchange;
    hide Steady;
    WroteAdu(c, unit, request, w, Payload(up));
    hide Wrote;
    StreamDispatched(config, HeaderDue(c, unit), request, response, up);
    var h := Exchange(config, Link(Receiver([], false), up), Answering([response], [[]]));
    if Payload(w.events) == h.notes[1].adu {
      Answers(c, unit, request, response, w);
    }
  }

  /** The server's half. */
  lemma {:induction false} StreamDispatched(
    config: Config, header: Header, request: Pdu.RequestPdu, response: Pdu.ResponsePdu, up: seq<Event>)
    requires !config.framing.Rtu? && ToThis(config, header) && EncodeMessage(ResponseMessage(response)).Ok?
    requires Sendable(config.framing, Direction.Request, Sent([], header, RequestMessage(request)))
    requires EncodeAdu(config.framing, header, RequestMessage(request)) == Ok(Payload(up)) && Steady(config.framing, up)
    ensures var h := Exchange(config, Link(Receiver([], false), up), Answering([response], [[]]));
            && |h.notes| == 2 && h.notes[0] == Dispatched(header, request) && h.notes[1].Responded?
            && EncodeAdu(config.framing, header, ResponseMessage(response)) == Ok(h.notes[1].adu)
  {
    hide EncodeMessage;
    hide EncodeAdu;
    hide Exchange;
    hide Steady;
    var x := Sent([], header, RequestMessage(request));
    var quiet: seq<seq<Event>> := seq(1, _ => []);
    assert quiet == [[]];
    assert Sendable(config.framing, Direction.Request, x);
    OneOnWire(config.framing, x);
    hide Sendable;
    StreamAnswered(config, up, [x], [response]);
    var h := Exchange(config, Link(Receiver([], false), up), Answering([response], [[]]));
    assert Pair(config, x, response, h.notes[2 * 0], h.notes[2 * 0 + 1]);
  }

  lemma {:induction false} OneOnWire(f: Framing, x: Sent)
    requires Sendable(f, Direction.Request, x) && x.garbage == []
    ensures Joined(OnWire(f, Direction.Request, [x])) == PieceOf(f, Direction.Request, x).frame
  {
    hide Sendable;
    hide PieceOf;
    var pieces := OnWire(f, Direction.Request, [x]);
    assert pieces[1..] == [];
    Nothing(pieces[0].frame);
  }

  lemma {:induction false} Answers(
    c: Client, unit: Byte, request: Pdu.RequestPdu, response: Pdu.ResponsePdu, w: World)
    requires !c.framing.Rtu? && !c.state.Unusable? && c.receiver == Receiver([], false)
    requires Exchangeable(c, unit, request, response) && (c.framing.Tcp? || unit != 0)
    requires w.sending.Written? && Steady(c.framing, w.events)
    requires Ok(Payload(w.events)) == EncodeAdu(c.framing, HeaderDue(c, unit), ResponseMessage(response))
    ensures Call(c, unit, request, w).result == Returned(Ok(Some(response)))
  {
    hide EncodeMessage;
    hide Call;
    AduWritten(c.framing, HeaderDue(c, unit), RequestMessage(request));
    hide EncodeAdu;
    hide Steady;
    var adu := Payload(w.events);
    Nothing(adu);
    CallAnswered(c, unit, request, w, response, [], [], []);
  }

  lemma {:induction false} BurstDispatched(
    config: Config, unit: Byte, request: Pdu.RequestPdu, response: Pdu.ResponsePdu, up: seq<Chunk>)
    requires config.framing.Rtu? && ToThis(config, Address(unit)) && EncodeMessage(ResponseMessage(response)).Ok?
    requires Sendable(Rtu, Direction.Request, Sent([], Address(unit), RequestMessage(request)))
    requires EncodeAdu(Rtu, Address(unit), RequestMessage(request)) == Ok(Together(up))
    ensures var h := Exchange(config, Link(Receiver([], false), []), Answering([response], [Datas(up) + [Elapsed]]));
            && |h.notes| == 2 && h.notes[0] == Dispatched(Address(unit), request) && h.notes[1].Responded?
            && EncodeAdu(Rtu, Address(unit), ResponseMessage(response)) == Ok(h.notes[1].adu)
  {
    hide EncodeMessage;
    hide EncodeAdu;
    hide Exchange;
    var x := Sent([], Address(unit), RequestMessage(request));
    var arrived := seq(1, i requires 0 <= i < 1 => Datas([up][i]) + [Elapsed]);
    assert arrived == [Datas(up) + [Elapsed]];
    assert Sendable(Rtu, Direction.Request, x);
    hide Sendable;
    BurstsAnswered(config, [up], [x], [response]);
    var h := Exchange(config, Link(Receiver([], false), []), Answering([response], [Datas(up) + [Elapsed]]));
    assert Pair(config, x, response, h.notes[2 * 0], h.notes[2 * 0 + 1]);
  }

  /** The same on a silence-delimited line, each message in a burst of its own. */
  lemma {:induction false} BurstReturned(
    c: Client, config: Config, unit: Byte, request: Pdu.RequestPdu, response: Pdu.ResponsePdu, up: seq<Chunk>,
    down: seq<Chunk>, rest: seq<Event>, end: End)
    requires c.framing.Rtu? && config.framing.Rtu? && !c.state.Unusable? && c.receiver == Receiver([], false)
    requires Exchangeable(c, unit, request, response) && ToThis(config, Address(unit))
    requires Wrote(c, unit, request, World(Written, Bursts([down]) + rest, end), Together(up))
    ensures var h := Exchange(config, Link(Receiver([], false), []), Answering([response], [Datas(up) + [Elapsed]]));
            var w := World(Written, Bursts([down]) + rest, end);
            && |h.notes| == 2 && h.notes[0] == Dispatched(Address(unit), request) && h.notes[1].Responded?
            && (Together(down) == h.notes[1].adu ==> Call(c, unit, request, w).result == Returned(Ok(Some(response))))
  {
    hide EncodeMessage;
    hide EncodeAdu;
    hide Call;
    hide Exchange;
    hide Answering;
    hide Bursts;
    var w := World(Written, Bursts([down]) + rest, end);
    WroteAdu(c, unit, request, w, Together(up));
    hide Wrote;
    BurstDispatched(config, unit, request, response, up);
    var h := Exchange(config, Link(Receiver([], false), []), Answering([response], [Datas(up) + [Elapsed]]));
    if Together(down) == h.notes[1].adu {
      assert [] + [down] == [down];
      RtuCallAnswered(c, unit, request, response, [], down, rest, end);
    }
  }
}
