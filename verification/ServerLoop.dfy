/** A server connection in its own form: a loop over transport events that logs as it goes (src/server/mod.rs). */
module ServerLoop {
  import opened Basics
  import opened Messages
  import opened PduEncoder
  import opened PduDecoder
  import opened Framings
  import opened Stream
  import opened Transport
  import opened Server
  import Pdu

  class Connection {
    const config: Config
    const transport: FrameTransport
    /** The notifications the service has had. */
    var log: seq<Notification>

    constructor (c: Config, t: FrameTransport)
      ensures config == c && transport == t && log == []
    {
      config, transport, log := c, t, [];
    }

    ghost predicate Valid() {
      transport.framing == config.framing
    }

    ghost function Line(): Link
      reads this, transport
    {
      Link(Receiver(transport.buffer, transport.receiving), transport.events)
    }

    method Notify(note: Note)
      modifies this`log
      ensures log == old(log) + [During(note)]
    {
      log := log + [During(note)];
    }

    /** `on_error`, and whether the link ends with it. */
    method Fail(error: Error) returns (next: Next)
      modifies this`log
      ensures var h := HandleFailure(config, error); next == h.next && log == old(log) + Notifications(h.notes)
    {
      if error == Io(UnexpectedEof) {
        assert log + Notifications([]) == log;
        return Stop(Reason.Closed);
      }
      Notify(Reported(error));
      if error.EndsStream() || !BoundaryOf(config.framing).SelfLocating() {
        return Stop(Reason.Failed(error));
      }
      return Continue;
    }

    /** `send_response`, and what follows from its failing. */
    method Send(header: Header, response: Pdu.ResponsePdu, broken: Option<IoKind>) returns (next: Next)
      requires HeaderOf(config.framing, header)
      modifies this`log
      ensures var h := Respond(config.framing, header, response, broken);
              next == h.next && log == old(log) + Notifications(h.notes)
    {
      hide EncodeAdu;
      var outgoing := new OutBuffer();
      var sent := EncodeAduInto(config.framing, outgoing, header, ResponseMessage(response));
      if sent.Ok? {
        Nothing(EncodeAdu(config.framing, header, ResponseMessage(response)).value);
      }
      if sent.Ok? && broken.Some? {
        sent := Err(Io(broken.value));
      }
      if sent.Ok? {
        Notify(Responded(header, response, outgoing.data));
        return Continue;
      }
      Notify(Reported(sent.error));
      if sent.error.EndsStream() {
        return Stop(Reason.Failed(sent.error));
      }
      return Continue;
    }

    /** The body of the loop once a request is in hand. */
    method Dispatch(header: Header, request: Pdu.RequestPdu, reply: Reply, broken: Option<IoKind>) returns (next: Next)
      requires HeaderOf(config.framing, header)
      modifies this`log
      ensures var h := HandleRequest(config, header, request, reply, broken);
              next == h.next && log == old(log) + Notifications(h.notes)
    {
      hide Respond;
      var broadcast := IsBroadcast(config.framing, header.unit);
      if !broadcast && config.unit.Some? && config.unit.value != header.unit {
        assert log + Notifications([]) == log;
        return Continue;
      }
      Notify(Dispatched(header, request));
      match ResponseFor(request, reply)
      case None =>
        return Continue;
      case Some(response) =>
        if broadcast {
          return Continue;
        }
        next := Send(header, response, broken);
        ghost var sent := Respond(config.framing, header, response, broken).notes;
        assert Notifications([Dispatched(header, request)]) == [During(Dispatched(header, request))];
        NotificationsJoin([Dispatched(header, request)], sent, old(log));
    }

    /** `decode_request`. */
    method Decode(adu: Bytes) returns (r: Result<(Header, Pdu.RequestPdu)>)
      ensures r == DecodeRequestAdu(config.framing, adu)
    {
      hide Split;
      var parts :- SplitAdu(config.framing, adu);
      var request :- DecodeRequestPdu(parts.1);
      r := Ok((parts.0, request));
    }

    /** One pass of the loop. */
    method OnePass(turn: Turn) returns (next: Next)
      requires Valid()
      modifies this`log, transport
      ensures var (h, after) := old(Pass(config, Line(), turn));
              next == h.next && log == old(log) + Notifications(h.notes) && Line() == after
    {
      hide RecvAdu;
      hide DecodeRequestAdu;
      hide HandleRequest;
      hide HandleFailure;
      assert log + Notifications([]) == log;
      if turn.signalled {
        return Stop(ShuttingDown);
      }
      transport.events := transport.events + turn.arrived;
      var r := transport.ReceiveAdu(Request);
      match r
      case Pending =>
        return if turn.interrupted then Stop(ShuttingDown) else Waiting;
      case Ready(Err(error)) =>
        next := Fail(error);
      case Ready(Ok(adu)) =>
        var decoded := Decode(adu);
        match decoded
        case Err(error) =>
          next := Fail(error);
        case Ok((header, request)) =>
          next := Dispatch(header, request, turn.reply, turn.broken);
    }

    /** `exchange`, over as many passes as are observed. */
    method Run(turns: seq<Turn>) returns (next: Next)
      requires Valid()
      modifies this`log, transport
      ensures var h := old(Exchange(config, Line(), turns));
              next == h.next && log == old(log) + Notifications(h.notes)
    {
      hide Pass;
      hide Exchange;
      hide Notifications;
      ghost var all := Exchange(config, Line(), turns);
      ghost var done: seq<Note> := [];
      assert turns[0..] == turns;
      Prepend([], all);
      assert log + Notifications([]) == log by {
        assert |Notifications([])| == 0;
      }
      for i := 0 to |turns|
        invariant log == old(log) + Notifications(done)
        invariant After(done, Exchange(config, Line(), turns[i..])) == all
      {
        ghost var h, after := Pass(config, Line(), turns[i]).0, Pass(config, Line(), turns[i]).1;
        ExchangeStep(config, Line(), turns[i..]);
        assert turns[i..][1..] == turns[i + 1..];
        next := OnePass(turns[i]);
        NotificationsJoin(done, h.notes, old(log));
        if !next.Continue? {
          return;
        }
        AfterStep(done, h.notes, Exchange(config, after, turns[i + 1..]));
        done := done + h.notes;
      }
      ExchangeEnd(config, Line(), turns[|turns|..], done);
      return Continue;
    }

    /** `serve_connection`. */
    method Serve(accepted: bool, turns: seq<Turn>) returns (ended: Option<Result<()>>)
      requires Valid() && log == []
      modifies this`log, transport
      ensures Served(log, ended) == old(ServeConnection(config, accepted, Line(), turns))
    {
      hide Exchange;
      log := [Connect];
      if !accepted {
        log := log + [Disconnect(Rejected)];
        return Some(Ok(()));
      }
      var next := Run(turns);
      if !next.Stop? {
        return None;
      }
      log := log + [Disconnect(next.reason)];
      ended := Some(if next.reason.Failed? then Err(next.reason.error) else Ok(()));
    }
  }

  lemma {:induction false} NotificationsJoin(a: seq<Note>, b: seq<Note>, before: seq<Notification>)
    ensures before + Notifications(a) + Notifications(b) == before + Notifications(a + b)
  {
    assert Notifications(a + b) == Notifications(a) + Notifications(b);
  }

  lemma {:induction false} ExchangeStep(c: Config, link: Link, turns: seq<Turn>)
    requires turns != []
    ensures var h, after := Pass(c, link, turns[0]).0, Pass(c, link, turns[0]).1;
            Exchange(c, link, turns)
            == if h.next.Continue? then After(h.notes, Exchange(c, after, turns[1..])) else h
  {
    hide Pass;
  }

  lemma {:induction false} ExchangeEnd(c: Config, link: Link, turns: seq<Turn>, done: seq<Note>)
    requires turns == []
    ensures After(done, Exchange(c, link, turns)) == Handled(done, Continue)
  {
    assert done + [] == done;
  }

  /** An outcome with `notes` put before it. */
  ghost function After(notes: seq<Note>, h: Handled): Handled {
    Handled(notes + h.notes, h.next)
  }

  lemma {:induction false} AfterStep(a: seq<Note>, b: seq<Note>, h: Handled)
    ensures After(a, After(b, h)) == After(a + b, h)
  {
    assert a + (b + h.notes) == a + b + h.notes;
  }

  lemma {:induction false} Prepend(a: seq<Note>, h: Handled)
    requires a == []
    ensures After(a, h) == h
  {
    assert a + h.notes == h.notes;
  }
}
