/** One server connection: what its loop does for every sequence of events (src/server/mod.rs). */
module Server {
  import opened Basics
  import opened Messages
  import opened Framings
  import opened Stream
  import opened Delivery
  import opened Sessions
  import opened StreamEnds
  import opened FrameErrors
  import Codes
  import Pdu

  /** What the service makes of a request. */
  datatype Reply = Answer(response: Pdu.ResponsePdu) | Withhold | Raise(exception: Codes.ExceptionCode)

  /** What a connection does that someone can observe, in order; a response with the bytes it was written as. */
  datatype Note =
    | Dispatched(header: Header, request: Pdu.RequestPdu)
    | Responded(header: Header, response: Pdu.ResponsePdu, adu: Bytes)
    | Reported(error: Error)

  /** `Disconnect`. */
  datatype Reason = Closed | ShuttingDown | Failed(error: Error) | Rejected

  datatype Next = Continue | Stop(reason: Reason) | Waiting

  /** The framing of the link and the unit this server answers for, if it answers for one only. */
  datatype Config = Config(framing: Framing, unit: Option<Byte>) {
    /** Another device's request. */
    predicate Foreign(unitIn: Byte) {
      !IsBroadcast(framing, unitIn) && unit.Some? && unit.value != unitIn
    }
  }

  datatype Handled = Handled(notes: seq<Note>, next: Next)

  /** The response a reply calls for, if it calls for one. */
  function ResponseFor(request: Pdu.RequestPdu, reply: Reply): Option<Pdu.ResponsePdu> {
    match reply
    case Answer(response) => Some(response)
    case Withhold => None
    case Raise(exception) => Some(Pdu.Exception(request.Function(), exception))
  }

  /** A response that did not reach the wire ends the link only when the stream itself failed. */
  function Unsent(error: Error): Handled {
    Handled([Reported(error)], if error.EndsStream() then Stop(Reason.Failed(error)) else Continue)
  }

  /** `send_response`; `broken` is the failure of the write, if it fails. */
  function Respond(f: Framing, header: Header, response: Pdu.ResponsePdu, broken: Option<IoKind>): Handled
    requires HeaderOf(f, header)
  {
    match EncodeAdu(f, header, ResponseMessage(response))
    case Err(error) => Unsent(error)
    case Ok(adu) =>
      if broken.Some? then Unsent(Io(broken.value)) else Handled([Responded(header, response, adu)], Continue)
  }

  /** A decoded request. */
  function HandleRequest(
    c: Config, header: Header, request: Pdu.RequestPdu, reply: Reply, broken: Option<IoKind>): Handled
    requires HeaderOf(c.framing, header)
  {
    if c.Foreign(header.unit) then Handled([], Continue)
    else
      var dispatched := [Dispatched(header, request)];
      match ResponseFor(request, reply)
      case None => Handled(dispatched, Continue)
      case Some(response) =>
        if IsBroadcast(c.framing, header.unit) then Handled(dispatched, Continue)
        else
          var sent := Respond(c.framing, header, response, broken);
          Handled(dispatched + sent.notes, sent.next)
  }

  /** A failed receive: a close between two ADUs is an ordinary end. */
  function HandleFailure(c: Config, error: Error): Handled {
    if error == Io(UnexpectedEof) then Handled([], Stop(Reason.Closed))
    else
      Handled([Reported(error)],
              if error.EndsStream() || !BoundaryOf(c.framing).SelfLocating() then Stop(Reason.Failed(error)) else Continue)
  }

  /** `decode_request`. */
  function DecodeRequestAdu(f: Framing, adu: Bytes): (r: Result<(Header, Pdu.RequestPdu)>)
    ensures r.Ok? ==> HeaderOf(f, r.value.0)
  {
    var (h, pdu) :- Split(f, adu);
    var p :- Pdu.DecodeRequest(pdu);
    Ok((h, p))
  }

  /**
   * What one pass through the loop meets: whether shutdown is already requested, what arrives, whether shutdown comes
   * while the read is pending, what the service replies, and whether the write of a response fails.
   */
  datatype Turn = Turn(signalled: bool, arrived: seq<Event>, interrupted: bool, reply: Reply, broken: Option<IoKind>)

  /** A connection between two passes: its transport and what the stream has still to bring. */
  datatype Link = Link(receiver: Receiver, events: seq<Event>)

  function HandleAdu(c: Config, adu: Bytes, turn: Turn): Handled {
    match DecodeRequestAdu(c.framing, adu)
    case Err(error) => HandleFailure(c, error)
    case Ok((header, request)) => HandleRequest(c, header, request, turn.reply, turn.broken)
  }

  /** One pass through the loop of `exchange`. */
  function Pass(c: Config, link: Link, turn: Turn): (Handled, Link) {
    if turn.signalled then (Handled([], Stop(ShuttingDown)), link)
    else
      var r := RecvAdu(c.framing, Request, link.receiver, link.events + turn.arrived);
      var handled := match r.outcome
                     case Pending => Handled([], if turn.interrupted then Stop(ShuttingDown) else Waiting)
                     case Ready(Err(error)) => HandleFailure(c, error)
                     case Ready(Ok(adu)) => HandleAdu(c, adu, turn);
      (handled, Link(r.receiver, r.events))
  }

  /** `exchange`: pass after pass, until one ends the connection. `Waiting` or `Continue` means it has not ended yet. */
  function Exchange(c: Config, link: Link, turns: seq<Turn>): Handled
    decreases |turns|
  {
    if turns == [] then Handled([], Continue)
    else
      var (handled, after) := Pass(c, link, turns[0]);
      if !handled.next.Continue? then handled
      else
        var others := Exchange(c, after, turns[1..]);
        Handled(handled.notes + others.notes, others.next)
  }

  /** What a whole connection notifies its service of. */
  datatype Notification = Connect | During(note: Note) | Disconnect(reason: Reason)

  function Notifications(notes: seq<Note>): (ns: seq<Notification>)
    ensures |ns| == |notes| && forall i :: 0 <= i < |ns| ==> ns[i] == During(notes[i])
  {
    seq(|notes|, i requires 0 <= i < |notes| => During(notes[i]))
  }

  datatype Served = Served(notifications: seq<Notification>, ended: Option<Result<()>>)

  /** `serve_connection`; `ended` is what it returns, once it does. */
  function ServeConnection(c: Config, accepted: bool, link: Link, turns: seq<Turn>): Served {
    if !accepted then Served([Connect, Disconnect(Rejected)], Some(Ok(())))
    else
      var handled := Exchange(c, link, turns);
      var during := [Connect] + Notifications(handled.notes);
      if handled.next.Stop? then
        Served(during + [Disconnect(handled.next.reason)],
               Some(if handled.next.reason.Failed? then Err(handled.next.reason.error) else Ok(())))
      else Served(during, None)
  }

  // ---- What the log says ----

  /** A response directly follows the dispatch of the request it answers, under the same header. */
  ghost predicate Paired(notes: seq<Note>) {
    forall i :: 0 <= i < |notes| && notes[i].Responded? ==>
      0 < i && notes[i - 1].Dispatched? && notes[i - 1].header == notes[i].header
  }

  /** Whether a header addresses every device: address 0, but not over TCP. */
  predicate ToAll(c: Config, header: Header) {
    (c.framing.Rtu? || c.framing.Ascii? || c.framing.RtuOverTcp?) && header.unit == 0
  }

  /** Whether a header addresses this server alone: any does, if no unit is configured. */
  predicate ToThis(c: Config, header: Header) {
    !ToAll(c, header) && (c.unit == None || c.unit == Some(header.unit))
  }

  /**
   * Only requests for this server, or for all, are dispatched; only the former are answered, and what is written is the
   * ADU of the response under the header it answers.
   */
  ghost predicate Addressed(c: Config, notes: seq<Note>) {
    forall i :: 0 <= i < |notes| ==>
      && (notes[i].Dispatched? ==> ToThis(c, notes[i].header) || ToAll(c, notes[i].header))
      && (notes[i].Responded? ==>
            && ToThis(c, notes[i].header) && HeaderOf(c.framing, notes[i].header)
            && EncodeAdu(c.framing, notes[i].header, ResponseMessage(notes[i].response)) == Ok(notes[i].adu))
  }

  lemma {:induction false} JoinPaired(a: seq<Note>, b: seq<Note>)
    requires Paired(a) && Paired(b)
    ensures Paired(a + b)
  {
    forall i | 0 <= i < |a + b| && (a + b)[i].Responded?
      ensures 0 < i && (a + b)[i - 1].Dispatched? && (a + b)[i - 1].header == (a + b)[i].header
    {
      if i < |a| {
        assert a[i].Responded?;
      } else {
        assert b[i - |a|].Responded?;
      }
    }
  }

  lemma {:induction false} JoinAddressed(c: Config, a: seq<Note>, b: seq<Note>)
    requires Addressed(c, a) && Addressed(c, b)
    ensures Addressed(c, a + b)
  {
  }

  lemma {:induction false} PassDiscipline(c: Config, link: Link, turn: Turn)
    ensures var notes := Pass(c, link, turn).0.notes;
            Paired(notes) && Addressed(c, notes)
  {
    hide RecvAdu;
    hide DecodeRequestAdu;
    hide EncodeAdu;
  }

  /**
   * Over a whole connection: every response answers the request dispatched just before it, under that request's header,
   * so no request gets two; foreign units are never dispatched; broadcasts are never answered.
   */
  lemma {:induction false} ExchangeDiscipline(c: Config, link: Link, turns: seq<Turn>)
    ensures Paired(Exchange(c, link, turns).notes) && Addressed(c, Exchange(c, link, turns).notes)
    decreases |turns|
  {
    if turns != [] {
      hide Pass;
      hide Paired;
      hide Addressed;
      var (handled, after) := Pass(c, link, turns[0]);
      PassDiscipline(c, link, turns[0]);
      ExchangeDiscipline(c, after, turns[1..]);
      JoinPaired(handled.notes, Exchange(c, after, turns[1..]).notes);
      JoinAddressed(c, handled.notes, Exchange(c, after, turns[1..]).notes);
    } else {
      assert Exchange(c, link, turns).notes == [];
    }
  }

  // ---- How a link ends ----

  /** The stream a pass reads from, and how many of its events the receive takes. */
  function Available(link: Link, turn: Turn): seq<Event> {
    link.events + turn.arrived
  }

  function Consumed(c: Config, link: Link, turn: Turn): int {
    EventsTaken(Available(link, turn), ReadAdu(c.framing, Request, link.receiver.buffer, Available(link, turn)))
  }

  lemma {:induction false} FrameErrorKind(f: Framing, adu: Bytes)
    ensures DecodeRequestAdu(f, adu).Err? ==> !DecodeRequestAdu(f, adu).error.EndsStream()
  {
    hide Split;
    hide Pdu.DecodeRequest;
    SplitErrors(f, adu);
    if Split(f, adu).Ok? {
      RequestErrors(Split(f, adu).value.1);
    }
  }

  /** A frame in hand ends the link with an I/O failure of its response's write, or with the failure of a frame. */
  lemma {:induction false} AduEnds(c: Config, adu: Bytes, turn: Turn)
    ensures var h := HandleAdu(c, adu, turn);
            && !h.next.Waiting?
            && (h.next.Stop? ==> h.next.reason.Failed?)
            && (h.next.Stop? && h.next.reason.error.EndsStream() ==> h.next.reason.error.Io?)
            && (h.next.Stop? && BoundaryOf(c.framing).SelfLocating() ==> h.next.reason.error.EndsStream())
  {
    hide DecodeRequestAdu;
    hide Pdu.EncodeResponse;
    FrameErrorKind(c.framing, adu);
    var d := DecodeRequestAdu(c.framing, adu);
    if d.Ok? {
      var response := ResponseFor(d.value.1, turn.reply);
      if response.Some? {
        ResponseEncodeErrors(response.value);
      }
    }
  }

  /**
   * How a link ends, read off the stream. It is closed if and only if the receive met a close with nothing begun or a
   * read that failed with the end-of-file kind; it fails with a closed connection if and only if a close came inside an
   * ADU that silence does not end; it times out if and only if a gap came inside an ASCII frame. On a self-locating
   * framing nothing but a failure of the stream ends it as failed.
   */
  lemma {:induction false} LinkEnds(c: Config, link: Link, turn: Turn)
    requires !link.receiver.receiving
    ensures var next, n := Pass(c, link, turn).0.next, Consumed(c, link, turn);
            var buffer, events := link.receiver.buffer, Available(link, turn);
            && (next == Stop(Reason.Closed) <==> !turn.signalled && MetIo(c.framing, buffer, events, n, UnexpectedEof))
            && (next == Stop(Reason.Failed(ConnectionClosed))
                <==> !turn.signalled && !c.framing.Rtu? && MetSevered(c.framing, buffer, events, n))
            && (forall what :: next == Stop(Reason.Failed(Timeout(what)))
                               <==> !turn.signalled && what == InterCharacterGap && c.framing.Ascii?
                                    && MetGap(c.framing, buffer, events, n))
            && (next.Stop? && next.reason.Failed? && BoundaryOf(c.framing).SelfLocating()
                ==> next.reason.error.EndsStream())
  {
    hide ReadAdu;
    hide HandleAdu;
    var buffer, events := link.receiver.buffer, Available(link, turn);
    StreamFailure(c.framing, Request, buffer, events);
    var r := ReadAdu(c.framing, Request, buffer, events);
    if r.outcome.Ready? && r.outcome.result.Ok? {
      AduEnds(c, r.outcome.result.value, turn);
    }
  }

  /** So where no read fails with the end-of-file kind, a link is closed exactly by a close between two ADUs. */
  lemma {:induction false} ClosedIsClean(c: Config, link: Link, turn: Turn)
    requires !link.receiver.receiving && Event.Failed(UnexpectedEof) !in Available(link, turn)
    ensures var events, n := Available(link, turn), Consumed(c, link, turn);
            Pass(c, link, turn).0.next == Stop(Reason.Closed)
            <==> !turn.signalled && 0 < n <= |events| && events[n - 1].Closed?
                 && !Begun(c.framing, link.receiver.buffer + Payload(events[..n - 1]))
  {
    hide Pass;
    hide Consumed;
    LinkEnds(c, link, turn);
  }

  /** But a read that fails with that kind closes the link as if cleanly, in the middle of an ADU, with nothing reported. */
  lemma {:induction false} MidAduEndOfFile(c: Config, begun: Chunk, turn: Turn)
    requires Decide(c.framing, Request, begun) == Await(begun)
    requires !turn.signalled && turn.arrived == [Data(begun), Event.Failed(UnexpectedEof)]
    ensures Begun(c.framing, begun)
    ensures Pass(c, Link(Receiver([], false), []), turn).0 == Handled([], Stop(Reason.Closed))
  {
    var events := [Data(begun), Event.Failed(UnexpectedEof)];
    assert [] + events == events && events[1..] == [Event.Failed(UnexpectedEof)];
    Nothing(begun);
    KeptBegun(c.framing, Request, begun);
    EmptyAwaited(c.framing);
    hide Decide;
    assert ReadAdu(c.framing, Request, begun, events[1..]).outcome == Ready(Err(Io(UnexpectedEof)));
  }

  lemma {:induction false} EmptyAwaited(f: Framing)
    ensures Decide(f, Request, []) == Await([])
  {
  }

  /** Three bytes of an MBAP header are such a beginning. */
  lemma {:induction false} HeaderPartAwaited(begun: Chunk)
    requires |begun| == 3
    ensures Decide(Framing.Tcp, Request, begun) == Await(begun)
  {
  }

  /**
   * `on_connect` is called once, and first; `on_disconnect` exactly once on a connection that has ended, last, and with
   * the reason it ended for, which is what is returned; between them, exactly what the loop did.
   */
  lemma {:induction false} DisconnectOnceAndLast(c: Config, accepted: bool, link: Link, turns: seq<Turn>)
    ensures var s := ServeConnection(c, accepted, link, turns);
            var n := |s.notifications|;
            && 0 < n
            && (forall i :: 0 <= i < n ==> (s.notifications[i].Connect? <==> i == 0))
            && (forall i :: 0 <= i < n ==> (s.notifications[i].Disconnect? <==> s.ended.Some? && i == n - 1))
            && (forall i :: 0 < i < n && !s.notifications[i].Disconnect? ==>
                  accepted && s.notifications[i] == During(Exchange(c, link, turns).notes[i - 1]))
            && (s.ended.Some? <==> !accepted || Exchange(c, link, turns).next.Stop?)
            && (s.ended.Some? ==>
                  var reason := s.notifications[n - 1].reason;
                  && reason == (if accepted then Exchange(c, link, turns).next.reason else Rejected)
                  && s.ended.value == if reason.Failed? then Err(reason.error) else Ok(()))
            && (accepted ==> n == 1 + |Exchange(c, link, turns).notes| + if s.ended.Some? then 1 else 0)
  {
    hide Exchange;
  }

  // ---- Serving a stream of requests ----

  /** So a connection goes on after any request whose response the stream took or that did not encode. */
  lemma {:induction false} HandledContinues(c: Config, header: Header, request: Pdu.RequestPdu, reply: Reply)
    requires HeaderOf(c.framing, header)
    ensures HandleRequest(c, header, request, reply, None).next.Continue?
  {
    hide Pdu.EncodeResponse;
    var response := ResponseFor(request, reply);
    if response.Some? {
      ResponseEncodeErrors(response.value);
    }
  }

  // ---- Serving a stream of frames ----

  /**
   * The pure in-order handling of what each pass gets: the frame complete by then, if one is. It stops with the first
   * pass that does not continue.
   */
  function InOrder(c: Config, got: seq<Option<Bytes>>, turns: seq<Turn>): Handled
    requires |got| == |turns|
    decreases |turns|
  {
    if turns == [] then Handled([], Continue)
    else
      var h := OnePass(c, got[0], turns[0]);
      if !h.next.Continue? then h
      else
        var others := InOrder(c, got[1..], turns[1..]);
        Handled(h.notes + others.notes, others.next)
  }

  function OnePass(c: Config, got: Option<Bytes>, turn: Turn): Handled {
    if turn.signalled then Handled([], Stop(ShuttingDown))
    else
      match got
      case None => Handled([], if turn.interrupted then Stop(ShuttingDown) else Waiting)
      case Some(adu) => HandleAdu(c, adu, turn)
  }

  /** Which frame each pass gets, from the bytes left over and those that have arrived by then. */
  function Arrivals(pieces: seq<Piece>, have: Bytes, turns: seq<Turn>): (got: seq<Option<Bytes>>)
    requires |turns| <= |pieces|
    ensures |got| == |turns|
    decreases |turns|
  {
    if turns == [] then []
    else
      var now, need := have + Payload(turns[0].arrived), |pieces[0].garbage| + |pieces[0].frame|;
      if |now| < need then [None] + Arrivals(pieces, now, turns[1..])
      else [Some(pieces[0].frame)] + Arrivals(pieces[1..], now[need..], turns[1..])
  }

  function Arriving(turns: seq<Turn>): Bytes {
    if turns == [] then [] else Payload(turns[0].arrived) + Arriving(turns[1..])
  }

  /** The next pass gets this frame and leaves the bytes behind it, or waits for it. */
  lemma {:induction false} PassGets(c: Config, link: Link, turn: Turn, piece: Piece, later: Bytes)
    requires !c.framing.Rtu? && !link.receiver.receiving && !turn.signalled
    requires Framed(c.framing, Request, piece.frame) && Skippable(c.framing, piece.garbage)
    requires Steady(c.framing, link.events) && Steady(c.framing, turn.arrived)
    requires var now := link.receiver.buffer + Payload(link.events) + Payload(turn.arrived);
             now <= piece.garbage + (piece.frame + later)
    ensures var now, need := link.receiver.buffer + Payload(link.events) + Payload(turn.arrived),
                             |piece.garbage| + |piece.frame|;
            var (h, after) := Pass(c, link, turn);
            if |now| < need then h == OnePass(c, None, turn)
            else
              && h == OnePass(c, Some(piece.frame), turn)
              && !after.receiver.receiving && Steady(c.framing, after.events)
              && after.receiver.buffer + Payload(after.events) == now[need..]
              && now[need..] <= later
  {
    hide ReadAdu;
    hide HandleAdu;
    hide Framed;
    hide Skippable;
    hide Payload;
    var buffer, events := link.receiver.buffer, link.events + turn.arrived;
    PayloadJoin(link.events, turn.arrived);
    Assoc(buffer, Payload(link.events), Payload(turn.arrived));
    var now, need := buffer + Payload(events), |piece.garbage| + |piece.frame|;
    var all := piece.garbage + (piece.frame + later);
    Assoc(piece.garbage, piece.frame, later);
    if |now| < need {
      assert now < piece.garbage + piece.frame;
      ReceiveNone(c.framing, Request, buffer, events, piece.garbage, piece.frame);
    } else {
      CutFrame(now, piece.garbage, piece.frame, later);
      ReceiveOne(c.framing, Request, buffer, events, piece.garbage, piece.frame, now[need..]);
    }
  }

  lemma {:induction false} CutFrame(now: Bytes, garbage: Bytes, frame: Bytes, later: Bytes)
    requires now <= garbage + (frame + later) && |garbage| + |frame| <= |now|
    ensures var rest := now[|garbage| + |frame|..]; now == garbage + (frame + rest) && rest <= later
  {
    var all, n := garbage + (frame + later), |garbage| + |frame|;
    assert now == all[..|now|];
    assert all[..n] == garbage + frame && all[n..] == later;
    assert now[..n] == garbage + frame;
    Assoc(garbage, frame, now[n..]);
    assert now[n..] == later[..|now| - n];
  }

  /**
   * A stream of frames, decodable or not, split into reads in any way and arriving in any order with the passes, is
   * served as the pure in-order handling of those frames, whatever the service replies, whichever writes break and
   * whenever shutdown comes: the logs are the same, up to and including how the link ends.
   */
  lemma {:induction false} ServedInOrder(c: Config, link: Link, turns: seq<Turn>, pieces: seq<Piece>)
    requires !c.framing.Rtu? && Readable(c.framing, Request, pieces) && |turns| <= |pieces|
    requires !link.receiver.receiving && Steady(c.framing, link.events)
    requires forall i :: 0 <= i < |turns| ==> Steady(c.framing, turns[i].arrived)
    requires link.receiver.buffer + Payload(link.events) + Arriving(turns) <= Joined(pieces)
    ensures Exchange(c, link, turns)
            == InOrder(c, Arrivals(pieces, link.receiver.buffer + Payload(link.events), turns), turns)
    decreases |turns|
  {
    hide Steady;
    hide Payload;
    hide Framed;
    hide Skippable;
    if turns == [] {
    } else {
      var turn, piece := turns[0], pieces[0];
      var have := link.receiver.buffer + Payload(link.events);
      var now, need := have + Payload(turn.arrived), |piece.garbage| + |piece.frame|;
      Assoc(have, Payload(turn.arrived), Arriving(turns[1..]));
      assert now <= Joined(pieces);
      if turn.signalled {
        hide Arrivals;
      } else {
        PassGets(c, link, turn, piece, Joined(pieces[1..]));
        if |now| >= need {
          ServedOn(c, link, turns, pieces, now);
        }
      }
    }
  }

  /** The passes after one that got its frame. */
  lemma {:induction false} ServedOn(c: Config, link: Link, turns: seq<Turn>, pieces: seq<Piece>, now: Bytes)
    requires turns != [] && |turns| <= |pieces| && Readable(c.framing, Request, pieces) && !c.framing.Rtu?
    requires forall i :: 0 <= i < |turns| ==> Steady(c.framing, turns[i].arrived)
    requires now == link.receiver.buffer + Payload(link.events) + Payload(turns[0].arrived)
    requires now + Arriving(turns[1..]) <= Joined(pieces)
    requires var need, after := |pieces[0].garbage| + |pieces[0].frame|, Pass(c, link, turns[0]).1;
             && need <= |now| && !after.receiver.receiving && Steady(c.framing, after.events)
             && after.receiver.buffer + Payload(after.events) == now[need..]
    ensures var need, after := |pieces[0].garbage| + |pieces[0].frame|, Pass(c, link, turns[0]).1;
            Exchange(c, after, turns[1..]) == InOrder(c, Arrivals(pieces[1..], now[need..], turns[1..]), turns[1..])
    decreases |turns|, 0
  {
    hide Pass;
    hide Exchange;
    hide InOrder;
    hide Arrivals;
    hide Steady;
    hide Payload;
    hide Framed;
    hide Skippable;
    var piece, after := pieces[0], Pass(c, link, turns[0]).1;
    var need := |piece.garbage| + |piece.frame|;
    var later := Arriving(turns[1..]);
    CutFrame(now + later, piece.garbage, piece.frame, Joined(pieces[1..]));
    assert (now + later)[need..] == now[need..] + later;
    ServedInOrder(c, after, turns[1..], pieces[1..]);
  }

  /** The frames the bursts are, one for each pass. */
  function Gathered(bursts: seq<seq<Chunk>>): (got: seq<Option<Bytes>>)
    ensures |got| == |bursts|
  {
    if bursts == [] then [] else [Some(Together(bursts[0]))] + Gathered(bursts[1..])
  }

  /** On a silence-delimited line, bursts of fewer than 256 bytes, one to a pass, are served in order in the same sense. */
  lemma {:induction false} BurstsServedInOrder(c: Config, turns: seq<Turn>, bursts: seq<seq<Chunk>>)
    requires c.framing.Rtu? && |turns| == |bursts|
    requires Readable(Framing.Rtu, Request, BurstPieces(bursts))
    requires forall i :: 0 <= i < |turns| ==> turns[i].arrived == Datas(bursts[i]) + [Elapsed]
    ensures Exchange(c, Link(Receiver([], false), []), turns) == InOrder(c, Gathered(bursts), turns)
    decreases |turns|
  {
    if turns == [] {
    } else {
      hide ReadAdu;
      hide HandleAdu;
      var turn, burst, pieces := turns[0], bursts[0], BurstPieces(bursts);
      assert Framed(Framing.Rtu, Request, pieces[0].frame);
      assert pieces[1..] == BurstPieces(bursts[1..]);
      assert [] + turn.arrived == Datas(burst) + ([Elapsed] + []);
      SilenceDelivers(Request, burst, Elapsed, []);
      BurstsServedInOrder(c, turns[1..], bursts[1..]);
    }
  }

  // ---- Messages ----

  /** A frame that carries a message is handled as that message. */
  lemma {:induction false} HandlesMessage(c: Config, x: Sent, turn: Turn)
    requires Sendable(c.framing, Request, x)
    ensures HeaderOf(c.framing, x.header) && x.message.RequestMessage?
    ensures HandleAdu(c, PieceOf(c.framing, Request, x).frame, turn)
            == HandleRequest(c, x.header, x.message.request, turn.reply, turn.broken)
  {
    hide HandleRequest;
    hide EncodeMessage;
    DecodedRequest(c.framing, x);
    hide DecodeRequestAdu;
  }

  lemma {:induction false} DecodedRequest(f: Framing, x: Sent)
    requires Sendable(f, Request, x)
    ensures DecodeRequestAdu(f, PieceOf(f, Request, x).frame) == Ok((x.header, x.message.request))
  {
    hide EncodeMessage;
    hide EncodeAdu;
    hide Split;
    hide Pdu.DecodeRequest;
    AduWritten(f, x.header, x.message);
  }

  /** The requests a log says were dispatched. */
  function Dispatches(notes: seq<Note>): seq<(Header, Pdu.RequestPdu)> {
    if notes == [] then []
    else (if notes[0].Dispatched? then [(notes[0].header, notes[0].request)] else []) + Dispatches(notes[1..])
  }

  /** The requests among these frames that are for this server: its own unit's and, where there are such, broadcasts. */
  function Wanted(c: Config, got: seq<Option<Bytes>>): seq<(Header, Pdu.RequestPdu)> {
    if got == [] then []
    else WantedOf(c, got[0]) + Wanted(c, got[1..])
  }

  function WantedOf(c: Config, got: Option<Bytes>): seq<(Header, Pdu.RequestPdu)> {
    if got.None? then []
    else
      match DecodeRequestAdu(c.framing, got.value)
      case Err(_) => []
      case Ok((header, request)) => if ToThis(c, header) || ToAll(c, header) then [(header, request)] else []
  }

  lemma {:induction false} DispatchesJoin(a: seq<Note>, b: seq<Note>)
    ensures Dispatches(a + b) == Dispatches(a) + Dispatches(b)
  {
    if a == [] {
      assert a + b == b;
    } else {
      assert (a + b)[1..] == a[1..] + b;
      DispatchesJoin(a[1..], b);
      var first := if a[0].Dispatched? then [(a[0].header, a[0].request)] else [];
      Assoc(first, Dispatches(a[1..]), Dispatches(b));
    }
  }

  lemma {:induction false} AduDispatches(c: Config, adu: Bytes, turn: Turn)
    ensures Dispatches(HandleAdu(c, adu, turn).notes) == WantedOf(c, Some(adu))
  {
    hide DecodeRequestAdu;
    hide EncodeAdu;
    var h := HandleAdu(c, adu, turn);
    if |h.notes| == 2 {
      assert h.notes[1..] == [h.notes[1]] && h.notes[1..][1..] == [];
      assert Dispatches(h.notes[1..]) == [];
    } else if |h.notes| == 1 {
      assert h.notes[1..] == [];
    }
  }

  /**
   * Broadcasts are dispatched like the unit's own requests: as long as the link goes on, what is dispatched is exactly
   * the decodable requests received that are not another unit's, in order, each once.
   */
  lemma {:induction false} WantedAreDispatched(c: Config, got: seq<Option<Bytes>>, turns: seq<Turn>)
    requires |got| == |turns| && InOrder(c, got, turns).next.Continue?
    ensures Dispatches(InOrder(c, got, turns).notes) == Wanted(c, got)
    decreases |turns|
  {
    if turns == [] {
    } else {
      hide HandleAdu;
      hide WantedOf;
      AduDispatches(c, got[0].value, turns[0]);
      WantedAreDispatched(c, got[1..], turns[1..]);
      DispatchesJoin(HandleAdu(c, got[0].value, turns[0]).notes, InOrder(c, got[1..], turns[1..]).notes);
    }
  }
}
