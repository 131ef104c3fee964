/** What a server answers: the outcome of every request, failure and shutdown, spelled out. */
module ServerAnswers {
  import opened Basics
  import opened Messages
  import opened Framings
  import opened Stream
  import opened Delivery
  import opened Sessions
  import opened FrameErrors
  import opened Server
  import Pdu

  /** The service's response was written under the request's header, or reported when it could not be. */
  ghost predicate AnsweredWith(
    f: Framing, header: Header, request: Pdu.RequestPdu, response: Pdu.ResponsePdu, broken: Option<IoKind>, h: Handled)
    requires HeaderOf(f, header)
  {
    match EncodeAdu(f, header, ResponseMessage(response))
    case Err(error) => h == Handled([Dispatched(header, request), Reported(error)], Continue)
    case Ok(adu) =>
      if broken.None? then h == Handled([Dispatched(header, request), Responded(header, response, adu)], Continue)
      else h == Handled([Dispatched(header, request), Reported(Io(broken.value))], Stop(Reason.Failed(Io(broken.value))))
  }

  /** What a pass does with a decoded request, by whom it addresses and what the service replies. */
  ghost predicate Treated(
    c: Config, header: Header, request: Pdu.RequestPdu, reply: Reply, broken: Option<IoKind>, h: Handled)
    requires HeaderOf(c.framing, header)
  {
    if ToAll(c, header) then h == Handled([Dispatched(header, request)], Continue)
    else if !ToThis(c, header) then h == Handled([], Continue)
    else
      match reply
      case Answer(response) => AnsweredWith(c.framing, header, request, response, broken, h)
      case Raise(exception) =>
        AnsweredWith(c.framing, header, request, Pdu.Exception(request.Function(), exception), broken, h)
      case Withhold => h == Handled([Dispatched(header, request)], Continue)
  }

  lemma {:induction false} RequestTreated(
    c: Config, header: Header, request: Pdu.RequestPdu, reply: Reply, broken: Option<IoKind>)
    requires HeaderOf(c.framing, header)
    ensures Treated(c, header, request, reply, broken, HandleRequest(c, header, request, reply, broken))
  {
    hide Pdu.EncodeResponse;
    match reply
    case Answer(response) => ResponseEncodeErrors(response);
    case Raise(exception) => ResponseEncodeErrors(Pdu.Exception(request.Function(), exception));
    case Withhold =>
  }

  /**
   * A request that is received and decodes: one for this server is dispatched and its answer, or its exception under
   * the request's own function, is written under its header; one for all is dispatched only; another unit's is ignored.
   */
  lemma {:induction false} RequestAnswered(
    c: Config, link: Link, turn: Turn, adu: Bytes, header: Header, request: Pdu.RequestPdu)
    requires !turn.signalled
    requires RecvAdu(c.framing, Request, link.receiver, link.events + turn.arrived).outcome == Ready(Ok(adu))
    requires DecodeAdu(c.framing, Request, adu) == Ok((header, RequestMessage(request)))
    ensures HeaderOf(c.framing, header)
    ensures Treated(c, header, request, turn.reply, turn.broken, Pass(c, link, turn).0)
  {
    hide RecvAdu;
    hide HandleRequest;
    hide Treated;
    DecodedAs(c.framing, adu, header, request);
    RequestTreated(c, header, request, turn.reply, turn.broken);
  }

  lemma {:induction false} DecodedAs(f: Framing, adu: Bytes, header: Header, request: Pdu.RequestPdu)
    requires DecodeAdu(f, Request, adu) == Ok((header, RequestMessage(request)))
    ensures DecodeRequestAdu(f, adu) == Ok((header, request)) && HeaderOf(f, header)
  {
    hide Split;
    hide Pdu.DecodeRequest;
    WrapSplit(f, adu);
  }

  /** What a pass received that is no request: the failure of the receive, or of decoding what it delimited. */
  ghost predicate Fails(c: Config, link: Link, turn: Turn, error: Error) {
    && !turn.signalled
    && match RecvAdu(c.framing, Request, link.receiver, link.events + turn.arrived).outcome
       case Pending => false
       case Ready(Err(e)) => e == error
       case Ready(Ok(adu)) => DecodeAdu(c.framing, Request, adu) == Err(error)
  }

  /**
   * A failure is reported once, unless it is the end of file; it ends the link if it is an I/O failure, a closed
   * connection or a timeout, and where a length field locates the next frame; otherwise the link goes on.
   */
  lemma {:induction false} FailureReported(c: Config, link: Link, turn: Turn, error: Error)
    requires Fails(c, link, turn, error)
    ensures Pass(c, link, turn).0
            == if error == Io(UnexpectedEof) then Handled([], Stop(Reason.Closed))
               else if error.Io? || error.ConnectionClosed? || error.Timeout? || c.framing.Tcp? || c.framing.RtuOverTcp?
               then Handled([Reported(error)], Stop(Reason.Failed(error)))
               else Handled([Reported(error)], Continue)
  {
    hide RecvAdu;
    hide Split;
    hide Pdu.DecodeRequest;
  }

  /** A pass ends the link for shutdown exactly when the signal is there first, or comes before a frame is complete. */
  lemma {:induction false} ShutdownEnds(c: Config, link: Link, turn: Turn)
    ensures Pass(c, link, turn).0.next == Stop(ShuttingDown)
            <==> turn.signalled
                 || (turn.interrupted
                     && RecvAdu(c.framing, Request, link.receiver, link.events + turn.arrived).outcome.Pending?)
    ensures Pass(c, link, turn).0.next == Stop(ShuttingDown) ==> Pass(c, link, turn).0.notes == []
    ensures turn.signalled ==> Pass(c, link, turn).1 == link
  {
    hide RecvAdu;
    hide DecodeRequestAdu;
    hide EncodeAdu;
  }

  // ---- A whole stream ----

  /** An answer to each request: nothing signalled, nothing broken. */
  function Answering(responses: seq<Pdu.ResponsePdu>, arrived: seq<seq<Event>>): (turns: seq<Turn>)
    requires |arrived| == |responses|
    ensures |turns| == |responses|
    ensures forall i :: 0 <= i < |turns| ==> turns[i] == Turn(false, arrived[i], false, Answer(responses[i]), None)
  {
    seq(|responses|, i requires 0 <= i < |responses| => Turn(false, arrived[i], false, Answer(responses[i]), None))
  }

  /** Requests for this server alone, with responses that encode. */
  ghost predicate Answerable(c: Config, xs: seq<Sent>, responses: seq<Pdu.ResponsePdu>) {
    && |xs| == |responses|
    && (forall i :: 0 <= i < |xs| ==> Sendable(c.framing, Request, xs[i]))
    && (forall i :: 0 <= i < |xs| ==> ToThis(c, xs[i].header))
    && (forall i :: 0 <= i < |xs| ==> EncodeMessage(ResponseMessage(responses[i])).Ok?)
  }

  /** Each request is dispatched and then answered with its response, under its header, and nothing else is done. */
  ghost predicate AllAnswered(c: Config, xs: seq<Sent>, responses: seq<Pdu.ResponsePdu>, notes: seq<Note>)
    requires Answerable(c, xs, responses)
  {
    && |notes| == 2 * |xs|
    && forall i :: 0 <= i < |xs| ==> Pair(c, xs[i], responses[i], notes[2 * i], notes[2 * i + 1])
  }

  ghost predicate Pair(c: Config, x: Sent, response: Pdu.ResponsePdu, first: Note, second: Note)
    requires Sendable(c.framing, Request, x)
  {
    && first == Dispatched(x.header, x.message.request)
    && second.Responded? && second.header == x.header && second.response == response
    && EncodeAdu(c.framing, x.header, ResponseMessage(response)) == Ok(second.adu)
  }

  lemma {:induction false} MessageAnswered(c: Config, x: Sent, response: Pdu.ResponsePdu, turn: Turn)
    requires Sendable(c.framing, Request, x) && ToThis(c, x.header) && EncodeMessage(ResponseMessage(response)).Ok?
    requires turn.reply == Answer(response) && turn.broken.None?
    ensures var h := HandleAdu(c, PieceOf(c.framing, Request, x).frame, turn);
            h.next.Continue? && |h.notes| == 2 && Pair(c, x, response, h.notes[0], h.notes[1])
  {
    hide EncodeMessage;
    HandlesMessage(c, x, turn);
    hide HandleAdu;
    hide HandleRequest;
    RequestTreated(c, x.header, x.message.request, turn.reply, turn.broken);
    AduWritten(c.framing, x.header, ResponseMessage(response));
    hide EncodeAdu;
  }

  lemma {:induction false} FramesAnswered(
    c: Config, xs: seq<Sent>, responses: seq<Pdu.ResponsePdu>, arrived: seq<seq<Event>>, got: seq<Option<Bytes>>)
    requires Answerable(c, xs, responses) && |arrived| == |xs| && |got| == |xs|
    requires forall i :: 0 <= i < |xs| ==> got[i] == Some(PieceOf(c.framing, Request, xs[i]).frame)
    ensures var h := InOrder(c, got, Answering(responses, arrived));
            h.next.Continue? && AllAnswered(c, xs, responses, h.notes)
    decreases |xs|
  {
    hide Sendable;
    hide PieceOf;
    hide HandleAdu;
    hide Pair;
    hide EncodeMessage;
    var turns := Answering(responses, arrived);
    if xs == [] {
    } else {
      MessageAnswered(c, xs[0], responses[0], turns[0]);
      var first := HandleAdu(c, got[0].value, turns[0]);
      assert turns[1..] == Answering(responses[1..], arrived[1..]);
      FramesAnswered(c, xs[1..], responses[1..], arrived[1..], got[1..]);
      var others := InOrder(c, got[1..], turns[1..]).notes;
      var notes := first.notes + others;
      forall i | 0 <= i < |xs|
        ensures Pair(c, xs[i], responses[i], notes[2 * i], notes[2 * i + 1])
      {
        if i > 0 {
          assert notes[2 * i] == others[2 * (i - 1)] && notes[2 * i + 1] == others[2 * (i - 1) + 1];
          assert Pair(c, xs[1..][i - 1], responses[1..][i - 1], others[2 * (i - 1)], others[2 * (i - 1) + 1]);
        }
      }
    }
  }

  lemma {:induction false} AllArrive(pieces: seq<Piece>, turns: seq<Turn>)
    requires |turns| == |pieces| && forall i :: 0 <= i < |turns| ==> turns[i].arrived == []
    ensures var got := Arrivals(pieces, Joined(pieces), turns);
            forall i :: 0 <= i < |pieces| ==> got[i] == Some(pieces[i].frame)
    decreases |pieces|
  {
    if pieces == [] {
    } else {
      var have, need := Joined(pieces), |pieces[0].garbage| + |pieces[0].frame|;
      assert have + Payload([]) == have;
      assert have[need..] == Joined(pieces[1..]);
      AllArrive(pieces[1..], turns[1..]);
    }
  }

  /**
   * End to end: encoded requests for this server, run together on one stream and split into reads in any way, are all
   * answered, in order, each with the response the service gave, written under that request's own header.
   */
  lemma {:induction false} StreamAnswered(c: Config, events: seq<Event>, xs: seq<Sent>, responses: seq<Pdu.ResponsePdu>)
    requires !c.framing.Rtu? && Answerable(c, xs, responses) && Steady(c.framing, events)
    requires Payload(events) == Joined(OnWire(c.framing, Request, xs))
    ensures var turns := Answering(responses, seq(|xs|, _ => []));
            var h := Exchange(c, Link(Receiver([], false), events), turns);
            h.next.Continue? && AllAnswered(c, xs, responses, h.notes)
  {
    hide EncodeMessage;
    hide InOrder;
    hide Exchange;
    hide AllAnswered;
    hide Framed;
    var quiet: seq<seq<Event>> := seq(|xs|, _ => []);
    var turns, pieces := Answering(responses, quiet), OnWire(c.framing, Request, xs);
    forall k | 0 <= k < |pieces|
      ensures Framed(c.framing, Request, pieces[k].frame) && Skippable(c.framing, pieces[k].garbage)
    {
      assert pieces[k] == PieceOf(c.framing, Request, xs[k]);
      EncodedFramed(c.framing, xs[k].header, xs[k].message);
    }
    NothingArrives(turns);
    Nothing(Payload(events));
    ServedInOrder(c, Link(Receiver([], false), events), turns, pieces);
    AllArrive(pieces, turns);
    FramesAnswered(c, xs, responses, quiet, Arrivals(pieces, Payload(events), turns));
  }

  lemma {:induction false} NothingArrives(turns: seq<Turn>)
    requires forall i :: 0 <= i < |turns| ==> turns[i].arrived == []
    ensures Arriving(turns) == []
  {
    if turns == [] {
    } else {
      NothingArrives(turns[1..]);
    }
  }

  /** On a silence-delimited line: each request in a burst of its own, and each is answered. */
  lemma {:induction false} BurstsAnswered(
    c: Config, bursts: seq<seq<Chunk>>, xs: seq<Sent>, responses: seq<Pdu.ResponsePdu>)
    requires c.framing.Rtu? && Answerable(c, xs, responses) && |bursts| == |xs|
    requires forall i :: 0 <= i < |xs| ==> Together(bursts[i]) == PieceOf(c.framing, Request, xs[i]).frame
    ensures var turns := Answering(responses, seq(|xs|, i requires 0 <= i < |xs| => Datas(bursts[i]) + [Elapsed]));
            var h := Exchange(c, Link(Receiver([], false), []), turns);
            h.next.Continue? && AllAnswered(c, xs, responses, h.notes)
  {
    hide EncodeMessage;
    hide InOrder;
    hide Exchange;
    hide AllAnswered;
    hide Framed;
    var arrived := seq(|xs|, i requires 0 <= i < |xs| => Datas(bursts[i]) + [Elapsed]);
    BurstPiecesAt(bursts);
    forall k | 0 <= k < |bursts|
      ensures Framed(Framing.Rtu, Request, Together(bursts[k]))
    {
      EncodedFramed(c.framing, xs[k].header, xs[k].message);
    }
    BurstsServedInOrder(c, Answering(responses, arrived), bursts);
    FramesAnswered(c, xs, responses, arrived, Gathered(bursts));
  }

  lemma {:induction false} BurstPiecesAt(bursts: seq<seq<Chunk>>)
    ensures forall i :: 0 <= i < |bursts| ==>
      BurstPieces(bursts)[i] == Piece([], Together(bursts[i])) && Gathered(bursts)[i] == Some(Together(bursts[i]))
  {
    if bursts == [] {
    } else {
      BurstPiecesAt(bursts[1..]);
      forall i | 0 <= i < |bursts|
        ensures BurstPieces(bursts)[i] == Piece([], Together(bursts[i]))
        ensures Gathered(bursts)[i] == Some(Together(bursts[i]))
      {
        assert i > 0 ==> bursts[i] == bursts[1..][i - 1];
      }
    }
  }
}
