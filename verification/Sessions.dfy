/** Whole sequences of receives over one transport. */
module Sessions {
  import opened Basics
  import opened Messages
  import opened Rtu
  import opened Extent
  import opened ExtentAgreement
  import opened Framings
  import opened Ascii
  import opened Stream
  import opened Delivery
  import Pdu
  import Tcp

  /** The outcomes of several receives in a row, and what is left. */
  datatype Receipts = Receipts(outcomes: seq<Poll<Bytes>>, receiver: Receiver, events: seq<Event>)

  function ReceiveAll(f: Framing, direction: Direction, s: Receiver, events: seq<Event>, n: nat): Receipts
    decreases n
  {
    if n == 0 then Receipts([], s, events)
    else
      var first := RecvAdu(f, direction, s, events);
      var others := ReceiveAll(f, direction, first.receiver, first.events, n - 1);
      Receipts([first.outcome] + others.outcomes, others.receiver, others.events)
  }

  /** A frame on the stream and what has to be skipped before it. */
  datatype Piece = Piece(garbage: Bytes, frame: Bytes)

  function Joined(pieces: seq<Piece>): Bytes {
    if pieces == [] then [] else pieces[0].garbage + (pieces[0].frame + Joined(pieces[1..]))
  }

  function Outcomes(pieces: seq<Piece>): seq<Poll<Bytes>> {
    if pieces == [] then [] else [Ready(Ok(pieces[0].frame))] + Outcomes(pieces[1..])
  }

  predicate Readable(f: Framing, direction: Direction, pieces: seq<Piece>) {
    forall i :: 0 <= i < |pieces| ==> Framed(f, direction, pieces[i].frame) && Skippable(f, pieces[i].garbage)
  }

  /**
   * For any concatenation of frames and any split of it into reads, as many receives yield exactly those frames in
   * order, and what follows them is kept.
   */
  lemma {:induction false} FramesDelivered(
    f: Framing, direction: Direction, s: Receiver, events: seq<Event>, pieces: seq<Piece>, surplus: Bytes)
    requires !f.Rtu? && Readable(f, direction, pieces) && Steady(f, events) && !s.receiving
    requires s.buffer + Payload(events) == Joined(pieces) + surplus
    ensures var r := ReceiveAll(f, direction, s, events, |pieces|);
            && r.outcomes == Outcomes(pieces) && !r.receiver.receiving
            && r.receiver.buffer + Payload(r.events) == surplus && Steady(f, r.events)
    decreases |pieces|
  {
    hide ReadAdu;
    hide Framed;
    hide Steady;
    hide Skippable;
    if pieces == [] {
      assert [] + surplus == surplus;
    } else {
      var piece, rest := pieces[0], Joined(pieces[1..]);
      assert Joined(pieces) + surplus == piece.garbage + (piece.frame + (rest + surplus));
      ReceiveOne(f, direction, s.buffer, events, piece.garbage, piece.frame, rest + surplus);
      var first := RecvAdu(f, direction, s, events);
      FramesDelivered(f, direction, first.receiver, first.events, pieces[1..], surplus);
    }
  }

  // ---- Messages ----

  /** `recv_request` and `recv_response`: the ADU has left the buffer before it is decoded. */
  function Decoded(f: Framing, direction: Direction, outcome: Poll<Bytes>): Poll<(Header, Message)> {
    match outcome
    case Pending => Pending
    case Ready(Err(error)) => Ready(Err(error))
    case Ready(Ok(adu)) => Ready(DecodeAdu(f, direction, adu))
  }

  function DecodedAll(f: Framing, direction: Direction, outcomes: seq<Poll<Bytes>>): (d: seq<Poll<(Header, Message)>>)
    ensures |d| == |outcomes| && forall i :: 0 <= i < |d| ==> d[i] == Decoded(f, direction, outcomes[i])
  {
    seq(|outcomes|, i requires 0 <= i < |outcomes| => Decoded(f, direction, outcomes[i]))
  }

  lemma {:induction false} OutcomesAt(pieces: seq<Piece>, i: nat)
    requires i < |pieces|
    ensures |Outcomes(pieces)| == |pieces| && Outcomes(pieces)[i] == Ready(Ok(pieces[i].frame))
  {
    if i > 0 {
      OutcomesAt(pieces[1..], i - 1);
    } else if |pieces| > 1 {
      OutcomesAt(pieces[1..], 0);
    }
  }

  /** The events bring these frames: run together in any split into reads, or, under RTU, each in a burst of its own. */
  ghost predicate Brings(f: Framing, events: seq<Event>, pieces: seq<Piece>) {
    if f.Rtu? then exists bursts, rest :: events == Bursts(bursts) + rest && pieces == BurstPieces(bursts)
    else Steady(f, events) && exists surplus :: Payload(events) == Joined(pieces) + surplus
  }

  /** Under all four rules: as many receives yield exactly the frames the events bring, in order. */
  lemma {:induction false} BroughtDelivered(f: Framing, direction: Direction, events: seq<Event>, pieces: seq<Piece>)
    requires Readable(f, direction, pieces) && Brings(f, events, pieces)
    ensures ReceiveAll(f, direction, Receiver([], false), events, |pieces|).outcomes == Outcomes(pieces)
  {
    hide ReceiveAll;
    hide Readable;
    if f.Rtu? {
      var bursts, rest :| events == Bursts(bursts) + rest && pieces == BurstPieces(bursts);
      BurstsDelivered(direction, bursts, rest);
    } else {
      var surplus :| Payload(events) == Joined(pieces) + surplus;
      Nothing(Payload(events));
      FramesDelivered(f, direction, Receiver([], false), events, pieces, surplus);
    }
  }

  /**
   * A frame that does not decode costs itself and nothing more: receive by receive, each outcome is the decoding of the
   * frame in that place, so the frames after a failing one still arrive.
   */
  lemma {:induction false} FailureContained(
    f: Framing, direction: Direction, events: seq<Event>, pieces: seq<Piece>, i: nat)
    requires Readable(f, direction, pieces) && Brings(f, events, pieces) && i < |pieces|
    ensures var r := DecodedAll(f, direction, ReceiveAll(f, direction, Receiver([], false), events, |pieces|).outcomes);
            |r| == |pieces| && r[i] == Ready(DecodeAdu(f, direction, pieces[i].frame))
  {
    hide ReceiveAll;
    hide Readable;
    hide Brings;
    hide DecodeAdu;
    BroughtDelivered(f, direction, events, pieces);
    OutcomesAt(pieces, i);
  }

  /** A message as its sender frames it, behind whatever noise precedes it. */
  datatype Sent = Sent(garbage: Bytes, header: Header, message: Message)

  /** What a sender can put on the stream and a receiver of this direction can delimit. */
  predicate Sendable(f: Framing, direction: Direction, x: Sent) {
    && HeaderOf(f, x.header) && Skippable(f, x.garbage)
    && EncodeMessage(x.message).Ok? && x.message.Canonical() && x.message.Direction() == direction
    && (f.RtuOverTcp? ==> Derivable(x.message))
    && (f.Rtu? ==> |EncodeMessage(x.message).value| < 253)
  }

  function PieceOf(f: Framing, direction: Direction, x: Sent): (piece: Piece)
    requires Sendable(f, direction, x)
    ensures piece.garbage == x.garbage && EncodeAdu(f, x.header, x.message) == Ok(piece.frame)
  {
    Piece(x.garbage, EncodeAdu(f, x.header, x.message).value)
  }

  function OnWire(f: Framing, direction: Direction, xs: seq<Sent>): (pieces: seq<Piece>)
    requires forall i :: 0 <= i < |xs| ==> Sendable(f, direction, xs[i])
    ensures |pieces| == |xs| && forall i :: 0 <= i < |xs| ==> pieces[i] == PieceOf(f, direction, xs[i])
  {
    seq(|xs|, i requires 0 <= i < |xs| && Sendable(f, direction, xs[i]) => PieceOf(f, direction, xs[i]))
  }

  lemma {:induction false} AsciiFramed(adu: Bytes)
    requires SplitAscii(adu).Ok?
    ensures 3 <= |adu| && adu[0] == START && FindEnd(adu, 0) == |adu| - 2
  {
    hide SplitAscii;
    Delimiters(adu);
    assert adu[|adu| - 2] == CR && adu[|adu| - 1] == LF by {
      assert adu[|adu| - 2..][0] == CR && adu[|adu| - 2..][1] == LF;
    }
    assert EndsAt(adu, |adu| - 2);
    assert forall k :: 0 <= k < |adu| - 2 ==> !EndsAt(adu, k);
  }

  lemma {:induction false} EncodedFramed(f: Framing, h: Header, m: Message)
    requires HeaderOf(f, h) && EncodeMessage(m).Ok? && m.Canonical()
    requires f.RtuOverTcp? ==> Derivable(m)
    requires f.Rtu? ==> |EncodeMessage(m).value| < 253
    ensures Framed(f, m.Direction(), EncodeAdu(f, h, m).value)
  {
    hide EncodeMessage;
    hide WrapRtu;
    hide WrapAscii;
    hide Tcp.WrapTcp;
    hide SplitAscii;
    hide DeriveExtent;
    MessageWritten(m);
    var pdu := EncodeMessage(m).value;
    match f
    case Tcp => Tcp.SplitWrappedTcp(Tcp.MbapHeader(h.transaction, h.unit), pdu);
    case Ascii =>
      SplitWrappedAscii(h.unit, pdu);
      AsciiFramed(WrapAscii(h.unit, pdu));
    case Rtu => RtuLength(h.unit, pdu);
    case RtuOverTcp =>
      EncodedIsFrame(m, h.unit);
      SplitWrapped(f, h, pdu);
  }

  /**
   * End to end, in every framing: messages encoded by a sender, run together on one stream and split into reads in any
   * way, or each in its burst on a silence-delimited line, come out of the receiver one per receive, in order, each with
   * its own header.
   */
  lemma {:induction false} MessagesDelivered(
    f: Framing, direction: Direction, events: seq<Event>, xs: seq<Sent>, i: nat)
    requires i < |xs| && forall k :: 0 <= k < |xs| ==> Sendable(f, direction, xs[k])
    requires Brings(f, events, OnWire(f, direction, xs))
    ensures var r := DecodedAll(f, direction, ReceiveAll(f, direction, Receiver([], false), events, |xs|).outcomes);
            |r| == |xs| && r[i] == Ready(Ok((xs[i].header, xs[i].message)))
  {
    hide EncodeMessage;
    hide DecodeAdu;
    hide Framed;
    hide ReceiveAll;
    hide Brings;
    var pieces := OnWire(f, direction, xs);
    forall k | 0 <= k < |pieces|
      ensures Framed(f, direction, pieces[k].frame) && Skippable(f, pieces[k].garbage)
    {
      assert pieces[k] == PieceOf(f, direction, xs[k]);
      EncodedFramed(f, xs[k].header, xs[k].message);
    }
    FailureContained(f, direction, events, pieces, i);
    assert pieces[i] == PieceOf(f, direction, xs[i]);
    AduWritten(f, xs[i].header, xs[i].message);
  }

  // ---- Silence ----

  function Datas(chunks: seq<Chunk>): (events: seq<Event>)
    ensures |events| == |chunks|
  {
    if chunks == [] then [] else [Data(chunks[0])] + Datas(chunks[1..])
  }

  function Together(chunks: seq<Chunk>): Bytes {
    if chunks == [] then [] else chunks[0] + Together(chunks[1..])
  }

  lemma {:induction false} SilenceGathers(
    direction: Direction, buffer: Bytes, chunks: seq<Chunk>, gap: Event, rest: seq<Event>)
    requires buffer != [] && (gap.Elapsed? || gap.Closed?)
    ensures var all, r := buffer + Together(chunks), ReadAdu(Rtu, direction, buffer, Datas(chunks) + ([gap] + rest));
            if |all| < 256 then r == Read(Ready(Ok(all)), [], rest) else r.outcome == Ready(Err(AduTooLarge))
    decreases |chunks|
  {
    var events := Datas(chunks) + ([gap] + rest);
    if |buffer| >= 256 {
    } else if chunks == [] {
      assert buffer + [] == buffer && events == [gap] + rest && events[1..] == rest;
    } else {
      assert events[1..] == Datas(chunks[1..]) + ([gap] + rest);
      SilenceGathers(direction, buffer + chunks[0], chunks[1..], gap, rest);
      Assoc(buffer, chunks[0], Together(chunks[1..]));
    }
  }

  /**
   * On a silence-delimited line, bytes that come without a gap and are followed by one, or by the close of the stream,
   * are delivered as one ADU exactly when they are fewer than 256; an ADU of the full legal length is refused.
   */
  lemma {:induction false} SilenceDelivers(direction: Direction, chunks: seq<Chunk>, gap: Event, rest: seq<Event>)
    requires chunks != [] && (gap.Elapsed? || gap.Closed?)
    ensures var all, r := Together(chunks), ReadAdu(Rtu, direction, [], Datas(chunks) + ([gap] + rest));
            if |all| < 256 then r == Read(Ready(Ok(all)), [], rest) else r.outcome == Ready(Err(AduTooLarge))
  {
    var events := Datas(chunks) + ([gap] + rest);
    assert events[1..] == Datas(chunks[1..]) + ([gap] + rest);
    Nothing(chunks[0]);
    SilenceGathers(direction, chunks[0], chunks[1..], gap, rest);
  }

  /** Bursts of bytes, each followed by a gap. */
  function Bursts(bursts: seq<seq<Chunk>>): seq<Event> {
    if bursts == [] then [] else Datas(bursts[0]) + ([Elapsed] + Bursts(bursts[1..]))
  }

  function BurstPieces(bursts: seq<seq<Chunk>>): (pieces: seq<Piece>)
    ensures |pieces| == |bursts|
  {
    if bursts == [] then [] else [Piece([], Together(bursts[0]))] + BurstPieces(bursts[1..])
  }

  /** Bursts of fewer than 256 bytes are delivered one by one, whatever reads they are split into. */
  lemma {:induction false} BurstsDelivered(direction: Direction, bursts: seq<seq<Chunk>>, rest: seq<Event>)
    requires Readable(Rtu, direction, BurstPieces(bursts))
    ensures ReceiveAll(Rtu, direction, Receiver([], false), Bursts(bursts) + rest, |bursts|)
            == Receipts(Outcomes(BurstPieces(bursts)), Receiver([], false), rest)
    decreases |bursts|
  {
    if bursts == [] {
      assert [] + rest == rest;
    } else {
      hide ReadAdu;
      var burst, later, pieces := bursts[0], Bursts(bursts[1..]) + rest, BurstPieces(bursts);
      assert Framed(Rtu, direction, pieces[0].frame);
      assert Bursts(bursts) + rest == Datas(burst) + ([Elapsed] + later);
      assert pieces[1..] == BurstPieces(bursts[1..]);
      SilenceDelivers(direction, burst, Elapsed, later);
      BurstsDelivered(direction, bursts[1..], rest);
    }
  }

  /** So an RTU message reaches the decoder exactly when its PDU is shorter than the 253 bytes a PDU may have. */
  lemma {:induction false} SilenceDeliversMessage(h: Header, m: Message, chunks: seq<Chunk>, rest: seq<Event>)
    requires HeaderOf(Rtu, h) && EncodeMessage(m).Ok? && m.Canonical()
    requires chunks != [] && Ok(Together(chunks)) == EncodeAdu(Rtu, h, m)
    ensures Decoded(Rtu, m.Direction(), ReadAdu(Rtu, m.Direction(), [], Datas(chunks) + ([Elapsed] + rest)).outcome)
            == Ready(if |EncodeMessage(m).value| < 253 then Ok((h, m)) else Err(AduTooLarge))
  {
    hide EncodeMessage;
    hide DecodeAdu;
    hide ReadAdu;
    SilenceDelivers(m.Direction(), chunks, Elapsed, rest);
    AduWritten(Rtu, h, m);
    MessageWritten(m);
    RtuLength(h.unit, EncodeMessage(m).value);
  }

  lemma {:induction false} RtuLength(address: Byte, pdu: Bytes)
    ensures |WrapRtu(address, pdu)| == |pdu| + 3
  {
  }

  lemma {:induction false} LongestCustom(data: Bytes)
    requires |data| == 252
    ensures var m := RequestMessage(Pdu.RequestPdu.Custom(65, data));
            m.Canonical() && EncodeMessage(m).Ok? && |EncodeMessage(m).value| == 253
  {
  }

  /** There is such a message: a custom request with 252 data bytes decodes, yet its own framing's reader refuses it. */
  lemma {:induction false} LongestRtuRefused(data: Bytes, chunks: seq<Chunk>, rest: seq<Event>)
    requires |data| == 252 && chunks != []
    requires Ok(Together(chunks)) == EncodeAdu(Rtu, Address(1), RequestMessage(Pdu.RequestPdu.Custom(65, data)))
    ensures DecodeAdu(Rtu, Request, Together(chunks)) == Ok((Address(1), RequestMessage(Pdu.RequestPdu.Custom(65, data))))
    ensures ReadAdu(Rtu, Request, [], Datas(chunks) + ([Elapsed] + rest)).outcome == Ready(Err(AduTooLarge))
  {
    hide DecodeAdu;
    hide ReadAdu;
    hide EncodeMessage;
    hide WrapRtu;
    var m := RequestMessage(Pdu.RequestPdu.Custom(65, data));
    LongestCustom(data);
    RtuLength(1, EncodeMessage(m).value);
    AduWritten(Rtu, Address(1), m);
    SilenceDelivers(Request, chunks, Elapsed, rest);
  }

  // ---- Whole sessions ----

  /** One receive of a session: which direction, and what the stream did during it before it completed or was abandoned. */
  datatype Round = Round(direction: Direction, events: seq<Event>)

  function After(f: Framing, s: Receiver, rounds: seq<Round>): Receiver
    decreases |rounds|
  {
    if rounds == [] then s else After(f, RecvAdu(f, rounds[0].direction, s, rounds[0].events).receiver, rounds[1..])
  }

  /** An abandoned receive is refused ever after: nothing is read, and the receiver stays as it is. */
  lemma {:induction false} LatchHolds(f: Framing, s: Receiver, rounds: seq<Round>)
    requires s.receiving
    ensures After(f, s, rounds) == s
    decreases |rounds|
  {
    if rounds == [] {
    } else {
      LatchHolds(f, s, rounds[1..]);
    }
  }

  /** Under a self-locating framing a failed receive leaves nothing behind; under the others it drops nothing. */
  lemma {:induction false} FailureLeaves(f: Framing, direction: Direction, s: Receiver, events: seq<Event>)
    requires !s.receiving
    requires RecvAdu(f, direction, s, events).outcome.Ready? && RecvAdu(f, direction, s, events).outcome.result.Err?
    ensures var r := RecvAdu(f, direction, s, events);
            && !r.receiver.receiving
            && (BoundaryOf(f).SelfLocating() ==> r.receiver.buffer == [])
            && (!BoundaryOf(f).SelfLocating()
                ==> r.receiver.buffer + Payload(r.events) == s.buffer + Payload(events))
  {
    hide ReadAdu;
    if !BoundaryOf(f).SelfLocating() {
      Conserved(f, direction, s.buffer, events);
      var r := ReadAdu(f, direction, s.buffer, events);
      Nothing(r.buffer + Payload(r.events));
    }
  }
}
