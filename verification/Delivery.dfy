/** However reads split the stream, receives yield the ADUs it is made of. */
module Delivery {
  import opened Basics
  import opened Messages
  import opened Extent
  import opened Framings
  import opened Ascii
  import opened Stream
  import Tcp

  /** The bytes still to come. */
  function Payload(events: seq<Event>): Bytes {
    if events == [] then []
    else (if events[0].Data? then events[0].bytes else []) + Payload(events[1..])
  }

  lemma {:induction false} PullPayload(events: seq<Event>, midAdu: bool, timed: bool)
    ensures var p := PullNext(events, midAdu, timed);
            Payload(events) == match p
                               case Pulled(bytes, rest) => bytes + Payload(rest)
                               case Broken(_, rest) => Payload(rest)
                               case Quiet(rest) => Payload(rest)
                               case Starved => []
    decreases |events|
  {
    if events == [] {
    } else {
      assert [] + Payload(events[1..]) == Payload(events[1..]);
      if events[0].Elapsed? {
        PullPayload(events[1..], midAdu, timed);
      }
    }
  }

  /** A byte string that is one ADU of the framing and nothing more. */
  predicate OneAdu(f: Framing, direction: Direction, adu: Bytes) {
    match f
    case Tcp => Tcp.AduLen(adu) == Ok(|adu|)
    case Ascii => 3 <= |adu| && adu[0] == START && FindEnd(adu, 0) == |adu| - 2
    case Rtu => 1 <= |adu| < MaxAdu(Rtu)
    case RtuOverTcp => IsFrame(direction, adu)
  }

  // ---- What every receive keeps ----

  /** The bytes a receive hands out. */
  function HandedOut(outcome: Poll<Bytes>): Bytes {
    match outcome
    case Ready(Ok(adu)) => adu
    case _ => []
  }

  /** Bytes that may stand before a frame: none, except under ASCII, where anything but a start character may. */
  predicate Skippable(f: Framing, garbage: Bytes) {
    if f.Ascii? then START !in garbage else garbage == []
  }

  /** What one look at the buffer discards: under ASCII, everything before a start character. */
  function Skipped(f: Framing, buffer: Bytes): Bytes {
    if f.Ascii? then buffer[..IndexOf(buffer, START, 0)] else []
  }

  /** What a whole receive discards. */
  function Discarded(f: Framing, direction: Direction, buffer: Bytes, events: seq<Event>): Bytes
    decreases |events|
  {
    Skipped(f, buffer)
    + match Decide(f, direction, buffer)
      case Await(kept) =>
        (match PullNext(events, kept != [], Timed(f, kept))
         case Pulled(bytes, rest) => Discarded(f, direction, kept + bytes, rest)
         case _ => [])
      case _ => []
  }

  /** What a receive started with, in terms of what it dropped, handed out and left behind. */
  ghost predicate Balanced(start: Bytes, dropped: Bytes, r: Read) {
    start == dropped + (HandedOut(r.outcome) + (r.buffer + Payload(r.events)))
  }

  /**
   * No byte is lost, invented or reordered, however the stream behaves: what is discarded, handed out, kept and still to
   * come is what was kept and to come, in that order, and only ASCII discards, never a start character.
   */
  lemma {:induction false} Conserved(f: Framing, direction: Direction, buffer: Bytes, events: seq<Event>)
    ensures Balanced(buffer + Payload(events), Discarded(f, direction, buffer, events),
                     ReadAdu(f, direction, buffer, events))
    ensures Skippable(f, Discarded(f, direction, buffer, events))
    decreases |events|
  {
    hide Decide;
    hide PullNext;
    hide Skipped;
    DecideKeeps(f, direction, buffer);
    var drop := Skipped(f, buffer);
    Nothing(drop);
    match Decide(f, direction, buffer)
    case Deliver(adu, surplus) =>
      Assoc(drop, adu + surplus, Payload(events));
      Assoc(adu, surplus, Payload(events));
    case Refuse(_, kept) =>
      Assoc(drop, kept, Payload(events));
      Nothing(kept + Payload(events));
    case Await(kept) =>
      Assoc(drop, kept, Payload(events));
      PullPayload(events, kept != [], Timed(f, kept));
      match PullNext(events, kept != [], Timed(f, kept))
      case Starved => Nothing(kept + []);
      case Pulled(bytes, rest) =>
        Conserved(f, direction, kept + bytes, rest);
        ConservedOn(f, direction, drop, kept, bytes, rest);
      case Quiet(rest) => ConservedInterrupted(f, Timeout(InterCharacterGap), drop, kept, rest);
      case Broken(error, rest) => ConservedInterrupted(f, error, drop, kept, rest);
  }

  lemma {:induction false} ConservedOn(
    f: Framing, direction: Direction, drop: Bytes, kept: Bytes, bytes: Bytes, rest: seq<Event>)
    requires Skippable(f, drop)
    requires var later := Discarded(f, direction, kept + bytes, rest);
             Skippable(f, later) && Balanced(kept + bytes + Payload(rest), later, ReadAdu(f, direction, kept + bytes, rest))
    ensures var later := Discarded(f, direction, kept + bytes, rest);
            && Skippable(f, drop + later)
            && Balanced(drop + (kept + (bytes + Payload(rest))), drop + later,
                        ReadAdu(f, direction, kept + bytes, rest))
  {
    hide ReadAdu;
    hide Discarded;
    var r, later := ReadAdu(f, direction, kept + bytes, rest), Discarded(f, direction, kept + bytes, rest);
    Assoc(kept, bytes, Payload(rest));
    Assoc(drop, later, HandedOut(r.outcome) + (r.buffer + Payload(r.events)));
  }

  lemma {:induction false} ConservedInterrupted(f: Framing, error: Error, drop: Bytes, kept: Bytes, rest: seq<Event>)
    ensures Balanced(drop + (kept + Payload(rest)), drop, Interrupted(f, error, kept, rest))
  {
    Nothing(kept + Payload(rest));
    Nothing(Payload(rest));
  }

  lemma {:induction false} DecideKeeps(f: Framing, direction: Direction, buffer: Bytes)
    ensures var d := Decide(f, direction, buffer);
            buffer == Skipped(f, buffer) + match d
                                           case Deliver(adu, surplus) => adu + surplus
                                           case Refuse(_, kept) => kept
                                           case Await(kept) => kept
    ensures Skippable(f, Skipped(f, buffer))
  {
    hide DeriveExtent;
    if f.Ascii? {
      DelimitedKeeps(buffer);
    } else {
      hide IndexOf;
      hide FindEnd;
      hide DecideDelimited;
      CompleteFits(direction, buffer);
      Nothing(buffer);
    }
  }

  lemma {:induction false} DelimitedKeeps(buffer: Bytes)
    ensures var n, d := IndexOf(buffer, START, 0), DecideDelimited(buffer);
            && START !in buffer[..n]
            && buffer == buffer[..n] + match d
                                       case Deliver(adu, surplus) => adu + surplus
                                       case Refuse(_, kept) => kept
                                       case Await(kept) => kept
  {
    hide IndexOf;
    hide FindEnd;
    var kept := buffer[IndexOf(buffer, START, 0)..];
    var at := FindEnd(kept, 0);
    assert at < |kept| ==> kept == kept[..at + 2] + kept[at + 2..];
  }

  lemma {:induction false} CompleteFits(direction: Direction, buffer: Bytes)
    ensures var e := DeriveExtent(direction, buffer);
            e.Ok? && e.value.Complete? ==> 4 <= e.value.length <= |buffer|
  {
    hide DeriveExtent;
    var e := DeriveExtent(direction, buffer);
    if e.Ok? && e.value.Complete? {
      ExtentExact(direction, buffer, e.value.length);
    }
  }

  /** Whatever a receive hands out is one ADU of the framing, whatever the stream did. */
  lemma {:induction false} HandedOutIsAdu(f: Framing, direction: Direction, buffer: Bytes, events: seq<Event>)
    requires ReadAdu(f, direction, buffer, events).outcome.Ready?
    requires ReadAdu(f, direction, buffer, events).outcome.result.Ok?
    ensures OneAdu(f, direction, ReadAdu(f, direction, buffer, events).outcome.result.value)
    decreases |events|
  {
    match Decide(f, direction, buffer)
    case Deliver(adu, surplus) => DeliversAdu(f, direction, buffer);
    case Refuse(_, _) =>
    case Await(kept) =>
      match PullNext(events, kept != [], Timed(f, kept))
      case Pulled(bytes, rest) => HandedOutIsAdu(f, direction, kept + bytes, rest);
      case _ =>
  }

  lemma {:induction false} DeliversAdu(f: Framing, direction: Direction, buffer: Bytes)
    requires Decide(f, direction, buffer).Deliver?
    ensures OneAdu(f, direction, Decide(f, direction, buffer).adu)
  {
    hide DeriveExtent;
    CompleteFits(direction, buffer);
    var adu := Decide(f, direction, buffer).adu;
    match f
    case Tcp =>
      assert adu[..Tcp.PREFIX_LEN] == buffer[..Tcp.PREFIX_LEN];
    case Ascii =>
      var kept := buffer[IndexOf(buffer, START, 0)..];
      var at := FindEnd(kept, 0);
      assert kept != [] && kept[0] == START;
      assert forall k :: 0 <= k < |adu| ==> (EndsAt(adu, k) ==> EndsAt(kept, k));
      assert EndsAt(adu, at);
    case Rtu =>
    case RtuOverTcp => ExtentExact(direction, buffer, |adu|);
  }

  lemma {:induction false} PullShrinks(events: seq<Event>, midAdu: bool, timed: bool)
    ensures var p := PullNext(events, midAdu, timed);
            && (p.Pulled? ==> |Payload(events)| == |p.bytes| + |Payload(p.rest)|)
            && (p.Broken? || p.Quiet? ==> |Payload(events)| == |Payload(p.rest)|)
  {
    PullPayload(events, midAdu, timed);
  }

  /** Handing out an ADU uses up at least one of the bytes buffered or still to come. */
  lemma {:induction false} HandOutShrinks(f: Framing, direction: Direction, buffer: Bytes, events: seq<Event>)
    ensures var r := ReadAdu(f, direction, buffer, events);
            |r.buffer| + |Payload(r.events)| + |HandedOut(r.outcome)| <= |buffer| + |Payload(events)|
    ensures var r := ReadAdu(f, direction, buffer, events);
            r.outcome.Ready? && r.outcome.result.Ok? ==> HandedOut(r.outcome) != []
    decreases |events|
  {
    hide Decide;
    hide PullNext;
    DecideShrinks(f, direction, buffer);
    match Decide(f, direction, buffer)
    case Deliver(_, _) =>
    case Refuse(_, _) =>
    case Await(kept) =>
      PullShrinks(events, kept != [], Timed(f, kept));
      match PullNext(events, kept != [], Timed(f, kept))
      case Pulled(bytes, rest) => HandOutShrinks(f, direction, kept + bytes, rest);
      case _ =>
  }

  lemma {:induction false} DecideShrinks(f: Framing, direction: Direction, buffer: Bytes)
    ensures var d := Decide(f, direction, buffer);
            match d
            case Deliver(adu, surplus) => adu != [] && |adu| + |surplus| <= |buffer|
            case Refuse(_, kept) => |kept| <= |buffer|
            case Await(kept) => |kept| <= |buffer|
  {
    hide DeriveExtent;
    CompleteFits(direction, buffer);
  }

  /** The most a buffer ever holds when no read brings more than `most` bytes: every read starts below the maximum. */
  function BufferBound(f: Framing, most: nat): nat {
    MaxAdu(f) - 1 + most
  }

  /** No read brings more than `most` bytes. */
  predicate ReadsWithin(events: seq<Event>, most: nat) {
    forall i :: 0 <= i < |events| && events[i].Data? ==> |events[i].bytes| <= most
  }

  /** The most the buffer holds at any moment of a receive. */
  function Peak(f: Framing, direction: Direction, buffer: Bytes, events: seq<Event>): nat
    decreases |events|
  {
    match Decide(f, direction, buffer)
    case Await(kept) =>
      (match PullNext(events, kept != [], Timed(f, kept))
       case Pulled(bytes, rest) => Larger(|buffer|, Peak(f, direction, kept + bytes, rest))
       case _ => |buffer|)
    case _ => |buffer|
  }

  function Larger(a: nat, b: nat): nat {
    if a < b then b else a
  }

  lemma {:induction false} PullWithin(events: seq<Event>, midAdu: bool, timed: bool, most: nat)
    requires ReadsWithin(events, most)
    ensures var p := PullNext(events, midAdu, timed);
            p.Pulled? ==> |p.bytes| <= most && ReadsWithin(p.rest, most)
    decreases |events|
  {
    if events != [] && events[0].Elapsed? {
      PullWithin(events[1..], midAdu, timed, most);
    }
  }

  /** Whatever the stream brings, the buffer stays within the bound during a receive, and after it. */
  lemma {:induction false} ReadBounded(
    f: Framing, direction: Direction, buffer: Bytes, events: seq<Event>, most: nat)
    requires |buffer| <= BufferBound(f, most) && ReadsWithin(events, most)
    ensures Peak(f, direction, buffer, events) <= BufferBound(f, most)
    ensures |ReadAdu(f, direction, buffer, events).buffer| <= BufferBound(f, most)
    decreases |events|
  {
    hide Decide;
    hide PullNext;
    hide ReadsWithin;
    AwaitBounded(f, direction, buffer);
    match Decide(f, direction, buffer)
    case Deliver(adu, surplus) =>
    case Refuse(_, _) =>
    case Await(kept) =>
      PullWithin(events, kept != [], Timed(f, kept), most);
      match PullNext(events, kept != [], Timed(f, kept))
      case Pulled(bytes, rest) => ReadBounded(f, direction, kept + bytes, rest, most);
      case _ =>
  }

  lemma {:induction false} AwaitBounded(f: Framing, direction: Direction, buffer: Bytes)
    ensures var d := Decide(f, direction, buffer);
            match d
            case Deliver(_, surplus) => |surplus| <= |buffer|
            case Refuse(_, kept) => |kept| <= |buffer|
            case Await(kept) => |kept| < MaxAdu(f)
  {
    hide DeriveExtent;
    CompleteFits(direction, buffer);
    hide IndexOf;
    hide FindEnd;
  }

  // ---- Chunk independence ----

  /** A frame a reader accepts whole. */
  predicate Framed(f: Framing, direction: Direction, frame: Bytes) {
    OneAdu(f, direction, frame) && |frame| <= MaxAdu(f)
  }

  lemma {:induction false} FindAround(garbage: Bytes, s: Bytes)
    requires START !in garbage
    ensures IndexOf(garbage + s, START, 0) == |garbage| + IndexOf(s, START, 0)
  {
    var i := IndexOf(garbage + s, START, 0);
    var j := IndexOf(s, START, 0);
    assert forall k :: 0 <= k < |garbage| ==> (garbage + s)[k] == garbage[k];
    assert forall k :: 0 <= k < |s| ==> (garbage + s)[|garbage| + k] == s[k];
    if j < |s| {
      assert (garbage + s)[|garbage| + j] == START;
    }
    if i < |garbage + s| {
      assert s[i - |garbage|] == START;
    }
  }

  lemma {:induction false} DecideWhole(f: Framing, direction: Direction, garbage: Bytes, frame: Bytes, more: Bytes)
    requires !f.Rtu? && Framed(f, direction, frame) && Skippable(f, garbage)
    ensures Decide(f, direction, garbage + (frame + more)) == Deliver(frame, more)
  {
    hide DeriveExtent;
    var b := garbage + (frame + more);
    match f
    case Tcp =>
      assert b == frame + more && b[..Tcp.PREFIX_LEN] == frame[..Tcp.PREFIX_LEN];
    case Ascii =>
      FindAround(garbage, frame + more);
      assert IndexOf(frame + more, START, 0) == 0;
      assert b[|garbage|..] == frame + more;
      WholeEnds(frame, more);
    case RtuOverTcp =>
      assert b == frame + more;
      ExtentStable(direction, frame, more);
  }

  lemma {:induction false} WholeEnds(frame: Bytes, more: Bytes)
    requires FindEnd(frame, 0) == |frame| - 2
    ensures FindEnd(frame + more, 0) == |frame| - 2
  {
    assert EndsAt(frame + more, |frame| - 2);
    assert forall k :: 0 <= k < |frame| - 2 ==> EndsAt(frame + more, k) == EndsAt(frame, k);
  }

  lemma {:induction false} PartUnended(frame: Bytes, n: nat)
    requires FindEnd(frame, 0) == |frame| - 2 && n < |frame|
    ensures FindEnd(frame[..n], 0) == n
  {
    assert forall k :: 0 <= k < n && EndsAt(frame[..n], k) ==> EndsAt(frame, k);
  }

  /** Short of the frame's end, the reader waits, keeping exactly what has come of the frame. */
  lemma {:induction false} DecidePart(f: Framing, direction: Direction, garbage: Bytes, frame: Bytes, n: nat)
    requires !f.Rtu? && Framed(f, direction, frame) && Skippable(f, garbage) && n < |frame|
    ensures Decide(f, direction, garbage + frame[..n]) == Await(frame[..n])
  {
    hide DeriveExtent;
    var b := garbage + frame[..n];
    match f
    case Tcp =>
      assert b == frame[..n];
      if n >= Tcp.PREFIX_LEN {
        assert b[..Tcp.PREFIX_LEN] == frame[..Tcp.PREFIX_LEN];
      }
    case Ascii =>
      FindAround(garbage, frame[..n]);
      assert IndexOf(frame[..n], START, 0) == 0;
      assert b[|garbage|..] == frame[..n];
      PartUnended(frame, n);
    case RtuOverTcp =>
      assert b == frame[..n];
      ExtentExact(direction, frame, |frame|);
  }

  /** Events that only bring bytes: where no timer is ever armed, time may pass too. */
  predicate Steady(f: Framing, events: seq<Event>) {
    forall i :: 0 <= i < |events| ==>
      events[i].Data? || (events[i].Elapsed? && !BoundaryOf(f).SelfLocating())
  }

  lemma {:induction false} SteadyPull(f: Framing, events: seq<Event>, midAdu: bool, timed: bool)
    requires Steady(f, events) && Payload(events) != []
    requires timed ==> BoundaryOf(f).SelfLocating()
    ensures PullNext(events, midAdu, timed).Pulled? && Steady(f, PullNext(events, midAdu, timed).rest)
    decreases |events|
  {
    if events[0].Elapsed? {
      SteadyPull(f, events[1..], midAdu, timed);
    }
  }

  /** Splitting one concatenation at a point of another. */
  lemma {:induction false} Cut(a: Bytes, b: Bytes, c: Bytes, d: Bytes)
    requires a + b == c + d && |c| <= |a|
    ensures a == c + a[|c|..] && a[|c|..] + b == d
  {
    assert a[..|c|] == (a + b)[..|c|] == (c + d)[..|c|] == c;
    assert d == (c + d)[|c|..] == (a + b)[|c|..] == a[|c|..] + b;
  }

  /** A receive left these bytes of the stream behind, having handed out the frame. */
  ghost predicate Took(f: Framing, frame: Bytes, surplus: Bytes, r: Read) {
    r.outcome == Ready(Ok(frame)) && r.buffer + Payload(r.events) == surplus && Steady(f, r.events)
  }

  lemma {:induction false} TakeWhole(
    f: Framing, direction: Direction, buffer: Bytes, events: seq<Event>, garbage: Bytes, frame: Bytes, surplus: Bytes)
    requires !f.Rtu? && Framed(f, direction, frame) && Skippable(f, garbage) && Steady(f, events)
    requires buffer + Payload(events) == garbage + (frame + surplus)
    requires |garbage| + |frame| <= |buffer|
    ensures Took(f, frame, surplus, ReadAdu(f, direction, buffer, events))
  {
    hide Decide;
    hide Framed;
    hide Steady;
    hide Skippable;
    hide PullNext;
    hide Payload;
    Cut(buffer, Payload(events), garbage, frame + surplus);
    var t := buffer[|garbage|..];
    Cut(t, Payload(events), frame, surplus);
    DecideWhole(f, direction, garbage, frame, t[|frame|..]);
  }

  lemma {:induction false} ReadOn(f: Framing, direction: Direction, buffer: Bytes, events: seq<Event>, kept: Bytes)
    requires Decide(f, direction, buffer) == Await(kept)
    requires PullNext(events, kept != [], Timed(f, kept)).Pulled?
    ensures var p := PullNext(events, kept != [], Timed(f, kept));
            ReadAdu(f, direction, buffer, events) == ReadAdu(f, direction, kept + p.bytes, p.rest)
  {
    hide Decide;
    hide PullNext;
  }

  /** One receive takes exactly the first frame, however it is split over the buffer and the reads to come. */
  lemma {:induction false} ReceiveOne(
    f: Framing, direction: Direction, buffer: Bytes, events: seq<Event>, garbage: Bytes, frame: Bytes, surplus: Bytes)
    requires !f.Rtu? && Framed(f, direction, frame) && Skippable(f, garbage) && Steady(f, events)
    requires buffer + Payload(events) == garbage + (frame + surplus)
    ensures Took(f, frame, surplus, ReadAdu(f, direction, buffer, events))
    decreases |events|
  {
    hide Decide;
    hide Framed;
    hide Steady;
    hide Skippable;
    hide PullNext;
    hide Payload;
    hide ReadAdu;
    hide Took;
    if |buffer| >= |garbage| + |frame| {
      TakeWhole(f, direction, buffer, events, garbage, frame, surplus);
    } else {
      FramedNonEmpty(f, direction, frame);
      var (dropped, n) := if |garbage| <= |buffer| then (garbage, |buffer| - |garbage|) else (buffer, 0);
      var left := if |garbage| <= |buffer| then [] else garbage[|buffer|..];
      Shorten(f, buffer, Payload(events), garbage, frame, surplus);
      DecidePart(f, direction, dropped, frame, n);
      var kept := frame[..n];
      SteadyPull(f, events, kept != [], Timed(f, kept));
      PullPayload(events, kept != [], Timed(f, kept));
      var p := PullNext(events, kept != [], Timed(f, kept));
      ReadOn(f, direction, buffer, events, kept);
      Assoc(kept, p.bytes, Payload(p.rest));
      ReceiveOne(f, direction, kept + p.bytes, p.rest, left, frame, surplus);
    }
  }

  /** Until the first frame is complete, a receive stays pending, however the part of it that has come is split. */
  lemma {:induction false} ReceiveNone(
    f: Framing, direction: Direction, buffer: Bytes, events: seq<Event>, garbage: Bytes, frame: Bytes)
    requires !f.Rtu? && Framed(f, direction, frame) && Skippable(f, garbage) && Steady(f, events)
    requires buffer + Payload(events) < garbage + frame
    ensures ReadAdu(f, direction, buffer, events).outcome.Pending?
    decreases |events|
  {
    hide Decide;
    hide Framed;
    hide Steady;
    hide PullNext;
    hide Payload;
    FramedNonEmpty(f, direction, frame);
    var more := (garbage + frame)[|buffer|..];
    assert buffer + more == garbage + frame by {
      assert buffer == (garbage + frame)[..|buffer|];
    }
    assert frame + [] == frame;
    var (dropped, n) := if |garbage| <= |buffer| then (garbage, |buffer| - |garbage|) else (buffer, 0);
    var left := if |garbage| <= |buffer| then [] else garbage[|buffer|..];
    Shorten(f, buffer, more, garbage, frame, []);
    DecidePart(f, direction, dropped, frame, n);
    var kept := frame[..n];
    PullPayload(events, kept != [], Timed(f, kept));
    SteadyPullOr(f, events, kept != [], Timed(f, kept));
    var p := PullNext(events, kept != [], Timed(f, kept));
    if p.Pulled? {
      PartOn(f, buffer, Payload(events), p.bytes, Payload(p.rest), garbage, frame, kept, left, more);
      ReceiveNone(f, direction, kept + p.bytes, p.rest, left, frame);
    }
  }

  lemma {:induction false} PartOn(
    f: Framing, buffer: Bytes, payload: Bytes, bytes: Bytes, rest: Bytes, garbage: Bytes, frame: Bytes, kept: Bytes,
    left: Bytes, more: Bytes)
    requires payload == bytes + rest && buffer + payload < garbage + frame && buffer + more == garbage + frame
    requires kept + more == left + (frame + [])
    ensures kept + bytes + rest < left + frame
  {
    assert payload < more by {
      assert forall i :: 0 <= i < |payload| ==>
        payload[i] == (buffer + payload)[|buffer| + i] == (garbage + frame)[|buffer| + i];
      assert forall i :: 0 <= i < |more| ==> more[i] == (buffer + more)[|buffer| + i];
    }
    assert kept + payload < kept + more;
    Assoc(kept, bytes, rest);
    Nothing(frame);
  }

  lemma {:induction false} SteadyPullOr(f: Framing, events: seq<Event>, midAdu: bool, timed: bool)
    requires Steady(f, events) && (timed ==> BoundaryOf(f).SelfLocating())
    ensures var p := PullNext(events, midAdu, timed); p.Starved? || (p.Pulled? && Steady(f, p.rest))
    decreases |events|
  {
    if events != [] && events[0].Elapsed? {
      SteadyPullOr(f, events[1..], midAdu, timed);
    }
  }

  /** With less than the frame in hand: what is dropped, what is kept of the frame, and what is left to skip. */
  lemma {:induction false} Shorten(f: Framing, buffer: Bytes, more: Bytes, garbage: Bytes, frame: Bytes, surplus: Bytes)
    requires Skippable(f, garbage) && |buffer| < |garbage| + |frame| && frame != []
    requires buffer + more == garbage + (frame + surplus)
    ensures var (dropped, n) := if |garbage| <= |buffer| then (garbage, |buffer| - |garbage|) else (buffer, 0);
            var left := if |garbage| <= |buffer| then [] else garbage[|buffer|..];
            && n < |frame|
            && buffer == dropped + frame[..n] && Skippable(f, dropped) && Skippable(f, left)
            && frame[..n] + more == left + (frame + surplus) && more != []
  {
    if |garbage| <= |buffer| {
      var n := |buffer| - |garbage|;
      Cut(buffer, more, garbage, frame + surplus);
      Cut(frame + surplus, [], buffer[|garbage|..], more);
      assert buffer[|garbage|..] == (frame + surplus)[..n] == frame[..n];
      assert [] + (frame + surplus) == frame + surplus;
    } else {
      Cut(garbage, frame + surplus, buffer, more);
      assert buffer + [] == buffer && [] + more == more;
    }
  }

  lemma {:induction false} FramedNonEmpty(f: Framing, direction: Direction, frame: Bytes)
    requires Framed(f, direction, frame)
    ensures frame != []
  {
  }
}
