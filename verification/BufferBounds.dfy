/** How much a receive buffer can hold, for every size of read. */
module BufferBounds {
  import opened Basics
  import opened Messages
  import opened Framings
  import opened Ascii
  import opened Stream
  import opened Delivery
  import opened Sessions

  /**
   * Over any sequence of receives, successful, failed, refused or abandoned, under any of the four rules, the buffer
   * never exceeds the framing's maximum less one byte plus one read.
   */
  lemma {:induction false} BufferBounded(f: Framing, s: Receiver, rounds: seq<Round>, most: nat, i: nat)
    requires |s.buffer| <= BufferBound(f, most) && i < |rounds|
    requires forall k :: 0 <= k < |rounds| ==> ReadsWithin(rounds[k].events, most)
    ensures |After(f, s, rounds[..i]).buffer| <= BufferBound(f, most)
    ensures Peak(f, rounds[i].direction, After(f, s, rounds[..i]).buffer, rounds[i].events) <= BufferBound(f, most)
    decreases i
  {
    hide ReadAdu;
    hide Peak;
    hide ReadsWithin;
    ReadBounded(f, rounds[0].direction, s.buffer, rounds[0].events, most);
    if i == 0 {
      assert rounds[..0] == [];
    } else {
      assert rounds[..i][1..] == rounds[1..][..i - 1];
      BufferBounded(f, RecvAdu(f, rounds[0].direction, s, rounds[0].events).receiver, rounds[1..], most, i - 1);
    }
  }

  // ---- The bound is met ----

  /** An ADU of the framing's greatest length. */
  function Longest(f: Framing, direction: Direction): Bytes {
    match f
    case Tcp => [0, 0, 0, 0, 0, 254] + Zeros(254)
    case Ascii => [START] + Zeros(510) + [CR, LF]
    case Rtu => Zeros(256)
    case RtuOverTcp => (if direction.Request? then [1, 0x10, 0, 0, 0, 0, 247] else [1, 3, 251, 0, 0, 0, 0]) + Zeros(249)
  }

  function Zeros(n: nat): (s: Bytes)
    ensures |s| == n && forall i :: 0 <= i < n ==> s[i] == 0
  {
    seq(n, _ => 0)
  }

  lemma {:induction false} LongestFramed(f: Framing, direction: Direction)
    requires !f.Rtu?
    ensures Framed(f, direction, Longest(f, direction)) && |Longest(f, direction)| == MaxAdu(f)
  {
    var frame := Longest(f, direction);
    if f.Ascii? {
      assert EndsAt(frame, 511);
      assert forall k :: 0 <= k < 511 ==> !EndsAt(frame, k);
    }
  }

  /** Short of its end, every part of it is waited on. */
  lemma {:induction false} LongestAwaited(f: Framing, direction: Direction, n: nat)
    requires n < MaxAdu(f)
    ensures |Longest(f, direction)| == MaxAdu(f)
    ensures Decide(f, direction, Longest(f, direction)[..n]) == Await(Longest(f, direction)[..n])
  {
    if !f.Rtu? {
      hide Decide;
      hide Longest;
      LongestFramed(f, direction);
      DecidePart(f, direction, [], Longest(f, direction), n);
      Nothing(Longest(f, direction)[..n]);
    }
  }

  /** These bytes one at a time, then a read of `last`. */
  function Trickle(bytes: Bytes, last: Chunk): seq<Event> {
    if bytes == [] then [Data(last)] else [Data([bytes[0]])] + Trickle(bytes[1..], last)
  }

  lemma {:induction false} TrickleWithin(bytes: Bytes, last: Chunk)
    ensures ReadsWithin(Trickle(bytes, last), |last|)
  {
    if bytes == [] {
    } else {
      TrickleWithin(bytes[1..], last);
    }
  }

  lemma {:induction false} TricklePeak(f: Framing, direction: Direction, n: nat, last: Chunk)
    requires n < MaxAdu(f)
    ensures |Longest(f, direction)| == MaxAdu(f)
    ensures Peak(f, direction, Longest(f, direction)[..n], Trickle(Longest(f, direction)[n..MaxAdu(f) - 1], last))
            >= MaxAdu(f) - 1 + |last|
    decreases MaxAdu(f) - n
  {
    hide Decide;
    hide Longest;
    hide Peak;
    LongestAwaited(f, direction, n);
    var frame, m := Longest(f, direction), MaxAdu(f) - 1;
    if n == m {
      assert frame[n..m] == [] && [Data(last)] + [] == [Data(last)];
      PeakStep(f, direction, frame[..n], last, []);
      PeakStart(f, direction, frame[..n] + last, []);
    } else {
      var b := frame[n];
      assert frame[n..m][1..] == frame[n + 1..m];
      assert frame[..n] + [b] == frame[..n + 1];
      PeakStep(f, direction, frame[..n], [b], Trickle(frame[n + 1..m], last));
      TricklePeak(f, direction, n + 1, last);
    }
  }

  lemma {:induction false} PeakStart(f: Framing, direction: Direction, buffer: Bytes, events: seq<Event>)
    ensures Peak(f, direction, buffer, events) >= |buffer|
  {
    hide Decide;
    hide PullNext;
  }

  lemma {:induction false} PeakStep(f: Framing, direction: Direction, kept: Bytes, bytes: Chunk, rest: seq<Event>)
    requires Decide(f, direction, kept) == Await(kept)
    ensures Peak(f, direction, kept, [Data(bytes)] + rest) >= Peak(f, direction, kept + bytes, rest)
  {
    hide Decide;
    assert ([Data(bytes)] + rest)[1..] == rest;
  }

  /** Under each of the four rules, and for every size of read, the bound is reached. */
  lemma {:induction false} BoundAttained(f: Framing, direction: Direction, last: Chunk)
    ensures exists events :: ReadsWithin(events, |last|) && Peak(f, direction, [], events) == BufferBound(f, |last|)
  {
    hide Peak;
    hide Longest;
    TricklePeak(f, direction, 0, last);
    var frame := Longest(f, direction);
    var events := Trickle(frame[0..MaxAdu(f) - 1], last);
    assert frame[..0] == [];
    TrickleWithin(frame[0..MaxAdu(f) - 1], last);
    ReadBounded(f, direction, [], events, |last|);
    assert ReadsWithin(events, |last|) && Peak(f, direction, [], events) == BufferBound(f, |last|);
  }

  /** A buffer stays within the framing's maximum, whatever the stream brings, if and only if reads bring a byte at most. */
  ghost predicate NeverPastMaximum(f: Framing, direction: Direction, most: nat) {
    forall events :: ReadsWithin(events, most) ==> Peak(f, direction, [], events) <= MaxAdu(f)
  }

  lemma {:induction false} NeverPastMaximumIff(f: Framing, direction: Direction, most: nat)
    requires most <= READ_CHUNK
    ensures NeverPastMaximum(f, direction, most) <==> most <= 1
  {
    hide Peak;
    if most <= 1 {
      forall events | ReadsWithin(events, most)
        ensures Peak(f, direction, [], events) <= MaxAdu(f)
      {
        ReadBounded(f, direction, [], events, most);
      }
    } else {
      var last: Chunk := Zeros(most);
      BoundAttained(f, direction, last);
    }
  }
}
