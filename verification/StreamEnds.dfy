/** Which event ends a receive, and with what: the failures of a stream read off the stream itself. */
module StreamEnds {
  import opened Basics
  import opened Messages
  import opened Framings
  import opened Extent
  import opened Ascii
  import opened Stream
  import opened Delivery

  /** Whether bytes received so far begin an ADU: any of them do, but under ASCII only from a start character on. */
  predicate Begun(f: Framing, bytes: Bytes) {
    if f.Ascii? then START in bytes else bytes != []
  }

  lemma {:induction false} PayloadJoin(a: seq<Event>, b: seq<Event>)
    ensures Payload(a + b) == Payload(a) + Payload(b)
  {
    if a == [] {
      assert a + b == b;
      Nothing(Payload(b));
    } else {
      assert (a + b)[1..] == a[1..] + b;
      PayloadJoin(a[1..], b);
      Assoc(if a[0].Data? then a[0].bytes else [], Payload(a[1..]), Payload(b));
    }
  }

  /** The event this read took, behind events that went unnoticed. */
  ghost predicate PulledAt(events: seq<Event>, midAdu: bool, timed: bool, p: Pull) {
    if p.Starved? then Payload(events) == [] && forall i :: 0 <= i < |events| ==> events[i].Elapsed? && !timed
    else
      var k := |events| - |p.rest| - 1;
      && 0 <= k && p.rest == events[k + 1..] && Payload(events[..k]) == []
      && (match p
          case Pulled(bytes, _) => events[k] == Data(bytes)
          case Broken(error, _) =>
            || (events[k].Closed? && error == if midAdu then ConnectionClosed else Io(UnexpectedEof))
            || (events[k].Failed? && error == Io(events[k].kind))
          case Quiet(_) => events[k].Elapsed?)
  }

  lemma {:induction false} PulledLater(events: seq<Event>, midAdu: bool, timed: bool, p: Pull)
    requires events != [] && events[0].Elapsed? && !timed && PulledAt(events[1..], midAdu, timed, p)
    ensures PulledAt(events, midAdu, timed, p)
  {
    hide Payload;
    QuietHead(events);
    if !p.Starved? {
      var k := |events| - |p.rest| - 1;
      assert events[..k][1..] == events[1..][..k - 1];
      QuietHead(events[..k]);
    }
  }

  /** The event a read takes is the first that is not an unnoticed passing of time. */
  lemma {:induction false} PullAt(events: seq<Event>, midAdu: bool, timed: bool)
    ensures PulledAt(events, midAdu, timed, PullNext(events, midAdu, timed))
    decreases |events|
  {
    if events == [] {
    } else if events[0].Elapsed? && !timed {
      PullAt(events[1..], midAdu, timed);
      hide PulledAt;
      PulledLater(events, midAdu, timed, PullNext(events[1..], midAdu, timed));
    } else {
      assert events[..0] == [];
    }
  }

  lemma {:induction false} QuietHead(events: seq<Event>)
    requires events != [] && events[0].Elapsed?
    ensures Payload(events) == Payload(events[1..])
  {
    Nothing(Payload(events[1..]));
  }

  /** How many events a receive took. */
  function EventsTaken(events: seq<Event>, r: Read): int {
    |events| - |r.events|
  }

  /** The receive ended by meeting a failed read of this kind, or, for the end of file, a close with nothing begun. */
  ghost predicate MetIo(f: Framing, buffer: Bytes, events: seq<Event>, n: int, kind: IoKind) {
    && 0 < n <= |events|
    && (|| events[n - 1] == Failed(kind)
        || (kind == UnexpectedEof && events[n - 1].Closed? && !Begun(f, buffer + Payload(events[..n - 1]))))
  }

  /** The receive ended by meeting a close with an ADU begun. */
  ghost predicate MetSevered(f: Framing, buffer: Bytes, events: seq<Event>, n: int) {
    0 < n <= |events| && events[n - 1].Closed? && Begun(f, buffer + Payload(events[..n - 1]))
  }

  /** The receive ended by a gap in an ADU begun. */
  ghost predicate MetGap(f: Framing, buffer: Bytes, events: seq<Event>, n: int) {
    0 < n <= |events| && events[n - 1].Elapsed? && Begun(f, buffer + Payload(events[..n - 1]))
  }

  /** The outcome is a failure of the stream exactly when the last event taken says so, and then it names that event. */
  ghost predicate Explained(f: Framing, buffer: Bytes, events: seq<Event>, r: Read) {
    var n := EventsTaken(events, r);
    && 0 <= n && r.events == events[n..]
    && (forall kind :: r.outcome == Ready(Err(Io(kind))) <==> MetIo(f, buffer, events, n, kind))
    && (r.outcome == Ready(Err(ConnectionClosed)) <==> !f.Rtu? && MetSevered(f, buffer, events, n))
    && (r.outcome == Ready(Err(Timeout(InterCharacterGap))) <==> f.Ascii? && MetGap(f, buffer, events, n))
    && r.outcome != Ready(Err(Timeout(AbandonedReceive))) && r.outcome != Ready(Err(Timeout(ResponseWait)))
  }

  lemma {:induction false} RefusalKind(f: Framing, direction: Direction, buffer: Bytes)
    ensures Decide(f, direction, buffer).Refuse? ==> !Decide(f, direction, buffer).error.EndsStream()
  {
    hide IndexOf;
    hide FindEnd;
    hide PduSize;
    SizeRefusalKind(direction, buffer);
  }

  lemma {:induction false} SizeRefusalKind(direction: Direction, bytes: Bytes)
    ensures PduSize(direction, bytes).Refused? ==> !PduSize(direction, bytes).error.EndsStream()
  {
    hide Walk;
    if 10 <= |bytes| {
      WalkNeverRefuses(bytes, 7, bytes[7]);
    }
  }

  lemma {:induction false} WalkNeverRefuses(bytes: Bytes, offset: nat, count: nat)
    ensures !Walk(bytes, offset, count).Refused?
    decreases count
  {
    if count == 0 || 1 + offset + 2 > |bytes| {
    } else {
      WalkNeverRefuses(bytes, offset + 2 + bytes[1 + offset + 1], count - 1);
    }
  }

  /** What is kept has begun exactly when the buffer had. */
  lemma {:induction false} KeptBegun(f: Framing, direction: Direction, buffer: Bytes)
    requires Decide(f, direction, buffer).Await?
    ensures var kept := Decide(f, direction, buffer).kept;
            && (kept != [] <==> Begun(f, buffer))
            && forall more :: Begun(f, kept + more) <==> Begun(f, buffer + more)
  {
    hide Decide;
    DecideKeeps(f, direction, buffer);
    KeptStart(f, direction, buffer);
    var kept := Decide(f, direction, buffer).kept;
    forall more: Bytes
      ensures Begun(f, kept + more) <==> Begun(f, buffer + more)
    {
      Assoc(Skipped(f, buffer), kept, more);
    }
  }

  lemma {:induction false} KeptStart(f: Framing, direction: Direction, buffer: Bytes)
    requires f.Ascii? ==> Decide(f, direction, buffer).Await?
    ensures f.Ascii? ==> var kept := Decide(f, direction, buffer).kept; kept == [] || kept[0] == START
  {
    hide FindEnd;
    hide DeriveExtent;
  }

  /** A receive that ends without taking an event, or on bytes, has not met a failure. */
  lemma {:induction false} ExplainedHere(f: Framing, buffer: Bytes, events: seq<Event>, outcome: Poll<Bytes>, left: Bytes)
    requires outcome.Ready? && (outcome.result.Err? ==> !outcome.result.error.EndsStream())
    ensures Explained(f, buffer, events, Read(outcome, left, events))
  {
  }

  /** The receive starves: nothing taken was noticed. */
  lemma {:induction false} ExplainedStarved(f: Framing, buffer: Bytes, events: seq<Event>, kept: Bytes)
    requires forall i :: 0 <= i < |events| ==> events[i].Elapsed? && !Timed(f, kept)
    requires Payload(events) == [] && (kept != [] <==> Begun(f, buffer))
    ensures Explained(f, buffer, events, Read(Pending, kept, []))
  {
    hide Payload;
    hide Begun;
    var n := |events|;
    if n > 0 {
      var before := events[..n - 1];
      assert events == before + events[n - 1..];
      PayloadJoin(before, events[n - 1..]);
      assert Payload(before) == [];
      Nothing(buffer);
      assert events[n - 1].Elapsed? && !Timed(f, kept);
      assert f.Ascii? ==> !Begun(f, buffer + Payload(before));
    }
  }

  /** The receive is interrupted by an event that brings no bytes. */
  lemma {:induction false} ExplainedInterrupted(
    f: Framing, buffer: Bytes, events: seq<Event>, kept: Bytes, k: nat, error: Error)
    requires k < |events| && Payload(events[..k]) == [] && (kept != [] <==> Begun(f, buffer))
    requires || (events[k].Closed? && error == if kept != [] then ConnectionClosed else Io(UnexpectedEof))
             || (events[k].Failed? && error == Io(events[k].kind))
             || (events[k].Elapsed? && Timed(f, kept) && error == Timeout(InterCharacterGap))
    ensures Explained(f, buffer, events, Interrupted(f, error, kept, events[k + 1..]))
  {
    hide Payload;
    hide Begun;
    Nothing(buffer);
    var r := Interrupted(f, error, kept, events[k + 1..]);
    assert EventsTaken(events, r) == k + 1;
    assert buffer + Payload(events[..k]) == buffer;
  }

  /** The receive goes on after a read: what explains the rest explains the whole. */
  lemma {:induction false} ExplainedOn(
    f: Framing, buffer: Bytes, events: seq<Event>, kept: Bytes, k: nat, bytes: Chunk, r: Read)
    requires k < |events| && events[k] == Data(bytes) && Payload(events[..k]) == []
    requires forall more :: Begun(f, kept + more) <==> Begun(f, buffer + more)
    requires Explained(f, kept + bytes, events[k + 1..], r)
    ensures Explained(f, buffer, events, r)
  {
    var rest := events[k + 1..];
    var m, n := EventsTaken(rest, r), EventsTaken(events, r);
    assert n == m + k + 1 && events[n..] == rest[m..];
    if m > 0 {
      assert events[n - 1] == rest[m - 1];
      assert events[..n - 1] == events[..k] + ([Data(bytes)] + rest[..m - 1]);
      PayloadJoin(events[..k], [Data(bytes)] + rest[..m - 1]);
      assert ([Data(bytes)] + rest[..m - 1])[1..] == rest[..m - 1];
      Nothing(bytes + Payload(rest[..m - 1]));
      Assoc(kept, bytes, Payload(rest[..m - 1]));
    } else {
      assert events[n - 1].Data?;
    }
  }

  /**
   * For every framing, buffer and stream: a receive fails with an I/O error exactly when the last event it took is that
   * failed read, or a close with nothing begun; with a closed connection exactly when it is a close inside an ADU on a
   * framing that silence does not end; with a timeout exactly when it is a gap inside an ASCII frame.
   */
  lemma {:induction false} StreamFailure(f: Framing, direction: Direction, buffer: Bytes, events: seq<Event>)
    ensures Explained(f, buffer, events, ReadAdu(f, direction, buffer, events))
    decreases |events|
  {
    hide Decide;
    hide PullNext;
    hide Explained;
    hide Payload;
    RefusalKind(f, direction, buffer);
    match Decide(f, direction, buffer)
    case Deliver(adu, surplus) => ExplainedHere(f, buffer, events, Ready(Ok(adu)), surplus);
    case Refuse(error, kept) => ExplainedHere(f, buffer, events, Ready(Err(error)), kept);
    case Await(kept) =>
      KeptBegun(f, direction, buffer);
      Nothing(buffer);
      PullAt(events, kept != [], Timed(f, kept));
      var p := PullNext(events, kept != [], Timed(f, kept));
      if p.Starved? {
        ExplainedStarved(f, buffer, events, kept);
      } else {
        var k := |events| - |p.rest| - 1;
        match p
        case Pulled(bytes, rest) =>
          StreamFailure(f, direction, kept + bytes, rest);
          ExplainedOn(f, buffer, events, kept, k, bytes, ReadAdu(f, direction, kept + bytes, rest));
        case Quiet(rest) => ExplainedInterrupted(f, buffer, events, kept, k, Timeout(InterCharacterGap));
        case Broken(error, rest) => ExplainedInterrupted(f, buffer, events, kept, k, error);
      }
  }
}
