/** The receiving half of `FrameTransport`, as the loops it is made of (src/transport/mod.rs, `shared`). */
module Transport {
  import opened Basics
  import opened Messages
  import opened Framings
  import opened Extent
  import opened Ascii
  import opened Stream
  import Tcp

  class FrameTransport {
    const framing: Framing
    var buffer: Bytes
    var receiving: bool
    /** What the stream will bring; each read takes what it needs off the front. */
    var events: seq<Event>

    constructor (f: Framing, stream: seq<Event>)
      ensures framing == f && buffer == [] && !receiving && events == stream
    {
      framing, buffer, receiving, events := f, [], false, stream;
    }

    /** What receiving from here on would do. */
    ghost function Ahead(direction: Direction): Read
      reads this
    {
      ReadAdu(framing, direction, buffer, events)
    }

    /** This outcome, with what is left behind, is what `start` promised. */
    ghost predicate Did(start: Read, outcome: Poll<Bytes>)
      reads this
    {
      start == Read(outcome, buffer, events)
    }

    /** `read_more`, under a timer or not: bytes arrive, or the pull says why not. */
    method ReadMore(midAdu: bool, timed: bool) returns (p: Pull)
      modifies this`buffer, this`events
      ensures p == PullNext(old(events), midAdu, timed)
      ensures events == if p.Starved? then [] else p.rest
      ensures buffer == if p.Pulled? then old(buffer) + p.bytes else old(buffer)
    {
      while events != [] && events[0].Elapsed? && !timed
        invariant PullNext(events, midAdu, timed) == PullNext(old(events), midAdu, timed)
        invariant buffer == old(buffer)
        decreases |events|
      {
        events := events[1..];
      }
      if events == [] {
        return Starved;
      }
      var event := events[0];
      events := events[1..];
      match event
      case Data(bytes) =>
        buffer := buffer + bytes;
        p := Pulled(bytes, events);
      case Closed =>
        p := Broken(if midAdu then ConnectionClosed else Io(UnexpectedEof), events);
      case Failed(kind) =>
        p := Broken(Io(kind), events);
      case Elapsed =>
        p := Quiet(events);
    }

    /** `take`. */
    method TakeFront(len: nat) returns (adu: Bytes)
      requires len <= |buffer|
      modifies this`buffer
      ensures adu == old(buffer)[..len] && buffer == old(buffer)[len..]
    {
      adu := buffer[..len];
      buffer := buffer[len..];
    }

    /** `check_buffer_bound`. */
    method CheckBufferBound() returns (r: Result<()>)
      ensures r == if |buffer| >= MaxAdu(framing) then Err(AduTooLarge) else Ok(())
    {
      if |buffer| >= MaxAdu(framing) {
        return Err(AduTooLarge);
      }
      return Ok(());
    }

    /**
     * `fill_to`: read until the buffer holds at least `len` bytes, which the caller knows the boundary rule is waiting
     * for. Either the receive has ended, or it goes on from the fuller buffer.
     */
    method FillTo(len: nat, direction: Direction) returns (ended: Poll<()>)
      requires !BoundaryOf(framing).SelfLocating()
      requires forall b :: buffer <= b && |b| < len ==> Decide(framing, direction, b) == Await(b)
      modifies this`buffer, this`events
      ensures old(buffer) <= buffer
      ensures ended.Ready? && ended.result.Ok? ==> len <= |buffer| && Ahead(direction) == old(Ahead(direction))
      ensures ended.Pending? ==> Did(old(Ahead(direction)), Pending)
      ensures len > MaxAdu(framing) ==> ended == Ready(Err(AduTooLarge)) && buffer == old(buffer) && events == old(events)
      ensures len <= MaxAdu(framing) && ended.Ready? && ended.result.Err?
              ==> Did(old(Ahead(direction)), Ready(Err(ended.result.error)))
    {
      hide Decide;
      if len > MaxAdu(framing) {
        return Ready(Err(AduTooLarge));
      }
      while |buffer| < len
        invariant old(buffer) <= buffer
        invariant Ahead(direction) == old(Ahead(direction))
        decreases |events|
      {
        assert Decide(framing, direction, buffer) == Await(buffer);
        var p := ReadMore(buffer != [], false);
        match p
        case Pulled(_, _) =>
        case Starved =>
          return Pending;
        case Broken(error, _) =>
          return Ready(Err(error));
      }
      return Ready(Ok(()));
    }

    /** `read_prefixed`. */
    method ReadPrefixed(direction: Direction) returns (r: Poll<Bytes>)
      requires framing.Tcp?
      modifies this`buffer, this`events
      ensures Did(old(Ahead(direction)), r)
    {
      var ended := FillTo(Tcp.PREFIX_LEN, direction);
      if ended.Pending? {
        return Pending;
      }
      if ended.result.Err? {
        return Ready(Err(ended.result.error));
      }
      var head := buffer[..Tcp.PREFIX_LEN];
      match Tcp.AduLen(head)
      case Err(error) =>
        return Ready(Err(error));
      case Ok(len) =>
        ghost var filled := buffer;
        assert forall b :: buffer <= b && |b| < len ==> Decide(framing, direction, b) == Await(b) by {
          forall b | buffer <= b && |b| < len
            ensures Decide(framing, direction, b) == Await(b)
          {
            assert b[..Tcp.PREFIX_LEN] == head;
          }
        }
        ended := FillTo(len, direction);
        if ended.Pending? {
          return Pending;
        }
        if ended.result.Err? {
          return Ready(Err(ended.result.error));
        }
        assert buffer[..Tcp.PREFIX_LEN] == filled[..Tcp.PREFIX_LEN];
        var adu := TakeFront(len);
        return Ready(Ok(adu));
    }

    /**
     * One pass of `read_delimited` over the buffer: drop what precedes a start character, then look for the terminator
     * from where no earlier pass has looked. `next` is where the following pass may start.
     */
    method Search(searched: nat) returns (found: bool, adu: Bytes, next: nat)
      requires searched <= |buffer| && (searched > 0 ==> buffer[0] == START)
      requires forall k :: 0 <= k < searched ==> !EndsAt(buffer, k)
      modifies this`buffer
      ensures found ==> DecideDelimited(old(buffer)) == Deliver(adu, buffer)
      ensures !found ==> buffer == old(buffer)[IndexOf(old(buffer), START, 0)..]
      ensures !found ==> FindEnd(buffer, 0) == |buffer| && Unended(buffer, next)
    {
      var offset := IndexOf(buffer, START, 0);
      next := searched;
      found, adu := false, [];
      if offset < |buffer| {
        if offset > 0 {
          buffer := buffer[offset..];
          next := 0;
        } else {
          assert buffer[0..] == buffer;
        }
        SameEnd(buffer, next);
        var at := FindEnd(buffer, next);
        if at < |buffer| {
          adu := TakeFront(at + 2);
          return true, adu, 0;
        }
        next := |buffer| - 1;
      } else {
        buffer := [];
        next := 0;
      }
    }

    /** `read_delimited`. */
    method ReadDelimited(direction: Direction) returns (r: Poll<Bytes>)
      requires framing.Ascii?
      modifies this`buffer, this`events
      ensures Did(old(Ahead(direction)), r)
    {
      hide IndexOf;
      hide FindEnd;
      var searched: nat := 0;
      while true
        invariant searched <= |buffer| && (searched > 0 ==> buffer[0] == START)
        invariant forall k :: 0 <= k < searched ==> !EndsAt(buffer, k)
        invariant Ahead(direction) == old(Ahead(direction))
        decreases |events|
      {
        var found, adu, next := Search(searched);
        if found {
          return Ready(Ok(adu));
        }
        var bound := CheckBufferBound();
        if bound.Err? {
          return Ready(Err(bound.error));
        }
        ghost var before := buffer;
        var p := ReadMore(buffer != [], buffer != []);
        match p
        case Pulled(bytes, _) =>
          StillUnended(before, bytes, next);
          searched := next;
        case Starved =>
          return Pending;
        case Quiet(_) =>
          return Ready(Err(Timeout(InterCharacterGap)));
        case Broken(error, _) =>
          return Ready(Err(error));
      }
    }

    /** `read_until_silence`. */
    method ReadUntilSilence(direction: Direction) returns (r: Poll<Bytes>)
      requires framing.Rtu?
      modifies this`buffer, this`events
      ensures Did(old(Ahead(direction)), r)
    {
      while true
        invariant Ahead(direction) == old(Ahead(direction))
        decreases |events|
      {
        if buffer == [] {
          var p := ReadMore(false, false);
          match p
          case Pulled(_, _) =>
          case Starved =>
            return Pending;
          case Broken(error, _) =>
            return Ready(Err(error));
        } else {
          var bound := CheckBufferBound();
          if bound.Err? {
            return Ready(Err(bound.error));
          }
          var p := ReadMore(true, true);
          match p
          case Pulled(_, _) =>
          case Starved =>
            return Pending;
          case Quiet(_) =>
            assert buffer[..|buffer|] == buffer;
            var adu := TakeFront(|buffer|);
            return Ready(Ok(adu));
          case Broken(error, _) =>
            if error.ConnectionClosed? {
              assert buffer[..|buffer|] == buffer;
              var adu := TakeFront(|buffer|);
              return Ready(Ok(adu));
            }
            return Ready(Err(error));
        }
      }
    }

    /** `read_content_length`. */
    method ReadContentLength(direction: Direction) returns (r: Poll<Bytes>)
      requires framing.RtuOverTcp?
      modifies this`buffer, this`events
      ensures Did(old(Ahead(direction)), r)
    {
      var ended := FillTo(4, direction);
      if ended.Pending? {
        return Pending;
      }
      if ended.result.Err? {
        return Ready(Err(ended.result.error));
      }
      while true
        invariant 4 <= |buffer|
        invariant Ahead(direction) == old(Ahead(direction))
        decreases |events|
      {
        hide DeriveExtent;
        var extent := ExtentOf(direction, buffer);
        match extent
        case Err(error) =>
          return Ready(Err(error));
        case Ok(Complete(len)) =>
          ExtentExact(direction, buffer, len);
          var adu := TakeFront(len);
          return Ready(Ok(adu));
        case Ok(NeedMore) =>
          var bound := CheckBufferBound();
          if bound.Err? {
            return Ready(Err(bound.error));
          }
          var p := ReadMore(true, false);
          match p
          case Pulled(_, _) =>
          case Starved =>
            return Pending;
          case Broken(error, _) =>
            return Ready(Err(error));
      }
    }

    /** `recv_adu`. */
    method ReceiveAdu(direction: Direction) returns (r: Poll<Bytes>)
      modifies this
      ensures Received(r, Receiver(buffer, receiving), events)
              == old(RecvAdu(framing, direction, Receiver(buffer, receiving), events))
    {
      hide ReadAdu;
      if receiving {
        return Ready(Err(Timeout(AbandonedReceive)));
      }
      receiving := true;
      match BoundaryOf(framing) {
        case Prefixed => r := ReadPrefixed(direction);
        case Delimited => r := ReadDelimited(direction);
        case Silence => r := ReadUntilSilence(direction);
        case ContentLength => r := ReadContentLength(direction);
      }
      if r.Pending? {
        // The caller may now drop the receive: the latch stays set.
        return;
      }
      receiving := false;
      if r.result.Err? && BoundaryOf(framing).SelfLocating() {
        buffer := [];
      }
    }
  }

  /** Nothing before `next` can turn out to start a terminator, whatever is appended. */
  ghost predicate Unended(s: Bytes, next: nat) {
    && next <= |s|
    && (next > 0 ==> s[0] == START)
    && (forall k :: 0 <= k < next ==> !EndsAt(s, k))
    && (s == [] || next + 1 == |s|)
  }

  lemma {:induction false} StillUnended(s: Bytes, more: Bytes, next: nat)
    requires Unended(s, next)
    ensures next <= |s + more| && (next > 0 ==> (s + more)[0] == START)
    ensures forall k :: 0 <= k < next ==> !EndsAt(s + more, k)
  {
    assert forall k :: 0 <= k < next ==> EndsAt(s + more, k) == EndsAt(s, k);
  }

  /** Searching on from where no terminator can stand before finds the same one as searching from the start. */
  lemma {:induction false} SameEnd(s: Bytes, searched: nat)
    requires searched <= |s|
    requires forall k :: 0 <= k < searched ==> !EndsAt(s, k)
    ensures FindEnd(s, searched) == FindEnd(s, 0)
  {
  }
}
