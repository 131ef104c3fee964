/** Receiving ADUs from a byte stream: what one receive yields for every sequence of read outcomes (src/transport/mod.rs). */
module Stream {
  import opened Basics
  import opened Messages
  import opened Framings
  import opened Extent
  import opened Ascii
  import Tcp

  /** `READ_CHUNK`: the most one read returns. */
  const READ_CHUNK := 513

  type Chunk = b: Bytes | 1 <= |b| <= READ_CHUNK witness [0]

  /** What may happen while a read is awaited; `Elapsed` matters only while a timer is armed. */
  datatype Event = Data(bytes: Chunk) | Closed | Failed(kind: IoKind) | Elapsed

  /** Whether a future has completed. */
  datatype Poll<+T> = Ready(result: Result<T>) | Pending

  /** One read: bytes, a failure, the timer going off first, or nothing so far. */
  datatype Pull =
    | Pulled(bytes: Chunk, rest: seq<Event>)
    | Broken(error: Error, rest: seq<Event>)
    | Quiet(rest: seq<Event>)
    | Starved

  /** `read_more`, under a timer or not. A close severs an ADU only when one has begun. */
  function PullNext(events: seq<Event>, midAdu: bool, timed: bool): (p: Pull)
    ensures !p.Starved? ==> |p.rest| < |events|
    ensures p.Quiet? ==> timed
    ensures p.Broken? ==> p.error.Io? || (midAdu && p.error.ConnectionClosed?)
  {
    if events == [] then Starved
    else
      match events[0]
      case Data(bytes) => Pulled(bytes, events[1..])
      case Closed => Broken(if midAdu then ConnectionClosed else Io(UnexpectedEof), events[1..])
      case Failed(kind) => Broken(Io(kind), events[1..])
      case Elapsed => if timed then Quiet(events[1..]) else PullNext(events[1..], midAdu, timed)
  }

  /** What the boundary rule makes of the bytes buffered so far. */
  datatype Decision = Deliver(adu: Bytes, surplus: Bytes) | Refuse(error: Error, kept: Bytes) | Await(kept: Bytes)

  /** `Prefixed`: six bytes tell the length. */
  function DecidePrefixed(buffer: Bytes): Decision {
    if |buffer| < Tcp.PREFIX_LEN then Await(buffer)
    else
      match Tcp.AduLen(buffer[..Tcp.PREFIX_LEN])
      case Err(error) => Refuse(error, buffer)
      case Ok(length) =>
        if length > MaxAdu(Framing.Tcp) then Refuse(AduTooLarge, buffer)
        else if |buffer| < length then Await(buffer)
        else Deliver(buffer[..length], buffer[length..])
  }

  /** The first index at or after `from` that holds `b`, or the length if none does. */
  function IndexOf(s: Bytes, b: Byte, from: nat): (i: nat)
    requires from <= |s|
    ensures from <= i <= |s|
    ensures i < |s| ==> s[i] == b
    ensures forall k :: from <= k < i ==> s[k] != b
    decreases |s| - from
  {
    if from == |s| then from else if s[from] == b then from else IndexOf(s, b, from + 1)
  }

  /** Whether the terminator stands at `i`. */
  predicate EndsAt(s: Bytes, i: nat) {
    i + 2 <= |s| && s[i] == CR && s[i + 1] == LF
  }

  /** `find`: the first place at or after `from` where the terminator stands, or the length if there is none. */
  function FindEnd(s: Bytes, from: nat): (i: nat)
    requires from <= |s|
    ensures from <= i <= |s|
    ensures i < |s| ==> EndsAt(s, i)
    ensures forall k :: from <= k < i ==> !EndsAt(s, k)
    decreases |s| - from
  {
    if from == |s| then from else if EndsAt(s, from) then from else FindEnd(s, from + 1)
  }

  /** `Delimited`: from the first start character to the first terminator after it. */
  function DecideDelimited(buffer: Bytes): Decision {
    var kept := buffer[IndexOf(buffer, START, 0)..];
    var at := FindEnd(kept, 0);
    if at < |kept| then Deliver(kept[..at + 2], kept[at + 2..])
    else if |kept| >= MAX_ASCII_ADU then Refuse(AduTooLarge, kept)
    else Await(kept)
  }

  /** `Silence`: nothing in the bytes ends the ADU, but they may be too many. */
  function DecideSilence(buffer: Bytes): Decision {
    if |buffer| >= MaxAdu(Rtu) then Refuse(AduTooLarge, buffer) else Await(buffer)
  }

  /** `ContentLength`: the extent, once the four bytes it starts from are in. */
  function DecideContent(direction: Direction, buffer: Bytes): Decision {
    match DeriveExtent(direction, buffer)
    case Err(error) => Refuse(error, buffer)
    case Ok(Complete(length)) =>
      ExtentExact(direction, buffer, length);
      Deliver(buffer[..length], buffer[length..])
    case Ok(NeedMore) =>
      if |buffer| >= MaxAdu(RtuOverTcp) then Refuse(AduTooLarge, buffer) else Await(buffer)
  }

  function Decide(f: Framing, direction: Direction, buffer: Bytes): Decision {
    match f
    case Tcp => DecidePrefixed(buffer)
    case Ascii => DecideDelimited(buffer)
    case Rtu => DecideSilence(buffer)
    case RtuOverTcp => DecideContent(direction, buffer)
  }

  /** A timer runs under a self-locating framing once an ADU has begun. */
  predicate Timed(f: Framing, kept: Bytes) {
    BoundaryOf(f).SelfLocating() && kept != []
  }

  /** How far a receive got: its outcome, and what it left behind. */
  datatype Read = Read(outcome: Poll<Bytes>, buffer: Bytes, events: seq<Event>)

  /** `read_adu`: apply the boundary rule, reading until it decides. */
  function ReadAdu(f: Framing, direction: Direction, buffer: Bytes, events: seq<Event>): Read
    decreases |events|
  {
    match Decide(f, direction, buffer)
    case Deliver(adu, surplus) => Read(Ready(Ok(adu)), surplus, events)
    case Refuse(error, kept) => Read(Ready(Err(error)), kept, events)
    case Await(kept) =>
      match PullNext(events, kept != [], Timed(f, kept))
      case Starved => Read(Pending, kept, [])
      case Pulled(bytes, rest) => ReadAdu(f, direction, kept + bytes, rest)
      case Quiet(rest) => Interrupted(f, Timeout(InterCharacterGap), kept, rest)
      case Broken(error, rest) => Interrupted(f, error, kept, rest)
  }

  /** On a silence-delimited line, quiet or a close ends the ADU; elsewhere, and for any other failure, it is an error. */
  function Interrupted(f: Framing, error: Error, kept: Bytes, rest: seq<Event>): Read {
    if f.Rtu? && (error.Timeout? || error.ConnectionClosed?) then Read(Ready(Ok(kept)), [], rest)
    else Read(Ready(Err(error)), kept, rest)
  }

  /** What a transport keeps between receives. */
  datatype Receiver = Receiver(buffer: Bytes, receiving: bool)

  datatype Received = Received(outcome: Poll<Bytes>, receiver: Receiver, events: seq<Event>)

  /** `recv_adu`: refused while an abandoned receive is latched; an error under a self-locating framing clears the buffer. */
  function RecvAdu(f: Framing, direction: Direction, s: Receiver, events: seq<Event>): Received {
    if s.receiving then Received(Ready(Err(Timeout(AbandonedReceive))), s, events)
    else
      var r := ReadAdu(f, direction, s.buffer, events);
      match r.outcome
      case Pending => Received(Pending, Receiver(r.buffer, true), r.events)
      case Ready(Ok(adu)) => Received(r.outcome, Receiver(r.buffer, false), r.events)
      case Ready(Err(error)) =>
        var buffer := if BoundaryOf(f).SelfLocating() then [] else r.buffer;
        Received(r.outcome, Receiver(buffer, false), r.events)
  }
}
