/** Where a frame ends, byte by byte: each framing's boundary rule with its numbers written out. */
module WireBoundaries {
  import opened Basics
  import opened Messages
  import opened Framings
  import opened Stream
  import opened StreamEnds
  import opened WireFrames
  import Extent

  // ---- RTU over a byte stream ----

  /** The functions whose PDUs tell their own length. */
  predicate Sized(s: Bytes)
    requires 4 <= |s|
  {
    || s[1] in {1, 2, 3, 4, 5, 6, 7, 11, 12, 15, 16, 17, 20, 21, 22, 23, 24} || s[1] >= 128
    || (s[1] == 43 && s[2] == 14)
  }

  /** A frame of the length given, or of the length one of its bytes gives once enough of them are in. */
  datatype Span = Span(needed: nat, length: nat)

  /** How long a request's ADU is, and how many of its bytes tell. */
  function RequestSpan(s: Bytes): Span
    requires 4 <= |s| && Sized(s)
  {
    if s[1] >= 128 then Span(4, 5)
    else if s[1] <= 6 then Span(4, 8)
    else if s[1] in {7, 11, 12, 17} then Span(4, 4)
    else if s[1] in {15, 16} then Span(8, if |s| < 8 then 0 else 9 + s[6] as int)
    else if s[1] in {20, 21} then Span(4, 5 + s[2] as int)
    else if s[1] == 22 then Span(4, 10)
    else if s[1] == 23 then Span(11, if |s| < 11 then 0 else 13 + s[10] as int)
    else if s[1] == 24 then Span(4, 6)
    else Span(4, 7)
  }

  /** The same for a response, other than a device identification. */
  function ResponseSpan(s: Bytes): Span
    requires 4 <= |s| && Sized(s) && s[1] != 43
  {
    if s[1] >= 128 then Span(4, 5)
    else if s[1] in {5, 6, 11, 15, 16} then Span(4, 8)
    else if s[1] == 7 then Span(4, 5)
    else if s[1] == 22 then Span(4, 10)
    else if s[1] == 24 then Span(5, 6 + NumberAt(s, 2))
    else Span(4, 5 + s[2] as int)
  }

  /** What a span says about the bytes in hand: too few to tell or to be whole, too long to be legal, or whole. */
  function Spanned(span: Span, have: nat): Result<Extent.Extent> {
    if have < span.needed then Ok(Extent.NeedMore)
    else if span.length > 256 then Err(AduTooLarge)
    else if have < span.length then Ok(Extent.NeedMore)
    else Ok(Extent.Complete(span.length))
  }

  /** The extent of a request: unknown below four bytes, refused for a function that does not tell, else its span's. */
  lemma {:induction false} RequestExtent(s: Bytes)
    ensures Extent.DeriveExtent(Request, s)
            == if |s| < 4 then Ok(Extent.NeedMore)
               else if !Sized(s) then Err(IndeterminateLength(s[1]))
               else Spanned(RequestSpan(s), |s|)
  {
  }

  lemma {:induction false} ResponseExtent(s: Bytes)
    requires |s| < 4 || s[1] != 43 || s[2] != 14
    ensures Extent.DeriveExtent(Response, s)
            == if |s| < 4 then Ok(Extent.NeedMore)
               else if !Sized(s) then Err(IndeterminateLength(s[1]))
               else Spanned(ResponseSpan(s), |s|)
  {
  }

  /** `n` objects stand one behind the other from `at` to `end`, each an identifier, a length and that many bytes. */
  ghost predicate ObjectsSpan(s: Bytes, at: nat, n: nat, end: nat)
    decreases n
  {
    if n == 0 then end == at
    else at + 2 <= |s| && ObjectsSpan(s, at + 2 + s[at + 1], n - 1, end)
  }

  lemma {:induction false} WalkSpans(s: Bytes, offset: nat, n: nat, end: nat)
    ensures Extent.Walk(s, offset, n) == Extent.Known(end) <==> ObjectsSpan(s, 1 + offset, n, 1 + end)
    decreases n
  {
    if n > 0 && 1 + offset + 2 <= |s| {
      WalkSpans(s, offset + 2 + s[1 + offset + 1], n - 1, end);
    }
  }

  /** A device identification response ends two bytes behind the objects its eighth byte counts. */
  lemma {:induction false} IdentificationExtent(s: Bytes, n: nat)
    requires 4 <= |s| && s[1] == 43 && s[2] == 14 && 4 <= n
    ensures Extent.DeriveExtent(Response, s) == Ok(Extent.Complete(n))
            <==> 10 <= |s| && n <= 256 && n <= |s| && ObjectsSpan(s, 8, s[7], n - 2)
    ensures Extent.DeriveExtent(Response, s) == Err(AduTooLarge)
            <==> 10 <= |s| && exists end :: 254 < end && ObjectsSpan(s, 8, s[7], end)
    ensures Extent.DeriveExtent(Response, s).Err? ==> Extent.DeriveExtent(Response, s).error == AduTooLarge
  {
    hide Extent.Walk;
    if 10 <= |s| {
      WalkSpans(s, 7, s[7], n - 3);
      WalkNeverRefuses(s, 7, s[7]);
      var walk := Extent.Walk(s, 7, s[7]);
      if walk.Known? {
        WalkSpans(s, 7, s[7], walk.length);
        assert ObjectsSpan(s, 8, s[7], 1 + walk.length);
      }
      forall end: nat | 254 < end && ObjectsSpan(s, 8, s[7], end)
        ensures walk == Extent.Known(end - 1)
      {
        WalkSpans(s, 7, s[7], end - 1);
      }
    }
  }

  // ---- The rules ----

  /** No start character, or no terminator behind the first one. */
  predicate Unended(s: Bytes) {
    forall i, j :: 0 <= i <= j < |s| - 1 && s[i] == 58 ==> !(s[j] == 13 && s[j + 1] == 10)
  }

  /** Over TCP: six bytes give the length, which must be one a frame can have. */
  lemma {:induction false} TcpBoundary(s: Bytes)
    ensures Decide(Tcp, Request, s) == Decide(Tcp, Response, s)
            == if |s| < 6 then Await(s)
               else if !(1 <= NumberAt(s, 4) <= 254) then Refuse(OutOfRange, s)
               else if |s| < 6 + NumberAt(s, 4) then Await(s)
               else Deliver(s[..6 + NumberAt(s, 4)], s[6 + NumberAt(s, 4)..])
  {
    TcpLength(s);
    if 6 <= |s| {
      TcpLength(s[..6]);
    }
  }

  /** Nothing before the first start character is kept, and everything from it on is. */
  lemma {:induction false} FromStart(s: Bytes)
    ensures var from := IndexOf(s, 58, 0);
            && s == s[..from] + s[from..] && 58 !in s[..from] && (from < |s| ==> s[from..][0] == 58)
  {
  }

  lemma {:induction false} EndFound(s: Bytes)
    ensures var kept := s[IndexOf(s, 58, 0)..]; FindEnd(kept, 0) == |kept| <==> Unended(s)
  {
    var from := IndexOf(s, 58, 0);
    var kept := s[from..];
    var at := FindEnd(kept, 0);
    if at < |kept| {
      assert EndsAt(kept, at);
      assert s[from + at] == 13 && s[from + at + 1] == 10 && s[from] == 58;
    } else {
      forall i, j | 0 <= i <= j < |s| - 1 && s[i] == 58
        ensures !(s[j] == 13 && s[j + 1] == 10)
      {
        assert from <= i && !EndsAt(kept, j - from);
      }
    }
  }

  /** A frame cut off at its first terminator holds no earlier one. */
  lemma {:induction false} EndsOnce(kept: Bytes, at: nat)
    requires at == FindEnd(kept, 0) < |kept|
    ensures at + 2 <= |kept| && kept[at] == 13 && kept[at + 1] == 10 && Unended(kept[..at + 1])
  {
    assert EndsAt(kept, at);
    var prefix := kept[..at + 1];
    forall i, j | 0 <= i <= j < |prefix| - 1 && prefix[i] == 58
      ensures !(prefix[j] == 13 && prefix[j + 1] == 10)
    {
      assert !EndsAt(kept, j);
    }
  }

  /** A frame from the first ':' of the bytes to the first CR LF behind it. */
  ghost predicate FirstFrame(s: Bytes, adu: Bytes, surplus: Bytes) {
    && 3 <= |adu| && |adu| + |surplus| <= |s|
    && var skipped := s[..|s| - |adu| - |surplus|];
    && s == skipped + (adu + surplus) && 58 !in skipped
    && adu[0] == 58 && adu[|adu| - 2] == 13 && adu[|adu| - 1] == 10 && Unended(adu[..|adu| - 1])
  }

  lemma {:induction false} FrameFound(s: Bytes, from: nat, at: nat)
    requires from == IndexOf(s, 58, 0) && at == FindEnd(s[from..], 0) && from + at < |s|
    ensures at + 2 <= |s[from..]| && FirstFrame(s, s[from..][..at + 2], s[from..][at + 2..])
  {
    hide IndexOf;
    hide FindEnd;
    hide Unended;
    var kept := s[from..];
    FromStart(s);
    EndsOnce(kept, at);
    var adu, surplus := kept[..at + 2], kept[at + 2..];
    assert kept == adu + surplus;
    assert adu[..at + 1] == kept[..at + 1];
  }

  /** Under ASCII: from the first ':' to the first CR LF behind it, unless 513 characters have none. */
  lemma {:induction false} AsciiBoundary(s: Bytes, direction: Direction)
    ensures match Decide(Ascii, direction, s)
            case Deliver(adu, surplus) => !Unended(s) && FirstFrame(s, adu, surplus)
            case Refuse(error, kept) => error == AduTooLarge && Kept(s, kept) && 513 <= |kept|
            case Await(kept) => Kept(s, kept) && |kept| < 513
  {
    hide IndexOf;
    hide FindEnd;
    hide Unended;
    hide FirstFrame;
    var from := IndexOf(s, 58, 0);
    var at := FindEnd(s[from..], 0);
    EndFound(s);
    if from + at < |s| {
      FrameFound(s, from, at);
    } else {
      FromStart(s);
    }
  }

  /** Without a frame to deliver, exactly what comes before the first ':' is dropped. */
  ghost predicate Kept(s: Bytes, kept: Bytes) {
    && Unended(s) && |kept| <= |s|
    && var skipped := s[..|s| - |kept|];
    && s == skipped + kept && 58 !in skipped && (kept != [] ==> kept[0] == 58)
  }

  /** On a silence-delimited line the bytes never end the frame; 256 are too many. */
  lemma {:induction false} SilenceBoundary(s: Bytes, direction: Direction)
    ensures Decide(Rtu, direction, s) == if |s| < 256 then Await(s) else Refuse(AduTooLarge, s)
  {
  }

  /** Over a stream of RTU frames: the extent decides, and 256 bytes without one are too many. */
  lemma {:induction false} ContentBoundary(s: Bytes, direction: Direction)
    ensures Decide(RtuOverTcp, direction, s)
            == match Extent.DeriveExtent(direction, s)
               case Err(error) => Refuse(error, s)
               case Ok(NeedMore) => if |s| < 256 then Await(s) else Refuse(AduTooLarge, s)
               case Ok(Complete(n)) => if n <= |s| then Deliver(s[..n], s[n..]) else Await(s)
  {
    hide Extent.DeriveExtent;
    var extent := Extent.DeriveExtent(direction, s);
    if extent.Ok? && extent.value.Complete? {
      Extent.ExtentExact(direction, s, extent.value.length);
    }
  }
}
