/** Where an RTU ADU carried over a byte stream ends, derived from its own bytes (src/frame/rtu.rs). */
module Extent {
  import opened Basics
  import opened Messages
  import opened Rtu

  datatype Extent = NeedMore | Complete(length: nat)

  /** What the bytes received so far say about the PDU's length. */
  datatype Size = Unknown | Known(length: nat) | Refused(error: Error)

  /** `ADDRESS_LEN` and `CRC_LEN` around the PDU. */
  const OVERHEAD := 3

  /** Bytes `bytes[at]` announces on top of `fixed`, once `needed` bytes are in. */
  function Announced(bytes: Bytes, needed: nat, at: nat, fixed: nat): Size
    requires at < needed
  {
    if |bytes| < needed then Unknown else Known(fixed + bytes[at])
  }

  function RequestSize(bytes: Bytes): Size
    requires 4 <= |bytes|
  {
    var fc := bytes[1];
    if 0x01 <= fc <= 0x06 then Known(5)
    else if fc == 0x07 || fc == 0x0B || fc == 0x0C || fc == 0x11 then Known(1)
    else if fc == 0x16 then Known(7)
    else if fc == 0x18 then Known(3)
    else if fc == 0x0F || fc == 0x10 then Announced(bytes, 8, 6, 6)
    else if fc == 0x14 || fc == 0x15 then Announced(bytes, 4, 2, 2)
    else if fc == 0x17 then Announced(bytes, 11, 10, 10)
    else if fc == 0x2B && bytes[2] == 0x0E then Known(4)
    else Refused(IndeterminateLength(fc))
  }

  function ResponseSize(bytes: Bytes): Size
    requires 4 <= |bytes|
  {
    var fc := bytes[1];
    if fc == 0x05 || fc == 0x06 || fc == 0x0F || fc == 0x10 || fc == 0x0B then Known(5)
    else if fc == 0x07 then Known(2)
    else if fc == 0x16 then Known(7)
    else if (0x01 <= fc <= 0x04) || fc == 0x0C || fc == 0x11 || fc == 0x14 || fc == 0x15 || fc == 0x17 then
      Announced(bytes, 4, 2, 2)
    else if fc == 0x18 then
      if |bytes| < 5 then Unknown else Known(3 + FromBe(bytes[2], bytes[3]))
    else if fc == 0x2B && bytes[2] == 0x0E then IdentificationSize(bytes)
    else Refused(IndeterminateLength(fc))
  }

  /** The header of a device identification response, then its objects. */
  function IdentificationSize(bytes: Bytes): Size {
    if |bytes| < 10 then Unknown else Walk(bytes, 7, bytes[7])
  }

  /** The object walk: `count` objects remain, the next starting `offset` bytes into the PDU. */
  function Walk(bytes: Bytes, offset: nat, count: nat): Size
    decreases count
  {
    if count == 0 then Known(offset)
    else if 1 + offset + 2 > |bytes| then Unknown
    else Walk(bytes, offset + 2 + bytes[1 + offset + 1], count - 1)
  }

  function PduSize(direction: Direction, bytes: Bytes): Size {
    if |bytes| < 4 then Unknown
    else if bytes[1] >= 0x80 then Known(2)
    else if direction.Request? then RequestSize(bytes)
    else ResponseSize(bytes)
  }

  /** The outcome for `have` bytes once a size is known, or not. */
  function Conclude(size: Size, have: nat): Result<Extent> {
    match size
    case Unknown => Ok(NeedMore)
    case Refused(error) => Err(error)
    case Known(length) =>
      if OVERHEAD + length > MAX_RTU_ADU then Err(AduTooLarge)
      else if have < OVERHEAD + length then Ok(NeedMore)
      else Ok(Complete(OVERHEAD + length))
  }

  /** `derive_extent`. */
  function DeriveExtent(direction: Direction, bytes: Bytes): Result<Extent> {
    Conclude(PduSize(direction, bytes), |bytes|)
  }

  /** `derive_fc43_mei14_response_length`: the walk as the loop it is. */
  method IdentificationExtent(bytes: Bytes) returns (r: Result<Extent>)
    ensures r == Conclude(IdentificationSize(bytes), |bytes|)
  {
    if |bytes| < 10 {
      return Ok(NeedMore);
    }
    var offset := 7;
    for i := 0 to bytes[7]
      invariant 7 <= offset
      invariant Walk(bytes, offset, bytes[7] - i) == IdentificationSize(bytes)
    {
      if 1 + offset + 2 > |bytes| {
        return Ok(NeedMore);
      }
      offset := offset + 2 + bytes[1 + offset + 1];
    }
    var total := 1 + offset + 2;
    if total > 256 {
      return Err(AduTooLarge);
    }
    if |bytes| < total {
      return Ok(NeedMore);
    }
    r := Ok(Complete(total));
  }

  /** `derive_extent`, with its loop. */
  method ExtentOf(direction: Direction, bytes: Bytes) returns (r: Result<Extent>)
    ensures r == DeriveExtent(direction, bytes)
  {
    if 4 <= |bytes| && direction.Response? && bytes[1] == 0x2B && bytes[2] == 0x0E {
      r := IdentificationExtent(bytes);
    } else {
      r := DeriveExtent(direction, bytes);
    }
  }

  // ---- Stability ----

  lemma {:induction false} WalkMonotone(offset: nat, count: nat, bytes: Bytes)
    ensures Walk(bytes, offset, count).Known? ==> offset <= Walk(bytes, offset, count).length
    decreases count
  {
    if count > 0 && 1 + offset + 2 <= |bytes| {
      WalkMonotone(offset + 2 + bytes[1 + offset + 1], count - 1, bytes);
    }
  }

  lemma {:induction false} WalkStable(a: Bytes, b: Bytes, offset: nat, count: nat)
    requires a <= b
    ensures !Walk(a, offset, count).Unknown? ==> Walk(b, offset, count) == Walk(a, offset, count)
    ensures Walk(b, offset, count).Known? && OVERHEAD + Walk(b, offset, count).length <= |a|
            ==> Walk(a, offset, count) == Walk(b, offset, count)
    decreases count
  {
    if count > 0 && 1 + offset + 2 <= |b| {
      var next := offset + 2 + b[1 + offset + 1];
      WalkMonotone(next, count - 1, b);
      WalkStable(a, b, next, count - 1);
    }
  }

  /** More bytes never change a size that is known, and it is known before the ADU it belongs to has ended. */
  lemma {:induction false} SizeStable(direction: Direction, a: Bytes, b: Bytes)
    requires a <= b
    ensures !PduSize(direction, a).Unknown? ==> PduSize(direction, b) == PduSize(direction, a)
    ensures PduSize(direction, b).Known? && OVERHEAD + PduSize(direction, b).length <= |a|
            ==> PduSize(direction, a) == PduSize(direction, b)
  {
    hide Walk;
    if |b| >= 10 {
      WalkStable(a, b, 7, b[7]);
      WalkMonotone(7, b[7], b);
    }
  }

  /** Once an extent or a failure is derived, any further bytes leave it as it is. */
  lemma {:induction false} ExtentStable(direction: Direction, bytes: Bytes, more: Bytes)
    requires DeriveExtent(direction, bytes) != Ok(NeedMore)
    ensures DeriveExtent(direction, bytes + more) == DeriveExtent(direction, bytes)
  {
    hide PduSize;
    SizeStable(direction, bytes, bytes + more);
  }

  lemma {:induction false} SizePositive(direction: Direction, bytes: Bytes)
    ensures PduSize(direction, bytes).Known? ==> 1 <= PduSize(direction, bytes).length
  {
    if |bytes| >= 10 {
      WalkMonotone(7, bytes[7], bytes);
    }
  }

  /** An extent is a legal ADU length, within what is in hand, and every shorter prefix asks for more. */
  lemma {:induction false} ExtentExact(direction: Direction, bytes: Bytes, n: nat)
    requires DeriveExtent(direction, bytes) == Ok(Complete(n))
    ensures 4 <= n <= 256 && n <= |bytes|
    ensures DeriveExtent(direction, bytes[..n]) == Ok(Complete(n))
    ensures forall k :: 0 <= k < n ==> DeriveExtent(direction, bytes[..k]) == Ok(NeedMore)
  {
    hide PduSize;
    SizePositive(direction, bytes);
    SizeStable(direction, bytes[..n], bytes);
    forall k | 0 <= k < n
      ensures DeriveExtent(direction, bytes[..k]) == Ok(NeedMore)
    {
      SizeStable(direction, bytes[..k], bytes);
    }
  }

  /** A byte string that is one derivable ADU and nothing more. */
  predicate IsFrame(direction: Direction, bytes: Bytes) {
    DeriveExtent(direction, bytes) == Ok(Complete(|bytes|))
  }

  /** The derivable ADUs of one direction form a prefix-free code. */
  lemma {:induction false} PrefixFree(direction: Direction, a: Bytes, b: Bytes)
    requires IsFrame(direction, a) && IsFrame(direction, b) && a <= b
    ensures a == b
  {
    hide DeriveExtent;
    ExtentExact(direction, b, |b|);
    assert a == b[..|a|];
  }

  /** Hence a stream of them splits into ADUs in one way only. */
  lemma {:induction false} SplitUnique(direction: Direction, xs: seq<Bytes>, ys: seq<Bytes>)
    requires forall i :: 0 <= i < |xs| ==> IsFrame(direction, xs[i])
    requires forall i :: 0 <= i < |ys| ==> IsFrame(direction, ys[i])
    requires Flatten(xs) == Flatten(ys)
    ensures xs == ys
  {
    hide IsFrame;
    if xs != [] && ys != [] {
      var x, y := xs[0], ys[0];
      assert IsFrame(direction, x) && IsFrame(direction, y);
      if |x| <= |y| {
        assert x == Flatten(xs)[..|x|] == y[..|x|];
        PrefixFree(direction, x, y);
      } else {
        assert y == Flatten(ys)[..|y|] == x[..|y|];
        PrefixFree(direction, y, x);
      }
      assert Flatten(xs[1..]) == Flatten(xs)[|x|..] == Flatten(ys[1..]);
      SplitUnique(direction, xs[1..], ys[1..]);
      assert xs == [x] + xs[1..] && ys == [y] + ys[1..];
    } else if xs != [] {
      FrameNonEmpty(direction, xs);
    } else if ys != [] {
      FrameNonEmpty(direction, ys);
    }
  }

  lemma {:induction false} FrameNonEmpty(direction: Direction, xs: seq<Bytes>)
    requires xs != [] && IsFrame(direction, xs[0])
    ensures Flatten(xs) != []
  {
    hide DeriveExtent;
    ExtentExact(direction, xs[0], |xs[0]|);
  }
}
