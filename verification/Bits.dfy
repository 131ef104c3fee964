/** Little-endian bit strings, shared by coil packing and by the CRC. */
module Bits {
  import opened Basics

  function Pow2(n: nat): nat
    ensures Pow2(n) > 0
  {
    if n == 0 then 1 else 2 * Pow2(n - 1)
  }

  /** The `n` low bits of `x`, least significant first. */
  function BitsOf(x: nat, n: nat): (bits: seq<bool>)
    ensures |bits| == n
    decreases n
  {
    if n == 0 then [] else [x % 2 == 1] + BitsOf(x / 2, n - 1)
  }

  /** The number whose little-endian bits these are. */
  function FromBits(bits: seq<bool>): (x: nat)
    ensures x < Pow2(|bits|)
  {
    if bits == [] then 0 else (if bits[0] then 1 else 0) + 2 * FromBits(bits[1..])
  }

  lemma {:induction false} FromBitsOf(x: nat, n: nat)
    requires x < Pow2(n)
    ensures FromBits(BitsOf(x, n)) == x
    decreases n
  {
    if n == 0 {
    } else {
      FromBitsOf(x / 2, n - 1);
      assert BitsOf(x, n)[1..] == BitsOf(x / 2, n - 1);
    }
  }

  lemma {:induction false} BitsOfFrom(bits: seq<bool>)
    ensures BitsOf(FromBits(bits), |bits|) == bits
  {
    if bits == [] {
    } else {
      BitsOfFrom(bits[1..]);
      assert bits == [bits[0]] + bits[1..];
    }
  }

  /** `x` shifted left by `n` places. */
  function ShiftLeft(x: nat, n: nat): nat {
    if n == 0 then x else 2 * ShiftLeft(x, n - 1)
  }

  lemma {:induction false} FromBitsConcat(a: seq<bool>, b: seq<bool>)
    ensures FromBits(a + b) == FromBits(a) + ShiftLeft(FromBits(b), |a|)
  {
    if a == [] {
      assert a + b == b;
    } else {
      assert (a + b)[1..] == a[1..] + b;
      FromBitsConcat(a[1..], b);
    }
  }

  lemma {:induction false} Pow2Of8()
    ensures Pow2(8) == 0x100
  {
    assert Pow2(4) == 16;
  }

  /** The eight bits of a byte, least significant first. */
  function ByteBits(b: Byte): (bits: seq<bool>)
    ensures |bits| == 8
  {
    BitsOf(b, 8)
  }

  function ByteFromBits(bits: seq<bool>): (b: Byte)
    requires |bits| <= 8
  {
    Pow2Monotone(|bits|, 8);
    Pow2Of8();
    FromBits(bits)
  }

  lemma {:induction false} Pow2Monotone(a: nat, b: nat)
    requires a <= b
    ensures Pow2(a) <= Pow2(b)
    decreases b - a
  {
    if a < b {
      Pow2Monotone(a + 1, b);
    }
  }

  lemma {:induction false} ByteRoundTrip(b: Byte, bits: seq<bool>)
    requires |bits| == 8
    ensures ByteFromBits(ByteBits(b)) == b
    ensures ByteBits(ByteFromBits(bits)) == bits
  {
    Pow2Of8();
    FromBitsOf(b, 8);
    BitsOfFrom(bits);
  }

  /** All bits of a byte string, in order. */
  function AllBits(s: Bytes): (bits: seq<bool>)
    ensures |bits| == 8 * |s|
  {
    if s == [] then [] else ByteBits(s[0]) + AllBits(s[1..])
  }

  lemma {:induction false} AllBitsConcat(a: Bytes, b: Bytes)
    ensures AllBits(a + b) == AllBits(a) + AllBits(b)
  {
    if a == [] {
      assert a + b == b;
    } else {
      assert (a + b)[1..] == a[1..] + b;
      AllBitsConcat(a[1..], b);
    }
  }

  lemma {:induction false} AllBitsInjective(a: Bytes, b: Bytes)
    requires AllBits(a) == AllBits(b)
    ensures a == b
  {
    assert |a| == |b|;
    if a == [] {
    } else {
      assert AllBits(a)[..8] == ByteBits(a[0]) && AllBits(b)[..8] == ByteBits(b[0]);
      assert AllBits(a)[8..] == AllBits(a[1..]) && AllBits(b)[8..] == AllBits(b[1..]);
      ByteRoundTrip(a[0], ByteBits(a[0]));
      ByteRoundTrip(b[0], ByteBits(b[0]));
      AllBitsInjective(a[1..], b[1..]);
      assert a == [a[0]] + a[1..] && b == [b[0]] + b[1..];
    }
  }

  // ---- Coil packing (`push_bits`, `bits_from_bytes` and `packed_bits` of src/frame/pdu.rs) ----

  predicate AllClear(bits: seq<bool>) {
    forall i :: 0 <= i < |bits| ==> !bits[i]
  }

  /** `packed_len`. */
  function PackedLen(count: nat): nat {
    (count + 7) / 8
  }

  /** Eight bits a byte, least significant first, the last byte padded with zeros. */
  function PackBits(bits: seq<bool>): (data: Bytes)
    ensures |data| == PackedLen(|bits|)
  {
    if bits == [] then []
    else if |bits| <= 8 then [ByteFromBits(bits)]
    else [ByteFromBits(bits[..8])] + PackBits(bits[8..])
  }

  lemma {:induction false} ClearValue(bits: seq<bool>)
    requires AllClear(bits)
    ensures FromBits(bits) == 0
  {
    if bits == [] {
    } else {
      ClearValue(bits[1..]);
    }
  }

  lemma {:induction false} ZeroShifted(n: nat)
    ensures ShiftLeft(0, n) == 0
  {
    if n == 0 {
    } else {
      ZeroShifted(n - 1);
    }
  }

  /** Zeros above the value do not change it. */
  lemma {:induction false} PaddedValue(bits: seq<bool>, q: nat)
    requires q <= |bits| && AllClear(bits[q..])
    ensures FromBits(bits) == FromBits(bits[..q])
  {
    assert bits == bits[..q] + bits[q..];
    FromBitsConcat(bits[..q], bits[q..]);
    ClearValue(bits[q..]);
    ZeroShifted(q);
  }

  lemma {:induction false} ShortByte(bits: seq<bool>)
    requires |bits| <= 8
    ensures ByteBits(ByteFromBits(bits))[..|bits|] == bits
    ensures AllClear(ByteBits(ByteFromBits(bits))[|bits|..])
  {
    var full := bits + seq(8 - |bits|, _ => false);
    assert full[..|bits|] == bits;
    PaddedValue(full, |bits|);
    ByteRoundTrip(0, full);
  }

  lemma {:induction false} PackedStep(head: seq<bool>, tail: Bytes, count: nat)
    requires |head| == 8 && count <= |AllBits(tail)|
    ensures var all := AllBits([ByteFromBits(head)] + tail);
            && 8 + count <= |all|
            && all[..8 + count] == head + AllBits(tail)[..count]
            && all[8 + count..] == AllBits(tail)[count..]
  {
    hide ByteBits;
    hide ByteFromBits;
    ByteRoundTrip(0, head);
    assert ([ByteFromBits(head)] + tail)[1..] == tail;
  }

  lemma {:induction false} PackedShort(bits: seq<bool>)
    requires 0 < |bits| <= 8
    ensures AllBits(PackBits(bits)) == ByteBits(ByteFromBits(bits))
  {
    hide ByteBits;
    hide ByteFromBits;
    assert PackBits(bits)[1..] == [];
  }

  /** Unpacking what was packed gives the bits back, followed by clear padding. */
  lemma {:induction false} Packed(bits: seq<bool>)
    ensures |bits| <= |AllBits(PackBits(bits))|
    ensures AllBits(PackBits(bits))[..|bits|] == bits
    ensures AllClear(AllBits(PackBits(bits))[|bits|..])
  {
    hide ByteBits;
    hide ByteFromBits;
    hide AllBits;
    if bits == [] {
    } else if |bits| <= 8 {
      PackedShort(bits);
      ShortByte(bits);
    } else {
      Packed(bits[8..]);
      PackedStep(bits[..8], PackBits(bits[8..]), |bits| - 8);
      assert bits == bits[..8] + bits[8..];
    }
  }

  lemma {:induction false} UnpackedShort(b: Byte, q: nat)
    requires 0 < q <= 8 && AllClear(ByteBits(b)[q..])
    ensures PackBits(ByteBits(b)[..q]) == [b]
  {
    ByteRoundTrip(b, ByteBits(b));
    PaddedValue(ByteBits(b), q);
  }

  /** Packing what was unpacked gives the bytes back when they are as many as needed and their padding is clear. */
  lemma {:induction false} Unpacked(data: Bytes, q: nat)
    requires |data| == PackedLen(q)
    requires AllClear(AllBits(data)[q..])
    ensures PackBits(AllBits(data)[..q]) == data
  {
    hide ByteBits;
    hide ByteFromBits;
    if q == 0 {
    } else {
      var bits, head, tail := AllBits(data), ByteBits(data[0]), AllBits(data[1..]);
      if q <= 8 {
        assert data == [data[0]] && data[1..] == [];
        assert bits == head;
        UnpackedShort(data[0], q);
      } else {
        assert tail[q - 8..] == bits[q..];
        Unpacked(data[1..], q - 8);
        assert bits[..q][..8] == head && bits[..q][8..] == tail[..q - 8];
        ByteRoundTrip(data[0], head);
        assert data == [data[0]] + data[1..];
      }
    }
  }
}
