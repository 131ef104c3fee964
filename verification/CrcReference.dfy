/** The CRC as plain arithmetic, and what its constants are good for. */
module CrcReference {
  import opened Basics
  import opened Bits
  import opened Crc
  import opened CrcDetection
  import opened Rtu

  /** The bitwise exclusive or of two numbers. */
  function XorNumber(a: nat, b: nat): nat
    decreases a + b
  {
    if a == 0 && b == 0 then 0
    else 2 * XorNumber(a / 2, b / 2) + (if a % 2 != b % 2 then 1 else 0)
  }

  /** One step: halve, and if a one fell out, exclusive-or with 0xA001. */
  function HalveNumber(n: nat): nat {
    if n % 2 == 1 then XorNumber(n / 2, 0xA001) else n / 2
  }

  function HalveTimes(n: nat, times: nat): nat
    decreases times
  {
    if times == 0 then n else HalveTimes(HalveNumber(n), times - 1)
  }

  /** Each byte is exclusive-ored in, then eight steps. */
  function CrcFrom(n: nat, s: Bytes): nat
    decreases |s|
  {
    if s == [] then n else CrcFrom(HalveTimes(XorNumber(n, s[0]), 8), s[1..])
  }

  /** CRC-16 of section 6.2.2 of MODBUS over Serial Line V1.02: from 0xFFFF. */
  function CrcNumber(s: Bytes): nat {
    CrcFrom(0xFFFF, s)
  }

  // ---- Numbers and bit strings ----

  lemma {:induction false} XorOfBits(a: seq<bool>, b: seq<bool>)
    requires |a| == |b|
    ensures FromBits(Differences(a, b)) == XorNumber(FromBits(a), FromBits(b))
    decreases |a|
  {
    var e := Differences(a, b);
    if a == [] {
    } else {
      hide FromBits;
      hide XorNumber;
      XorOfBits(a[1..], b[1..]);
      assert e[1..] == Differences(a[1..], b[1..]);
      assert e[0] == (a[0] != b[0]);
      hide Differences;
      HalfOfBits(a);
      HalfOfBits(b);
      HalfOfBits(e);
      XorStep(FromBits(a), FromBits(b));
    }
  }

  lemma {:induction false} HalfOfBits(bits: seq<bool>)
    requires bits != []
    ensures FromBits(bits) == 2 * FromBits(bits[1..]) + (if bits[0] then 1 else 0)
    ensures FromBits(bits) / 2 == FromBits(bits[1..]) && FromBits(bits) % 2 == (if bits[0] then 1 else 0)
  {
  }

  lemma {:induction false} XorStep(a: nat, b: nat)
    ensures XorNumber(a, b) == 2 * XorNumber(a / 2, b / 2) + (if a % 2 != b % 2 then 1 else 0)
  {
  }

  lemma {:induction false} XorIsDifferences(r: Register, s: Register)
    ensures Xor(r, s) == Differences(r, s)
  {
  }

  /** The register's value, bit 0 being worth 1. */
  function Value(r: Register): nat {
    FromBits(r)
  }

  lemma {:induction false} XorValue(r: Register, s: Register)
    ensures Value(Xor(r, s)) == XorNumber(Value(r), Value(s))
  {
    XorIsDifferences(r, s);
    XorOfBits(r, s);
  }

  /** The register folded in when a one falls out. */
  function Polynomial(): (p: Register)
    ensures forall i :: 0 <= i < 16 ==> p[i] == Tap(i)
  {
    seq(16, i requires 0 <= i < 16 => Tap(i))
  }

  lemma {:induction false} PeelAt(bits: seq<bool>, k: nat)
    requires k < |bits|
    ensures FromBits(bits[k..]) == 2 * FromBits(bits[k + 1..]) + (if bits[k] then 1 else 0)
  {
    assert bits[k..][1..] == bits[k + 1..];
  }

  lemma {:induction false} PolynomialValue()
    ensures Value(Polynomial()) == 0xA001
  {
    hide Pow2;
    var p := Polynomial();
    assert p[16..] == [] && p[0..] == p;
    assert FromBits(p[16..]) == 0;
    hide FromBits;
    hide Polynomial;
    PeelAt(p, 15);
    PeelAt(p, 14);
    PeelAt(p, 13);
    PeelAt(p, 12);
    PeelAt(p, 11);
    PeelAt(p, 10);
    PeelAt(p, 9);
    PeelAt(p, 8);
    PeelAt(p, 7);
    PeelAt(p, 6);
    PeelAt(p, 5);
    PeelAt(p, 4);
    PeelAt(p, 3);
    PeelAt(p, 2);
    PeelAt(p, 1);
    PeelAt(p, 0);
  }

  function Cleared(n: nat): (bits: seq<bool>)
    ensures |bits| == n && AllClear(bits)
  {
    seq(n, _ => false)
  }

  lemma {:induction false} InitialValue()
    ensures Value(INITIAL) == 0xFFFF
  {
    hide FromBits;
    assert Pow2(0) == 1;
    hide Pow2;
    OnesValue(16);
    assert INITIAL == seq(16, _ => true);
    FourMore(0);
    FourMore(4);
    FourMore(8);
    FourMore(12);
  }

  lemma {:induction false} FourMore(n: nat)
    ensures Pow2(n + 4) == 16 * Pow2(n)
  {
    assert Pow2(n + 4) == 2 * Pow2(n + 3) && Pow2(n + 2) == 2 * Pow2(n + 1);
  }

  lemma {:induction false} OnesValue(n: nat)
    ensures FromBits(seq(n, _ => true)) == Pow2(n) - 1
  {
    if n == 0 {
    } else {
      OnesValue(n - 1);
      assert seq(n, _ => true)[1..] == seq(n - 1, _ => true);
    }
  }

  lemma {:induction false} MovedValue(r: Register)
    ensures Value(Moved(r, false)) == Value(r) / 2
  {
    var m := Moved(r, false);
    assert m == r[1..] + [false];
    PaddedValue(m, 15);
    assert m[..15] == r[1..];
  }

  lemma {:induction false} ShiftValue(r: Register)
    ensures Value(Shift(r)) == HalveNumber(Value(r))
  {
    hide Moved;
    hide Value;
    hide Xor;
    hide XorNumber;
    MovedValue(r);
    OddValue(r);
    if r[0] {
      FoldedIn(r);
      XorValue(Moved(r, false), Polynomial());
      PolynomialValue();
    }
  }

  lemma {:induction false} OddValue(r: Register)
    ensures Value(r) % 2 == 1 <==> r[0]
  {
  }

  lemma {:induction false} FoldedIn(r: Register)
    ensures Moved(r, true) == Xor(Moved(r, false), Polynomial())
  {
    var left, right := Moved(r, true), Xor(Moved(r, false), Polynomial());
    forall i | 0 <= i < 16
      ensures left[i] == right[i]
    {
    }
  }

  lemma {:induction false} ShiftNValue(r: Register, n: nat)
    ensures Value(ShiftN(r, n)) == HalveTimes(Value(r), n)
    decreases n
  {
    if n == 0 {
    } else {
      hide Shift;
      hide HalveNumber;
      hide Value;
      ShiftValue(r);
      ShiftNValue(Shift(r), n - 1);
    }
  }

  lemma {:induction false} LoadedValue(b: Byte)
    ensures Value(Load(ByteBits(b))) == b
  {
    hide ByteBits;
    var r := Load(ByteBits(b));
    assert r[..8] == ByteBits(b);
    PaddedValue(r, 8);
    ByteRoundTrip(b, ByteBits(b));
  }

  lemma {:induction false} UpdateValue(r: Register, s: Bytes)
    ensures Value(Update(r, s)) == CrcFrom(Value(r), s)
    decreases |s|
  {
    if s == [] {
    } else {
      hide Value;
      hide XorNumber;
      hide HalveTimes;
      hide ShiftN;
      hide Xor;
      var t := Xor(r, Load(ByteBits(s[0])));
      XorValue(r, Load(ByteBits(s[0])));
      LoadedValue(s[0]);
      ShiftNValue(t, 8);
      UpdateValue(UpdateByte(r, s[0]), s[1..]);
    }
  }

  lemma {:induction false} WordValue(r: Register)
    ensures FromBe(HighByte(r), LowByte(r)) == Value(r)
  {
    hide FromBits;
    assert r == r[..8] + r[8..];
    FromBitsConcat(r[..8], r[8..]);
    Shifted8(FromBits(r[8..]));
  }

  lemma {:induction false} Shifted8(x: nat)
    ensures ShiftLeft(x, 8) == 0x100 * x
  {
    assert ShiftLeft(x, 1) == 2 * ShiftLeft(x, 0);
    assert ShiftLeft(x, 2) == 4 * x;
    assert ShiftLeft(x, 4) == 4 * ShiftLeft(x, 2);
    assert ShiftLeft(x, 6) == 4 * ShiftLeft(x, 4);
    assert ShiftLeft(x, 8) == 4 * ShiftLeft(x, 6);
  }

  /** The checksum is that number, for every byte string. */
  lemma {:induction false} CrcIsNumber(s: Bytes)
    ensures Crc16(s) == CrcNumber(s)
  {
    hide Value;
    hide CrcFrom;
    hide Update;
    UpdateValue(INITIAL, s);
    InitialValue();
    WordValue(Update(INITIAL, s));
  }

  // ---- What the initial value is for ----

  function Zeros(n: nat): (s: Bytes)
    ensures |s| == n && forall i :: 0 <= i < n ==> s[i] == 0
  {
    seq(n, _ => 0)
  }

  lemma {:induction false} ZeroBits(n: nat)
    ensures AllClear(AllBits(Zeros(n)))
  {
    if n == 0 {
    } else {
      ZeroBits(n - 1);
      assert Zeros(n)[1..] == Zeros(n - 1);
      ZeroByte();
    }
  }

  lemma {:induction false} ZeroByte()
    ensures AllClear(ByteBits(0))
  {
    hide ByteBits;
    var bits := Cleared(8);
    ByteRoundTrip(0, bits);
    ClearValue(bits);
  }

  /** A line of zeros is no frame, whatever its length. */
  lemma {:induction false} ZerosRefused(n: nat)
    requires 4 <= n <= 256
    ensures SplitRtu(Zeros(n)) == Err(Checksum)
  {
    hide Feed;
    hide Crc16;
    ZeroBits(n);
    FeedClear(INITIAL, AllBits(Zeros(n)));
    SplitIffIntact(Zeros(n));
    assert INITIAL[0] && !ZERO[0];
  }
}
