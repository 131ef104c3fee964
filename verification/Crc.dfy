/** CRC-16/MODBUS (src/frame/rtu.rs): reversed polynomial 0xA001, initial value 0xFFFF. */
module Crc {
  import opened Basics
  import opened Bits

  /** The 16-bit register, least significant bit first. */
  type Register = r: seq<bool> | |r| == 16
    witness [false, false, false, false, false, false, false, false,
             false, false, false, false, false, false, false, false]

  function Filled(bit: bool): (r: Register)
    ensures forall i :: 0 <= i < 16 ==> r[i] == bit
  {
    [bit, bit, bit, bit, bit, bit, bit, bit, bit, bit, bit, bit, bit, bit, bit, bit]
  }

  const ZERO: Register := Filled(false)
  const INITIAL: Register := Filled(true)

  /** The bits set in the reversed polynomial 0xA001. */
  predicate Tap(i: nat) {
    i == 0 || i == 13 || i == 15
  }

  function Xor(r: Register, s: Register): (t: Register)
    ensures forall i :: 0 <= i < 16 ==> t[i] == (r[i] != s[i])
  {
    seq(16, i requires 0 <= i < 16 => r[i] != s[i])
  }

  /** The register moved right by one place, the polynomial folded in when `feedback`. */
  function Moved(r: Register, feedback: bool): (t: Register)
    ensures forall i :: 0 <= i < 16 ==> t[i] == ((i < 15 && r[i + 1]) != (feedback && Tap(i)))
  {
    seq(16, i requires 0 <= i < 16 => (i < 15 && r[i + 1]) != (feedback && Tap(i)))
  }

  /** One right shift; a one falling out folds the polynomial in. */
  function Shift(r: Register): Register {
    Moved(r, r[0])
  }

  function ShiftN(r: Register, n: nat): Register
    decreases n
  {
    if n == 0 then r else ShiftN(Shift(r), n - 1)
  }

  /** Up to sixteen bits loaded into the low end of a register. */
  function Load(bits: seq<bool>): (r: Register)
    requires |bits| <= 16
    ensures forall i :: 0 <= i < 16 ==> r[i] == (i < |bits| && bits[i])
  {
    seq(16, i requires 0 <= i < 16 => i < |bits| && bits[i])
  }

  /** One message byte: exclusive-or it into the low half, then shift eight times. */
  function UpdateByte(r: Register, b: Byte): Register {
    ShiftN(Xor(r, Load(ByteBits(b))), 8)
  }

  function Update(r: Register, s: Bytes): Register
    decreases |s|
  {
    if s == [] then r else Update(UpdateByte(r, s[0]), s[1..])
  }

  /** The checksum's low byte, the first of the two on the wire. */
  function LowByte(r: Register): Byte {
    ByteFromBits(r[..8])
  }

  function HighByte(r: Register): Byte {
    ByteFromBits(r[8..])
  }

  /** `crc16`: the register after every byte, as a 16-bit number. */
  function Crc16(s: Bytes): Word {
    var r := Update(INITIAL, s);
    FromBe(HighByte(r), LowByte(r))
  }

  // ---- The register driven one bit at a time ----

  function Step(r: Register, bit: bool): Register {
    Moved(r, r[0] != bit)
  }

  function Feed(r: Register, bits: seq<bool>): Register
    decreases |bits|
  {
    if bits == [] then r else Feed(Step(r, bits[0]), bits[1..])
  }

  lemma {:induction false} FeedConcat(r: Register, a: seq<bool>, b: seq<bool>)
    ensures Feed(r, a + b) == Feed(Feed(r, a), b)
    decreases |a|
  {
    if a == [] {
      assert a + b == b;
    } else {
      assert (a + b)[1..] == a[1..] + b;
      FeedConcat(Step(r, a[0]), a[1..], b);
    }
  }

  /** Shifting a register with bits loaded consumes the lowest of them. */
  lemma {:induction false} ShiftLoaded(r: Register, bits: seq<bool>)
    requires 0 < |bits| <= 16
    ensures Shift(Xor(r, Load(bits))) == Xor(Step(r, bits[0]), Load(bits[1..]))
  {
    var left, right := Shift(Xor(r, Load(bits))), Xor(Step(r, bits[0]), Load(bits[1..]));
    forall i | 0 <= i < 16
      ensures left[i] == right[i]
    {
    }
  }

  /** Feeding up to sixteen bits one by one is loading them at once and shifting. */
  lemma {:induction false} FeedIsLoadAndShift(r: Register, bits: seq<bool>)
    requires |bits| <= 16
    ensures Feed(r, bits) == ShiftN(Xor(r, Load(bits)), |bits|)
    decreases |bits|
  {
    if bits == [] {
      assert Xor(r, Load([])) == r;
    } else {
      ShiftLoaded(r, bits);
      FeedIsLoadAndShift(Step(r, bits[0]), bits[1..]);
    }
  }

  /** The byte-at-a-time checksum is the bit-at-a-time one. */
  lemma {:induction false} UpdateIsFeed(r: Register, s: Bytes)
    ensures Update(r, s) == Feed(r, AllBits(s))
    decreases |s|
  {
    if s == [] {
    } else {
      FeedIsLoadAndShift(r, ByteBits(s[0]));
      FeedConcat(r, ByteBits(s[0]), AllBits(s[1..]));
      UpdateIsFeed(UpdateByte(r, s[0]), s[1..]);
    }
  }

  // ---- Linearity ----

  function Differences(a: seq<bool>, b: seq<bool>): (e: seq<bool>)
    requires |a| == |b|
    ensures |e| == |a|
    ensures forall i :: 0 <= i < |a| ==> e[i] == (a[i] != b[i])
  {
    seq(|a|, i requires 0 <= i < |a| => a[i] != b[i])
  }

  lemma {:induction false} ShiftNonZero(x: Register)
    ensures Shift(x) == ZERO <==> x == ZERO
  {
    if Shift(x) == ZERO {
      assert x[0] == Shift(x)[15];
      forall i | 1 <= i < 16
        ensures !x[i]
      {
        assert x[i] == Shift(x)[i - 1];
      }
    }
  }

  lemma {:induction false} ShiftNNonZero(x: Register, n: nat)
    ensures ShiftN(x, n) == ZERO <==> x == ZERO
    decreases n
  {
    if n == 0 {
    } else {
      ShiftNonZero(x);
      ShiftNNonZero(Shift(x), n - 1);
    }
  }

  lemma {:induction false} StepLinear(r: Register, s: Register, x: bool, y: bool)
    ensures Xor(Step(r, x), Step(s, y)) == Step(Xor(r, s), x != y)
  {
    var left, right := Xor(Step(r, x), Step(s, y)), Step(Xor(r, s), x != y);
    forall i | 0 <= i < 16
      ensures left[i] == right[i]
    {
    }
  }

  /** What two messages leave in the register differs by what their difference leaves in an empty one. */
  lemma {:induction false} FeedLinear(r: Register, s: Register, a: seq<bool>, b: seq<bool>)
    requires |a| == |b|
    ensures Xor(Feed(r, a), Feed(s, b)) == Feed(Xor(r, s), Differences(a, b))
    decreases |a|
  {
    if a == [] {
    } else {
      StepLinear(r, s, a[0], b[0]);
      assert Differences(a, b)[1..] == Differences(a[1..], b[1..]);
      FeedLinear(Step(r, a[0]), Step(s, b[0]), a[1..], b[1..]);
    }
  }

  lemma {:induction false} XorZero(r: Register, s: Register)
    ensures Xor(r, s) == ZERO <==> s == r
  {
    if Xor(r, s) == ZERO {
      forall i | 0 <= i < 16
        ensures r[i] == s[i]
      {
        assert !Xor(r, s)[i];
      }
    }
  }

  // ---- The residue of a message followed by its own checksum ----

  /** Sixteen further bits empty the register exactly when they are its own contents. */
  lemma {:induction false} ResidueZero(r: Register, bits: seq<bool>)
    requires |bits| == 16
    ensures Feed(r, bits) == ZERO <==> bits == r
  {
    FeedIsLoadAndShift(r, bits);
    ShiftNNonZero(Xor(r, Load(bits)), 16);
    assert Load(bits) == bits;
    XorZero(r, bits);
  }

  /** The register bits and the two wire bytes say the same thing. */
  lemma {:induction false} WireBytes(r: Register, lo: Byte, hi: Byte)
    ensures AllBits([lo, hi]) == r <==> (lo == LowByte(r) && hi == HighByte(r))
  {
    assert [lo, hi][1..] == [hi] && [hi][1..] == [];
    assert AllBits([lo, hi]) == ByteBits(lo) + ByteBits(hi);
    assert r == r[..8] + r[8..];
    ByteRoundTrip(lo, r[..8]);
    ByteRoundTrip(hi, r[8..]);
    if AllBits([lo, hi]) == r {
      assert ByteBits(lo) == AllBits([lo, hi])[..8] == r[..8];
      assert ByteBits(hi) == AllBits([lo, hi])[8..] == r[8..];
    }
  }

  /** A message and two trailing bytes leave an empty register exactly when the bytes are its checksum, low first. */
  lemma {:induction false} ChecksumResidue(body: Bytes, lo: Byte, hi: Byte)
    ensures Feed(INITIAL, AllBits(body + [lo, hi])) == ZERO <==> Crc16(body) == FromBe(hi, lo)
  {
    hide LowByte;
    hide HighByte;
    hide AllBits;
    hide Step;
    hide UpdateByte;
    var r := Update(INITIAL, body);
    UpdateIsFeed(INITIAL, body);
    AllBitsConcat(body, [lo, hi]);
    FeedConcat(INITIAL, AllBits(body), AllBits([lo, hi]));
    ResidueZero(r, AllBits([lo, hi]));
    WireBytes(r, lo, hi);
    FromBeInjective(HighByte(r), LowByte(r), hi, lo);
  }
}
