/**
 * Two flipped bits: the register cycles through 32767 values before it repeats, so no two bits closer than that cancel.
 */
module CrcPairs {
  import opened Bits
  import opened Crc
  import opened CrcDetection

  // ---- Shifting is linear ----

  lemma {:induction false} ShiftLinear(r: Register, s: Register)
    ensures Shift(Xor(r, s)) == Xor(Shift(r), Shift(s))
  {
    StepLinear(r, s, false, false);
  }

  lemma {:induction false} ShiftNLinear(r: Register, s: Register, n: nat)
    ensures ShiftN(Xor(r, s), n) == Xor(ShiftN(r, n), ShiftN(s, n))
    decreases n
  {
    if n == 0 {
    } else {
      hide Shift;
      hide Xor;
      ShiftLinear(r, s);
      ShiftNLinear(Shift(r), Shift(s), n - 1);
    }
  }

  lemma {:induction false} ShiftNAdd(r: Register, m: nat, n: nat)
    ensures ShiftN(ShiftN(r, m), n) == ShiftN(r, m + n)
    decreases m
  {
    if m == 0 {
    } else {
      hide Shift;
      ShiftNAdd(Shift(r), m - 1, n);
    }
  }

  lemma {:induction false} ShiftNOne(r: Register, n: nat)
    ensures Shift(ShiftN(r, n)) == ShiftN(r, n + 1) == ShiftN(Shift(r), n)
  {
    hide Shift;
    ShiftNAdd(r, n, 1);
    assert ShiftN(ShiftN(r, n), 1) == ShiftN(Shift(ShiftN(r, n)), 0);
  }

  lemma {:induction false} ShiftNInjective(r: Register, s: Register, n: nat)
    ensures ShiftN(r, n) == ShiftN(s, n) ==> r == s
  {
    hide Xor;
    hide ShiftN;
    ShiftNLinear(r, s, n);
    ShiftNNonZero(Xor(r, s), n);
    XorZero(ShiftN(r, n), ShiftN(s, n));
    XorZero(r, s);
  }

  // ---- Multiplying instead of shifting ----

  /** The register with only its highest bit set; shifting it gives every power. */
  const TOP: Register := Load([false, false, false, false, false, false, false, false,
                               false, false, false, false, false, false, false, true])

  function Scaled(bit: bool, r: Register): Register {
    if bit then r else ZERO
  }

  /** The sum of shifted copies of `r`, one for each bit set among the lowest `n` of `a`. */
  function Mul(a: Register, n: nat, r: Register): Register
    requires n <= 16
  {
    if n == 0 then ZERO else Xor(Shift(Mul(a, n - 1, r)), Scaled(a[n - 1], r))
  }

  lemma {:induction false} MulShifts(a: Register, n: nat, r: Register, m: nat)
    requires n <= 16
    ensures Mul(a, n, ShiftN(r, m)) == ShiftN(Mul(a, n, r), m)
    decreases n
  {
    hide Xor;
    hide Shift;
    hide ShiftN;
    if n == 0 {
      ShiftNNonZero(ZERO, m);
    } else {
      MulShifts(a, n - 1, r, m);
      ShiftNLinear(Shift(Mul(a, n - 1, r)), Scaled(a[n - 1], r), m);
      ShiftNOne(Mul(a, n - 1, r), m);
      ShiftNNonZero(ZERO, m);
    }
  }

  /** The lowest n bits of a register, moved to its high end. */
  function Raised(a: Register, n: nat): (r: Register)
    requires n <= 16
    ensures forall i :: 0 <= i < 16 ==> r[i] == (i >= 16 - n && a[i - (16 - n)])
  {
    seq(16, i requires 0 <= i < 16 => i >= 16 - n && a[i - (16 - n)])
  }

  lemma {:induction false} RaisedNext(a: Register, n: nat)
    requires n < 16
    ensures Raised(a, n + 1) == Xor(Shift(Raised(a, n)), Scaled(a[n], TOP))
  {
    var left, right := Raised(a, n + 1), Xor(Shift(Raised(a, n)), Scaled(a[n], TOP));
    forall i | 0 <= i < 16
      ensures left[i] == right[i]
    {
    }
  }

  /** Multiplying the top register puts the bits in place, one below the other. */
  lemma {:induction false} MulTop(a: Register, n: nat)
    requires n <= 16
    ensures Mul(a, n, TOP) == Raised(a, n)
    decreases n
  {
    if n == 0 {
      assert Raised(a, 0) == ZERO;
    } else {
      hide Xor;
      hide Shift;
      hide Raised;
      hide Scaled;
      MulTop(a, n - 1);
      RaisedNext(a, n - 1);
    }
  }

  /** Shifting any register that is itself a power of the top one is multiplying the powers. */
  lemma {:induction false} MulPowers(k: nat, m: nat)
    ensures Mul(ShiftN(TOP, k), 16, ShiftN(TOP, m)) == ShiftN(TOP, k + m)
  {
    hide ShiftN;
    hide Mul;
    var a := ShiftN(TOP, k);
    MulShifts(a, 16, TOP, m);
    MulTop(a, 16);
    assert Raised(a, 16) == a;
    ShiftNAdd(TOP, k, m);
  }

  // ---- The same on machine words ----

  /** The register holds the bits of this word. */
  predicate Holds(r: Register, b: bv16) {
    && r[0] == (b & 1 != 0) && r[1] == (b & 2 != 0) && r[2] == (b & 4 != 0) && r[3] == (b & 8 != 0)
    && r[4] == (b & 16 != 0) && r[5] == (b & 32 != 0) && r[6] == (b & 64 != 0) && r[7] == (b & 128 != 0)
    && r[8] == (b & 256 != 0) && r[9] == (b & 512 != 0) && r[10] == (b & 1024 != 0) && r[11] == (b & 2048 != 0)
    && r[12] == (b & 4096 != 0) && r[13] == (b & 8192 != 0) && r[14] == (b & 16384 != 0) && r[15] == (b & 32768 != 0)
  }

  lemma {:induction false} ShiftEach(r: Register)
    ensures Shift(r)[0] == (r[1] != r[0])
    ensures Shift(r)[1] == r[2]
    ensures Shift(r)[2] == r[3]
    ensures Shift(r)[3] == r[4]
    ensures Shift(r)[4] == r[5]
    ensures Shift(r)[5] == r[6]
    ensures Shift(r)[6] == r[7]
    ensures Shift(r)[7] == r[8]
    ensures Shift(r)[8] == r[9]
    ensures Shift(r)[9] == r[10]
    ensures Shift(r)[10] == r[11]
    ensures Shift(r)[11] == r[12]
    ensures Shift(r)[12] == r[13]
    ensures Shift(r)[13] == (r[14] != r[0])
    ensures Shift(r)[14] == r[15]
    ensures Shift(r)[15] == r[0]
  {
  }

  lemma {:induction false} XorEach(r: Register, s: Register)
    ensures Xor(r, s)[0] == (r[0] != s[0])
    ensures Xor(r, s)[1] == (r[1] != s[1])
    ensures Xor(r, s)[2] == (r[2] != s[2])
    ensures Xor(r, s)[3] == (r[3] != s[3])
    ensures Xor(r, s)[4] == (r[4] != s[4])
    ensures Xor(r, s)[5] == (r[5] != s[5])
    ensures Xor(r, s)[6] == (r[6] != s[6])
    ensures Xor(r, s)[7] == (r[7] != s[7])
    ensures Xor(r, s)[8] == (r[8] != s[8])
    ensures Xor(r, s)[9] == (r[9] != s[9])
    ensures Xor(r, s)[10] == (r[10] != s[10])
    ensures Xor(r, s)[11] == (r[11] != s[11])
    ensures Xor(r, s)[12] == (r[12] != s[12])
    ensures Xor(r, s)[13] == (r[13] != s[13])
    ensures Xor(r, s)[14] == (r[14] != s[14])
    ensures Xor(r, s)[15] == (r[15] != s[15])
  {
  }

  function ShiftWord(b: bv16): bv16 {
    if b & 1 != 0 then (b >> 1) ^ 0xA001 else b >> 1
  }

  lemma {:induction false} ShiftWordBits(b: bv16)
    ensures (ShiftWord(b) & 1 != 0) == ((b & 2 != 0) != (b & 1 != 0))
    ensures (ShiftWord(b) & 2 != 0) == (b & 4 != 0)
    ensures (ShiftWord(b) & 4 != 0) == (b & 8 != 0)
    ensures (ShiftWord(b) & 8 != 0) == (b & 16 != 0)
    ensures (ShiftWord(b) & 16 != 0) == (b & 32 != 0)
    ensures (ShiftWord(b) & 32 != 0) == (b & 64 != 0)
    ensures (ShiftWord(b) & 64 != 0) == (b & 128 != 0)
    ensures (ShiftWord(b) & 128 != 0) == (b & 256 != 0)
    ensures (ShiftWord(b) & 256 != 0) == (b & 512 != 0)
    ensures (ShiftWord(b) & 512 != 0) == (b & 1024 != 0)
    ensures (ShiftWord(b) & 1024 != 0) == (b & 2048 != 0)
    ensures (ShiftWord(b) & 2048 != 0) == (b & 4096 != 0)
    ensures (ShiftWord(b) & 4096 != 0) == (b & 8192 != 0)
    ensures (ShiftWord(b) & 8192 != 0) == ((b & 16384 != 0) != (b & 1 != 0))
    ensures (ShiftWord(b) & 16384 != 0) == (b & 32768 != 0)
    ensures (ShiftWord(b) & 32768 != 0) == (false != (b & 1 != 0))
  {
  }

  lemma {:induction false} XorBits(a: bv16, b: bv16)
    ensures ((a ^ b) & 1 != 0) == ((a & 1 != 0) != (b & 1 != 0))
    ensures ((a ^ b) & 2 != 0) == ((a & 2 != 0) != (b & 2 != 0))
    ensures ((a ^ b) & 4 != 0) == ((a & 4 != 0) != (b & 4 != 0))
    ensures ((a ^ b) & 8 != 0) == ((a & 8 != 0) != (b & 8 != 0))
    ensures ((a ^ b) & 16 != 0) == ((a & 16 != 0) != (b & 16 != 0))
    ensures ((a ^ b) & 32 != 0) == ((a & 32 != 0) != (b & 32 != 0))
    ensures ((a ^ b) & 64 != 0) == ((a & 64 != 0) != (b & 64 != 0))
    ensures ((a ^ b) & 128 != 0) == ((a & 128 != 0) != (b & 128 != 0))
    ensures ((a ^ b) & 256 != 0) == ((a & 256 != 0) != (b & 256 != 0))
    ensures ((a ^ b) & 512 != 0) == ((a & 512 != 0) != (b & 512 != 0))
    ensures ((a ^ b) & 1024 != 0) == ((a & 1024 != 0) != (b & 1024 != 0))
    ensures ((a ^ b) & 2048 != 0) == ((a & 2048 != 0) != (b & 2048 != 0))
    ensures ((a ^ b) & 4096 != 0) == ((a & 4096 != 0) != (b & 4096 != 0))
    ensures ((a ^ b) & 8192 != 0) == ((a & 8192 != 0) != (b & 8192 != 0))
    ensures ((a ^ b) & 16384 != 0) == ((a & 16384 != 0) != (b & 16384 != 0))
    ensures ((a ^ b) & 32768 != 0) == ((a & 32768 != 0) != (b & 32768 != 0))
  {
  }

  lemma {:induction false} ShiftHolds(r: Register, b: bv16)
    requires Holds(r, b)
    ensures Holds(Shift(r), ShiftWord(b))
  {
    hide Shift;
    hide ShiftWord;
    ShiftEach(r);
    ShiftWordBits(b);
  }

  lemma {:induction false} XorWordHolds(r: Register, s: Register, a: bv16, b: bv16)
    requires Holds(r, a) && Holds(s, b)
    ensures Holds(Xor(r, s), a ^ b)
  {
    hide Xor;
    XorEach(r, s);
    XorBits(a, b);
  }

  lemma {:induction false} ZeroHolds()
    ensures Holds(ZERO, 0)
  {
  }

  /** Only the empty register holds no bits. */
  lemma {:induction false} EmptyHolds(r: Register)
    requires Holds(r, 0)
    ensures r == ZERO
  {
    assert !r[0] && !r[1] && !r[2] && !r[3] && !r[4] && !r[5] && !r[6] && !r[7];
    assert !r[8] && !r[9] && !r[10] && !r[11] && !r[12] && !r[13] && !r[14] && !r[15];
    hide Holds;
    assert r == [r[0], r[1], r[2], r[3], r[4], r[5], r[6], r[7], r[8], r[9], r[10], r[11], r[12], r[13], r[14], r[15]];
  }

  /** Two registers that hold one word are one register. */
  lemma {:induction false} HoldsOne(r: Register, s: Register, b: bv16)
    requires Holds(r, b) && Holds(s, b)
    ensures r == s
  {
    hide Holds;
    hide Xor;
    XorWordHolds(r, s, b, b);
    SameWord(b);
    EmptyHolds(Xor(r, s));
    XorZero(r, s);
  }

  lemma {:induction false} SameWord(b: bv16)
    ensures b ^ b == 0
  {
  }

  function MulStep(acc: bv16, bit: bool, b: bv16): bv16 {
    ShiftWord(acc) ^ (if bit then b else 0)
  }

  function MulWord(a: bv16, b: bv16): bv16 {
    var x0 := MulStep(0, (a & 1 != 0), b);
    var x1 := MulStep(x0, (a & 2 != 0), b);
    var x2 := MulStep(x1, (a & 4 != 0), b);
    var x3 := MulStep(x2, (a & 8 != 0), b);
    var x4 := MulStep(x3, (a & 16 != 0), b);
    var x5 := MulStep(x4, (a & 32 != 0), b);
    var x6 := MulStep(x5, (a & 64 != 0), b);
    var x7 := MulStep(x6, (a & 128 != 0), b);
    var x8 := MulStep(x7, (a & 256 != 0), b);
    var x9 := MulStep(x8, (a & 512 != 0), b);
    var x10 := MulStep(x9, (a & 1024 != 0), b);
    var x11 := MulStep(x10, (a & 2048 != 0), b);
    var x12 := MulStep(x11, (a & 4096 != 0), b);
    var x13 := MulStep(x12, (a & 8192 != 0), b);
    var x14 := MulStep(x13, (a & 16384 != 0), b);
    MulStep(x14, (a & 32768 != 0), b)
  }

  lemma {:induction false} MulNext(a: Register, n: nat, r: Register)
    requires n < 16
    ensures Mul(a, n + 1, r) == Xor(Shift(Mul(a, n, r)), if a[n] then r else ZERO)
  {
    hide Xor;
    hide Shift;
  }

  lemma {:induction false} MulStepOn(acc: Register, r: Register, a: bv16, b: bv16)
    requires Holds(r, b) && Holds(acc, a)
    ensures Holds(Xor(Shift(acc), r), MulStep(a, true, b))
  {
    hide Xor;
    hide Shift;
    hide Holds;
    hide ShiftWord;
    ShiftHolds(acc, a);
    XorWordHolds(Shift(acc), r, ShiftWord(a), b);
  }

  lemma {:induction false} MulStepOff(acc: Register, a: bv16, b: bv16)
    requires Holds(acc, a)
    ensures Holds(Xor(Shift(acc), ZERO), MulStep(a, false, b))
  {
    hide Xor;
    hide Shift;
    hide Holds;
    hide ShiftWord;
    ZeroHolds();
    ShiftHolds(acc, a);
    XorWordHolds(Shift(acc), ZERO, ShiftWord(a), 0);
  }

  lemma {:induction false} MulStepIs(a: Register, n: nat, r: Register, acc: bv16, b: bv16)
    requires n < 16 && Holds(r, b) && Holds(Mul(a, n, r), acc)
    ensures Holds(Mul(a, n + 1, r), MulStep(acc, a[n], b))
  {
    hide Xor;
    hide Shift;
    hide Holds;
    hide MulStep;
    MulNext(a, n, r);
    hide Mul;
    if a[n] {
      MulStepOn(Mul(a, n, r), r, acc, b);
    } else {
      MulStepOff(Mul(a, n, r), acc, b);
    }
  }

  lemma {:induction false} MulHolds(a: Register, w: bv16, r: Register, b: bv16)
    requires Holds(a, w) && Holds(r, b)
    ensures Holds(Mul(a, 16, r), MulWord(w, b))
  {
    hide Mul;
    hide MulStep;
    MulStart(a, r);
    var x0 := MulStep(0, (w & 1 != 0), b);
    MulStepIs(a, 0, r, 0, b);
    var x1 := MulStep(x0, (w & 2 != 0), b);
    MulStepIs(a, 1, r, x0, b);
    var x2 := MulStep(x1, (w & 4 != 0), b);
    MulStepIs(a, 2, r, x1, b);
    var x3 := MulStep(x2, (w & 8 != 0), b);
    MulStepIs(a, 3, r, x2, b);
    var x4 := MulStep(x3, (w & 16 != 0), b);
    MulStepIs(a, 4, r, x3, b);
    var x5 := MulStep(x4, (w & 32 != 0), b);
    MulStepIs(a, 5, r, x4, b);
    var x6 := MulStep(x5, (w & 64 != 0), b);
    MulStepIs(a, 6, r, x5, b);
    var x7 := MulStep(x6, (w & 128 != 0), b);
    MulStepIs(a, 7, r, x6, b);
    var x8 := MulStep(x7, (w & 256 != 0), b);
    MulStepIs(a, 8, r, x7, b);
    var x9 := MulStep(x8, (w & 512 != 0), b);
    MulStepIs(a, 9, r, x8, b);
    var x10 := MulStep(x9, (w & 1024 != 0), b);
    MulStepIs(a, 10, r, x9, b);
    var x11 := MulStep(x10, (w & 2048 != 0), b);
    MulStepIs(a, 11, r, x10, b);
    var x12 := MulStep(x11, (w & 4096 != 0), b);
    MulStepIs(a, 12, r, x11, b);
    var x13 := MulStep(x12, (w & 8192 != 0), b);
    MulStepIs(a, 13, r, x12, b);
    var x14 := MulStep(x13, (w & 16384 != 0), b);
    MulStepIs(a, 14, r, x13, b);
    MulStepIs(a, 15, r, x14, b);
  }

  lemma {:induction false} MulStart(a: Register, r: Register)
    ensures Holds(Mul(a, 0, r), 0)
  {
  }

  // ---- The order of a shift ----

  /** The k-th power is this word. */
  ghost predicate Power(k: nat, w: bv16) {
    Holds(ShiftN(TOP, k), w)
  }

  lemma {:induction false} PowerTop()
    ensures Power(0, 0x8000) && Power(1, 0x4000)
  {
    ShiftHolds(TOP, 0x8000);
    hide Shift;
    assert ShiftN(TOP, 1) == ShiftN(Shift(TOP), 0);
  }

  lemma {:induction false} PowerMul(k: nat, a: bv16, m: nat, b: bv16, product: bv16)
    requires Power(k, a) && Power(m, b) && product == MulWord(a, b)
    ensures Power(k + m, product)
  {
    hide Holds;
    hide Mul;
    hide MulWord;
    hide ShiftN;
    MulHolds(ShiftN(TOP, k), a, ShiftN(TOP, m), b);
    MulPowers(k, m);
  }

  // The exponents are written as multiples of n, which is 1, so that no power of the shift is computed by unfolding it.

  lemma {:induction false} FirstPowers(n: nat)
    requires n == 1
    ensures Power(n, 0x4000)
    ensures Power(2 * n, 0x2000)
    ensures Power(4 * n, 0x800)
    ensures Power(8 * n, 0x80)
  {
    hide Power;
    PowerTop();
    PowerMul(n, 0x4000, n, 0x4000, 0x2000);
    PowerMul(2 * n, 0x2000, 2 * n, 0x2000, 0x800);
    PowerMul(4 * n, 0x800, 4 * n, 0x800, 0x80);
  }

  lemma {:induction false} SmallPowers(n: nat)
    requires n == 1
    ensures Power(16 * n, 0xA001)
    ensures Power(32 * n, 0xE801)
    ensures Power(64 * n, 0xC881)
  {
    hide Power;
    FirstPowers(n);
    PowerMul(8 * n, 0x80, 8 * n, 0x80, 0xA001);
    PowerMul(16 * n, 0xA001, 16 * n, 0xA001, 0xE801);
    PowerMul(32 * n, 0xE801, 32 * n, 0xE801, 0xC881);
  }

  lemma {:induction false} LowPowers(n: nat)
    requires n == 1
    ensures Power(128 * n, 0x6080)
    ensures Power(256 * n, 0x8801)
  {
    hide Power;
    SmallPowers(n);
    PowerMul(64 * n, 0xC881, 64 * n, 0xC881, 0x6080);
    PowerMul(128 * n, 0x6080, 128 * n, 0x6080, 0x8801);
  }

  lemma {:induction false} HighPowers(n: nat)
    requires n == 1
    ensures Power(512 * n, 0xE081)
    ensures Power(1024 * n, 0x6800)
    ensures Power(2048 * n, 0x2880)
    ensures Power(4096 * n, 0xA881)
    ensures Power(32768 * n, 0x4000)
  {
    hide Power;
    LowPowers(n);
    PowerMul(256 * n, 0x8801, 256 * n, 0x8801, 0xE081);
    PowerMul(512 * n, 0xE081, 512 * n, 0xE081, 0x6800);
    PowerMul(1024 * n, 0x6800, 1024 * n, 0x6800, 0x2880);
    PowerMul(2048 * n, 0x2880, 2048 * n, 0x2880, 0xA881);
    PowerMul(4096 * n, 0xA881, 4096 * n, 0xA881, 0x4880);
    PowerMul(8192 * n, 0x4880, 8192 * n, 0x4880, 0x8081);
    PowerMul(16384 * n, 0x8081, 16384 * n, 0x8081, 0x4000);
  }

  lemma {:induction false} Power217(n: nat)
    requires n == 1
    ensures Power(217 * n, 0x3E55)
  {
    hide Power;
    FirstPowers(n);
    SmallPowers(n);
    LowPowers(n);
    PowerMul(1 * n, 0x4000, 8 * n, 0x80, 0x40);
    PowerMul(9 * n, 0x40, 16 * n, 0xA001, 0xC031);
    PowerMul(25 * n, 0xC031, 64 * n, 0xC881, 0xD402);
    PowerMul(89 * n, 0xD402, 128 * n, 0x6080, 0x3E55);
  }

  lemma {:induction false} Power1057(n: nat)
    requires n == 1
    ensures Power(1057 * n, 0xCE41)
  {
    hide Power;
    FirstPowers(n);
    SmallPowers(n);
    HighPowers(n);
    PowerMul(1 * n, 0x4000, 32 * n, 0xE801, 0xD401);
    PowerMul(33 * n, 0xD401, 1024 * n, 0x6800, 0xCE41);
  }

  lemma {:induction false} Power4681(n: nat)
    requires n == 1
    ensures Power(4681 * n, 0x8C69)
  {
    hide Power;
    FirstPowers(n);
    SmallPowers(n);
    HighPowers(n);
    PowerMul(1 * n, 0x4000, 8 * n, 0x80, 0x40);
    PowerMul(9 * n, 0x40, 64 * n, 0xC881, 0x3004);
    PowerMul(73 * n, 0x3004, 512 * n, 0xE081, 0xF31);
    PowerMul(585 * n, 0xF31, 4096 * n, 0xA881, 0x8C69);
  }

  /** Shifting the top register n times gives it back. */
  ghost predicate Period(n: nat) {
    ShiftN(TOP, n) == TOP
  }

  lemma {:induction false} PowerDiffers(k: nat, w: bv16)
    requires Power(k, w) && w != 0x8000
    ensures !Period(k)
  {
    if Period(k) {
      TopHolds(w);
    }
  }

  lemma {:induction false} TopHolds(w: bv16)
    ensures Holds(TOP, w) ==> w == 0x8000
  {
  }

  lemma {:induction false} WholeCycle(n: nat)
    requires n == 1
    ensures Period(32767 * n)
  {
    hide Power;
    hide ShiftN;
    FirstPowers(n);
    HighPowers(n);
    PowersEqual(32768 * n, n, 0x4000);
    ShiftNAdd(TOP, 32767 * n, n);
    ShiftNInjective(ShiftN(TOP, 32767 * n), TOP, n);
  }

  lemma {:induction false} PowersEqual(k: nat, m: nat, w: bv16)
    requires Power(k, w) && Power(m, w)
    ensures ShiftN(TOP, k) == ShiftN(TOP, m)
  {
    HoldsOne(ShiftN(TOP, k), ShiftN(TOP, m), w);
  }

  lemma {:induction false} NotPeriods(n: nat)
    requires n == 1
    ensures !Period(217 * n) && !Period(1057 * n) && !Period(4681 * n)
  {
    hide Power;
    hide Period;
    Power217(n);
    Power1057(n);
    Power4681(n);
    PowerDiffers(217 * n, 0x3E55);
    PowerDiffers(1057 * n, 0xCE41);
    PowerDiffers(4681 * n, 0x8C69);
  }

  // ---- Periods ----

  lemma {:induction false} PeriodMultiple(k: nat, n: nat)
    requires Period(n)
    ensures Period(k * n)
    decreases k
  {
    hide ShiftN;
    if k == 0 {
      PeriodZero();
    } else {
      PeriodMultiple(k - 1, n);
      ShiftNAdd(TOP, (k - 1) * n, n);
      assert (k - 1) * n + n == k * n;
    }
  }

  lemma {:induction false} PeriodZero()
    ensures Period(0)
  {
  }

  lemma {:induction false} PeriodRest(k: nat, n: nat, r: nat)
    requires Period(n) && Period(k * n + r)
    ensures Period(r)
  {
    hide ShiftN;
    PeriodMultiple(k, n);
    ShiftNAdd(TOP, k * n, r);
  }

  /** The least of the periods from 1 to n. */
  lemma {:induction false} LeastPeriod(n: nat) returns (o: nat)
    requires 0 < n && Period(n)
    ensures 0 < o <= n && Period(o) && forall k :: 0 < k < o ==> !Period(k)
    decreases n
  {
    hide Period;
    if k :| 0 < k < n && Period(k) {
      o := LeastPeriod(k);
    } else {
      o := n;
    }
  }

  /** The least period divides every other. */
  lemma {:induction false} LeastDivides(o: nat, n: nat)
    requires 0 < o && Period(o) && Period(n) && forall k :: 0 < k < o ==> !Period(k)
    ensures n % o == 0
  {
    hide Period;
    var k, r := n / o, n % o;
    assert n == k * o + r;
    PeriodRest(k, o, r);
  }

  // ---- The factors of 32767 ----

  /** No number but 1 and itself divides p. */
  ghost predicate Prime(p: nat) {
    forall d :: 2 <= d < p ==> p % d != 0
  }

  /** A prime that divides a product and not its first factor divides the second. */
  lemma {:induction false} PrimeDivides(p: nat, r: nat, o: nat)
    requires Prime(p) && 0 < r < p && (r * o) % p == 0
    ensures o % p == 0
    decreases r
  {
    if r == 1 {
    } else {
      var k, rest := p / r, p % r;
      assert rest != 0;
      Reduced(p, k, r, rest, o);
      PrimeDivides(p, rest, o);
    }
  }

  lemma {:induction false} Reduced(p: nat, k: nat, r: nat, rest: nat, o: nat)
    requires 0 < p && p == k * r + rest && (r * o) % p == 0
    ensures (rest * o) % p == 0
  {
    var t := r * o / p;
    assert r * o == p * t;
    calc {
      rest * o;
      (p - k * r) * o;
      p * o - k * (r * o);
      p * o - k * (p * t);
      p * (o - k * t);
    }
    MultipleOf(p, o - k * t, rest * o);
  }

  lemma {:induction false} MultipleOf(p: nat, t: int, n: nat)
    requires 0 < p && n == p * t
    ensures n % p == 0
  {
    Remainder(p, n / p, n % p, t);
  }

  lemma {:induction false} Remainder(p: nat, k: int, r: nat, t: int)
    requires r < p && p * k + r == p * t
    ensures r == 0
  {
    assert r == p * (t - k);
    Magnitude(p, t - k);
  }

  lemma {:induction false} Magnitude(p: nat, m: int)
    ensures m >= 1 ==> p * m >= p
    ensures m <= -1 ==> p * m + p <= 0
  {
  }

  /** A prime that divides a product and not its first factor, whatever the size of that factor. */
  lemma {:induction false} PrimeDividesProduct(p: nat, q: nat, o: nat)
    requires 0 < p && Prime(p) && (q * o) % p == 0 && q % p != 0
    ensures o % p == 0
  {
    var k, r, t := q / p, q % p, q * o / p;
    assert q == p * k + r && q * o == p * t;
    calc {
      r * o;
      (q - p * k) * o;
      q * o - p * k * o;
      p * t - p * (k * o);
      p * (t - k * o);
    }
    MultipleOf(p, t - k * o, r * o);
    PrimeDivides(p, r, o);
  }

  lemma {:induction false} SevenIsPrime()
    ensures Prime(7)
  {
    forall d | 2 <= d < 7
      ensures 7 % d != 0
    {
      assert d == 2 || d == 3 || d == 4 || d == 5 || d == 6;
    }
  }

  lemma {:induction false} ThirtyOneIsPrime()
    ensures Prime(31)
  {
    forall d | 2 <= d < 31
      ensures 31 % d != 0
    {
      if d <= 5 {
        assert d == 2 || d == 3 || d == 4 || d == 5;
      } else {
        SmallCofactor(d, 31 / d);
      }
    }
  }

  lemma {:induction false} SmallCofactor(d: nat, k: nat)
    requires 6 <= d < 31
    ensures d * k != 31
  {
    if k >= 6 {
      assert d * k >= 36 by {
        assert (d - 6) * k >= 0 && 6 * k >= 36;
      }
    } else {
      assert k == 0 || k == 1 || k == 2 || k == 3 || k == 4 || k == 5;
    }
  }

  /** 151 is a product in two ways only. */
  lemma {:induction false} FactorsOf151(k: nat, q: nat)
    requires k * q == 151
    ensures k == 1 || q == 1
  {
    LargeProduct(k, q);
    if k <= 12 {
      SmallFactorOf151(k, q);
    } else {
      assert q * k == 151;
      SmallFactorOf151(q, k);
    }
  }

  lemma {:induction false} LargeProduct(k: nat, q: nat)
    ensures 13 <= k && 13 <= q ==> 169 <= k * q
  {
    if 13 <= k && 13 <= q {
      assert (k - 13) * q >= 0 && 13 * q >= 169;
    }
  }

  lemma {:induction false} SmallFactorOf151(k: nat, q: nat)
    requires k <= 12 && k * q == 151
    ensures k == 1
  {
    assert k == 0 || k == 1 || k == 2 || k == 3 || k == 4 || k == 5 || k == 6 || k == 7 || k == 8 || k == 9 || k == 10
           || k == 11 || k == 12;
  }

  /** The least period is the whole cycle: none of its proper divisors will do. */
  lemma {:induction false} LeastIsWhole(o: nat, q: nat)
    requires 0 < o && Period(o) && o * q == 32767
    requires !Period(217) && !Period(1057) && !Period(4681)
    ensures o == 32767
  {
    hide Period;
    hide Prime;
    SevenIsPrime();
    ThirtyOneIsPrime();
    if q % 7 == 0 {
      assert o * (q / 7) == 4681;
      assert (q / 7) * o == 4681;
      PeriodMultiple(q / 7, o);
      assert false;
    }
    if q % 31 == 0 {
      assert o * (q / 31) == 1057;
      assert (q / 31) * o == 1057;
      PeriodMultiple(q / 31, o);
      assert false;
    }
    assert q * o == 32767;
    PrimeDividesProduct(7, q, o);
    PrimeDividesProduct(31, q, o);
    var k := o / 217;
    BothDivide(o);
    assert 217 * (k * q) == 32767;
    FactorsOf151(k, q);
  }

  lemma {:induction false} BothDivide(o: nat)
    requires o % 7 == 0 && o % 31 == 0
    ensures o == 217 * (o / 217)
  {
    var a, b := o / 7, o / 31;
    assert o == 7 * a == 31 * b;
    assert o == 217 * (9 * b - 2 * a);
  }

  /** No fewer than 32767 shifts give the top register back. */
  lemma {:induction false} OrderOfShift(d: nat)
    requires 0 < d < 32767
    ensures !Period(d)
  {
    hide Period;
    var n := 1;
    WholeCycle(n);
    NotPeriods(n);
    if Period(d) {
      var o := LeastPeriod(d);
      LeastDivides(o, 32767);
      assert o * (32767 / o) == 32767;
      LeastIsWhole(o, 32767 / o);
    }
  }

  // ---- Two bits ----

  lemma {:induction false} FeedQuiet(r: Register, bits: seq<bool>)
    requires AllClear(bits)
    ensures Feed(r, bits) == ShiftN(r, |bits|)
    decreases |bits|
  {
    if bits == [] {
    } else {
      hide Moved;
      assert Step(r, false) == Shift(r);
      hide Step;
      hide Shift;
      FeedQuiet(Step(r, bits[0]), bits[1..]);
    }
  }

  /** The register with only its lowest bit set: what a single bit fed in amounts to, before its shift. */
  function Bottom(): Register {
    Load([true])
  }

  lemma {:induction false} StepOne(r: Register)
    ensures Step(r, true) == Shift(Xor(r, Bottom()))
  {
    ShiftLoaded(r, [true]);
    assert [true][1..] == [];
    var left, right := Xor(Step(r, true), Load([])), Step(r, true);
    assert forall i :: 0 <= i < 16 ==> left[i] == right[i];
  }

  lemma {:induction false} BottomIsPower()
    ensures ShiftN(TOP, 15) == Bottom()
  {
    assert Only(15) == TOP;
    LowerEach(0);
  }

  /** Fifteen shifts take the highest bit down to the lowest, one place at a time. */
  lemma {:induction false} LowerEach(n: nat)
    requires n <= 15
    ensures ShiftN(Only(15 - n), 15 - n) == Bottom()
    decreases 15 - n
  {
    if n == 15 {
      assert Only(0) == Bottom();
    } else {
      OnlyShifts(15 - n);
      hide Shift;
      hide Only;
      LowerEach(n + 1);
    }
  }

  function Only(k: nat): (r: Register)
    requires k < 16
    ensures forall i :: 0 <= i < 16 ==> r[i] == (i == k)
  {
    seq(16, i requires 0 <= i < 16 => i == k)
  }

  lemma {:induction false} OnlyShifts(k: nat)
    requires 0 < k < 16
    ensures Shift(Only(k)) == Only(k - 1)
  {
    assert forall i :: 0 <= i < 16 ==> Shift(Only(k))[i] == Only(k - 1)[i];
  }

  /** Two bits set at a distance below 32767, with nothing between them, do not cancel. */
  lemma {:induction false} PairVisible(gap: seq<bool>)
    requires AllClear(gap) && |gap| < 32766
    ensures Feed(ZERO, [true] + (gap + [true])) != ZERO
  {
    hide Shift;
    hide Xor;
    hide ShiftN;
    hide Step;
    var bottom, d := Bottom(), |gap| + 1;
    FeedConcat(ZERO, [true], gap + [true]);
    FeedConcat(Feed(ZERO, [true]), gap, [true]);
    FeedOne(ZERO);
    FeedOne(Feed(Feed(ZERO, [true]), gap));
    StepOne(ZERO);
    XorZeroLeft(bottom);
    FeedQuiet(Feed(ZERO, [true]), gap);
    ShiftNOne(bottom, |gap|);
    var before := ShiftN(bottom, d);
    StepOne(before);
    ShiftNonZero(Xor(before, bottom));
    XorZero(before, bottom);
    if before == bottom {
      BottomPeriod(d);
      OrderOfShift(d);
      assert false;
    }
  }

  lemma {:induction false} FeedOne(r: Register)
    ensures Feed(r, [true]) == Step(r, true)
  {
    hide Step;
    assert [true][1..] == [];
  }

  lemma {:induction false} XorZeroLeft(r: Register)
    ensures Xor(ZERO, r) == r
  {
    assert forall i :: 0 <= i < 16 ==> Xor(ZERO, r)[i] == r[i];
  }

  lemma {:induction false} BottomPeriod(d: nat)
    requires ShiftN(Bottom(), d) == Bottom()
    ensures Period(d)
  {
    hide ShiftN;
    BottomIsPower();
    ShiftNAdd(TOP, 15, d);
    ShiftNAdd(TOP, d, 15);
    ShiftNInjective(ShiftN(TOP, d), TOP, 15);
  }

  /** Where the first bit set stands. */
  function FirstOne(bits: seq<bool>): (k: nat)
    requires OnesIn(bits) > 0
    ensures k < |bits| && bits[k] && AllClear(bits[..k])
  {
    if bits[0] then 0
    else
      var k := FirstOne(bits[1..]);
      assert bits[..k + 1] == [false] + bits[1..][..k];
      k + 1
  }

  lemma {:induction false} AfterFirstOne(bits: seq<bool>)
    requires OnesIn(bits) > 0
    ensures var k := FirstOne(bits); OnesIn(bits[k + 1..]) == OnesIn(bits) - 1
  {
    var k := FirstOne(bits);
    assert bits == bits[..k] + ([true] + bits[k + 1..]);
    OnesInConcat(bits[..k], [true] + bits[k + 1..]);
    OnesInConcat([true], bits[k + 1..]);
    NoOnes(bits[..k]);
    assert [true][1..] == [];
  }

  lemma {:induction false} NoOnesClear(bits: seq<bool>)
    requires OnesIn(bits) == 0
    ensures AllClear(bits)
    decreases |bits|
  {
    if bits == [] {
    } else {
      NoOnesClear(bits[1..]);
      assert bits == [bits[0]] + bits[1..];
    }
  }

  /** Any difference of exactly two bits, in up to 32767, is visible. */
  lemma {:induction false} TwoVisible(e: seq<bool>)
    requires OnesIn(e) == 2 && |e| <= 32767
    ensures Feed(ZERO, e) != ZERO
  {
    hide Feed;
    hide FirstOne;
    hide OnesIn;
    AfterFirstOne(e);
    var i := FirstOne(e);
    var rest := e[i + 1..];
    AfterFirstOne(rest);
    var j := FirstOne(rest);
    var before, gap, after := e[..i], rest[..j], rest[j + 1..];
    NoOnesClear(after);
    var pair := [true] + (gap + [true]);
    assert e == before + (pair + after);
    FeedConcat(ZERO, before, pair + after);
    FeedClear(ZERO, before);
    FeedConcat(ZERO, pair, after);
    PairVisible(gap);
    FeedClear(Feed(ZERO, pair), after);
  }
}
