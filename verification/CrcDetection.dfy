/** Which alterations of a checksummed frame the CRC cannot miss. */
module CrcDetection {
  import opened Basics
  import opened Bits
  import opened Crc

  /** The frame leaves an empty register, so its last two bytes are the checksum of the rest. */
  predicate Intact(frame: Bytes) {
    Feed(INITIAL, AllBits(frame)) == ZERO
  }

  function OnesIn(bits: seq<bool>): nat {
    if bits == [] then 0 else (if bits[0] then 1 else 0) + OnesIn(bits[1..])
  }

  /** The bits in which two frames of one length differ. */
  function Altered(a: Bytes, b: Bytes): (e: seq<bool>)
    requires |a| == |b|
    ensures |e| == 8 * |a|
  {
    Differences(AllBits(a), AllBits(b))
  }

  /** Of two frames of one length, an intact one and another, the other is intact only if their difference is invisible. */
  lemma {:induction false} IntactTogether(a: Bytes, b: Bytes)
    requires |a| == |b| && Intact(a)
    ensures Intact(b) <==> Feed(ZERO, Altered(a, b)) == ZERO
  {
    hide Step;
    FeedLinear(INITIAL, INITIAL, AllBits(a), AllBits(b));
    XorZero(INITIAL, INITIAL);
    XorZero(ZERO, Feed(INITIAL, AllBits(b)));
  }

  lemma {:induction false} FeedClear(r: Register, bits: seq<bool>)
    requires AllClear(bits)
    ensures Feed(r, bits) == ZERO <==> r == ZERO
    decreases |bits|
  {
    if bits == [] {
    } else {
      ShiftNonZero(r);
      FeedClear(Step(r, false), bits[1..]);
    }
  }

  lemma {:induction false} WindowVisible(window: seq<bool>)
    requires |window| <= 16 && !AllClear(window)
    ensures Feed(ZERO, window) != ZERO
  {
    FeedIsLoadAndShift(ZERO, window);
    ShiftNNonZero(Xor(ZERO, Load(window)), |window|);
    XorZero(ZERO, Load(window));
    var i :| 0 <= i < |window| && window[i];
    assert Load(window)[i];
  }

  lemma {:induction false} WindowNotClear(e: seq<bool>, at: nat)
    requires at + 16 <= |e|
    requires AllClear(e[..at]) && AllClear(e[at + 16..]) && !AllClear(e)
    ensures !AllClear(e[at..at + 16])
  {
    forall j | 0 <= j < at
      ensures !e[j]
    {
      assert e[..at][j] == e[j];
    }
    forall j | at + 16 <= j < |e|
      ensures !e[j]
    {
      assert e[at + 16..][j - at - 16] == e[j];
    }
    var i :| 0 <= i < |e| && e[i];
    assert e[at..at + 16][i - at];
  }

  /** Any non-zero difference confined to sixteen consecutive bits, wherever they start, is visible. */
  lemma {:induction false} BurstVisible(e: seq<bool>, at: nat)
    requires at + 16 <= |e|
    requires AllClear(e[..at]) && AllClear(e[at + 16..]) && !AllClear(e)
    ensures Feed(ZERO, e) != ZERO
  {
    hide Feed;
    hide AllClear;
    var before, window, after := e[..at], e[at..at + 16], e[at + 16..];
    assert e == before + (window + after);
    FeedConcat(ZERO, before, window + after);
    FeedClear(ZERO, before);
    FeedConcat(ZERO, window, after);
    WindowNotClear(e, at);
    WindowVisible(window);
    FeedClear(Feed(ZERO, window), after);
  }

  /** Whether an odd number of the register's bits is set. */
  predicate Odd(r: Register) {
    OnesIn(r) % 2 == 1
  }

  lemma {:induction false} OnesInConcat(a: seq<bool>, b: seq<bool>)
    ensures OnesIn(a + b) == OnesIn(a) + OnesIn(b)
  {
    if a == [] {
      assert a + b == b;
    } else {
      assert (a + b)[1..] == a[1..] + b;
      OnesInConcat(a[1..], b);
    }
  }

  lemma {:induction false} Toggled(bits: seq<bool>, i: nat, f: bool)
    requires i < |bits|
    ensures (OnesIn(bits[i := bits[i] != f]) % 2 == 1) == ((OnesIn(bits) % 2 == 1) != f)
  {
    var toggled := bits[i := bits[i] != f];
    assert bits == bits[..i] + ([bits[i]] + bits[i + 1..]);
    assert toggled == bits[..i] + ([toggled[i]] + bits[i + 1..]);
    OnesInConcat(bits[..i], [bits[i]] + bits[i + 1..]);
    OnesInConcat(bits[..i], [toggled[i]] + bits[i + 1..]);
    OnesInConcat([bits[i]], bits[i + 1..]);
    OnesInConcat([toggled[i]], bits[i + 1..]);
    assert [bits[i]][1..] == [] && [toggled[i]][1..] == [];
  }

  /** A step is a move, with the feedback toggled into the three taps. */
  lemma {:induction false} StepTaps(r: Register, bit: bool, f: bool, moved: seq<bool>)
    requires f == (r[0] != bit)
    requires moved == r[1..] + [f]
    ensures Step(r, bit) == moved[0 := moved[0] != f][13 := moved[13] != f]
  {
    var s, t := Step(r, bit), moved[0 := moved[0] != f][13 := moved[13] != f];
    forall i | 0 <= i < 16
      ensures s[i] == t[i]
    {
    }
  }

  lemma {:induction false} StepParity(r: Register, bit: bool)
    ensures Odd(Step(r, bit)) == (Odd(r) != bit)
  {
    hide Step;
    var f := r[0] != bit;
    var moved := r[1..] + [f];
    StepTaps(r, bit, f, moved);
    Toggled(moved, 0, f);
    Toggled(moved[0 := moved[0] != f], 13, f);
    OnesInConcat(r[1..], [f]);
    assert [f][1..] == [];
  }

  /** 0xA001 has three bits, so a shift keeps the register's parity and each set bit fed in flips it. */
  lemma {:induction false} FeedParity(r: Register, bits: seq<bool>)
    ensures Odd(Feed(r, bits)) == (Odd(r) != (OnesIn(bits) % 2 == 1))
    decreases |bits|
  {
    hide Step;
    hide Odd;
    if bits == [] {
    } else {
      StepParity(r, bits[0]);
      FeedParity(Step(r, bits[0]), bits[1..]);
    }
  }

  lemma {:induction false} NoOnes(bits: seq<bool>)
    requires AllClear(bits)
    ensures OnesIn(bits) == 0
  {
    if bits == [] {
    } else {
      NoOnes(bits[1..]);
    }
  }

  lemma {:induction false} OddVisible(e: seq<bool>)
    requires OnesIn(e) % 2 == 1
    ensures Feed(ZERO, e) != ZERO
  {
    FeedParity(ZERO, e);
    NoOnes(ZERO);
  }

  /** Different frames differ in some bit. */
  lemma {:induction false} AlteredSomewhere(a: Bytes, b: Bytes)
    requires |a| == |b| && a != b
    ensures !AllClear(Altered(a, b))
  {
    if AllClear(Altered(a, b)) {
      assert forall i :: 0 <= i < 8 * |a| ==> !Altered(a, b)[i];
      assert AllBits(a) == AllBits(b);
      AllBitsInjective(a, b);
    }
  }
}
