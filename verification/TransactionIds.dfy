/** Transaction identifiers: one cycle over 1 to 65535 (src/client/mod.rs, `next`). */
module TransactionIds {
  import opened Basics

  const CYCLE := 65535

  /** `next`. */
  function Next(id: Word): Word {
    if id == 65535 then 1 else id + 1
  }

  /** The identifier of the n-th allocation, counted from 0. */
  function IdOf(n: nat): Word {
    n % CYCLE + 1
  }

  /** What the counter holds after n steps from `id`. */
  function Advanced(id: Word, n: nat): Word {
    if n == 0 then id else Next(Advanced(id, n - 1))
  }

  lemma {:induction false} NextId(n: nat)
    ensures Next(IdOf(n)) == IdOf(n + 1)
  {
    var q, r := n / CYCLE, n % CYCLE;
    assert n == q * CYCLE + r;
    if r == CYCLE - 1 {
      assert n + 1 == (q + 1) * CYCLE;
    } else {
      assert n + 1 == q * CYCLE + (r + 1);
    }
  }

  /** The counter, started at 1 as a client starts it, runs through the identifiers in that order. */
  lemma {:induction false} AdvancedId(k: nat, n: nat)
    ensures Advanced(IdOf(k), n) == IdOf(k + n)
  {
    if n == 0 {
    } else {
      AdvancedId(k, n - 1);
      NextId(k + n - 1);
    }
  }

  /** Two allocations share an identifier exactly when a whole number of cycles lies between them. */
  lemma {:induction false} SameIdIff(i: nat, j: nat)
    requires i <= j
    ensures IdOf(i) == IdOf(j) <==> (j - i) % CYCLE == 0
  {
    var qi, ri, qj, rj := i / CYCLE, i % CYCLE, j / CYCLE, j % CYCLE;
    assert j - i == (qj - qi) * CYCLE + (rj - ri);
    if ri == rj {
      assert (j - i) % CYCLE == 0;
    } else if ri < rj {
      assert (j - i) % CYCLE == rj - ri;
    } else {
      assert j - i == (qj - qi - 1) * CYCLE + (rj - ri + CYCLE);
      assert (j - i) % CYCLE == rj - ri + CYCLE;
    }
  }

  /** Any 65535 consecutive allocations are distinct, and none is 0. */
  lemma {:induction false} WindowDistinct(i: nat, j: nat)
    requires i != j && -CYCLE < j - i < CYCLE
    ensures IdOf(i) != IdOf(j) && IdOf(i) != 0
  {
    if i < j {
      SameIdIff(i, j);
    } else {
      SameIdIff(j, i);
    }
  }

  /** One cycle: from any identifier every other is reached, in exactly one number of steps below 65535. */
  lemma {:induction false} SingleCycle(a: Word, b: Word, m: nat)
    requires a != 0 && b != 0
    ensures var n := if a <= b then b - a else b - a + CYCLE;
            && n < CYCLE && Advanced(a, n) == b
            && (m < CYCLE && Advanced(a, m) == b ==> m == n)
  {
    var k := a - 1;
    var n := if a <= b then b - a else b - a + CYCLE;
    AdvancedId(k, n);
    assert IdOf(k) == a;
    assert IdOf(k + n) == b by {
      if a > b {
        assert k + n == (b - 1) + CYCLE;
        SameIdIff(b - 1, k + n);
      }
    }
    if m < CYCLE && Advanced(a, m) == b && m != n {
      AdvancedId(k, m);
      WindowDistinct(k + n, k + m);
    }
  }
}
