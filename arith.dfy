/** Facts about Euclidean division that the turn arithmetic needs. */
module Arith {
  lemma MulAtLeast(d: int, n: int)
    requires n >= 0
    ensures d >= 1 ==> d * n >= n
    decreases if d < 0 then 0 else d
  {
    if d > 1 {
      MulAtLeast(d - 1, n);
      assert d * n == (d - 1) * n + n;
    }
  }

  /** k * n as repeated addition, so that dealing proofs stay linear. */
  function Times(k: nat, n: nat): nat {
    if k == 0 then 0 else n + Times(k - 1, n)
  }

  lemma {:induction false} TimesIsProduct(k: nat, n: nat)
    ensures Times(k, n) == k * n
  {
    if k > 0 {
      TimesIsProduct(k - 1, n);
      assert k * n == (k - 1) * n + n;
    }
  }

  /** Quotient and remainder are unique. */
  lemma ModUnique(a: int, n: int, q: int, r: int)
    requires n > 0 && 0 <= r < n && a == q * n + r
    ensures a % n == r && a / n == q
  {
    var q0, r0 := a / n, a % n;
    assert (q - q0) * n == r0 - r;
    MulAtLeast(q - q0, n);
    MulAtLeast(q0 - q, n);
    assert (q0 - q) * n == r - r0;
  }

  /** The successor of an index modulo n. */
  lemma SuccMod(i: int, n: int)
    requires 0 <= i < n
    ensures (i + 1) % n == if i + 1 < n then i + 1 else 0
  {
    if i + 1 < n {
      ModUnique(i + 1, n, 0, i + 1);
    } else {
      ModUnique(i + 1, n, 1, 0);
    }
  }

  lemma ModSucc(a: nat, n: nat)
    requires n > 0
    ensures (a % n + 1) % n == (a + 1) % n
  {
    var q, m := a / n, a % n;
    if m + 1 < n {
      ModUnique(a + 1, n, q, m + 1);
    } else {
      ModUnique(a + 1, n, q + 1, 0);
    }
    SuccMod(m, n);
  }

  /** The position after m in a cycle of n positions. */
  function CyclicNext(m: int, n: int): int {
    if m + 1 < n then m + 1 else 0
  }

  /** The position k steps after i in a cycle of n positions. */
  function CyclicAdvance(i: int, k: nat, n: int): int {
    if k == 0 then i else CyclicNext(CyclicAdvance(i, k - 1, n), n)
  }

  /** Stepping round a cycle k times from i is adding k modulo n. */
  lemma {:induction false} CyclicAdvanceMod(i: nat, k: nat, n: nat)
    requires i < n
    ensures CyclicAdvance(i, k, n) == (i + k) % n
  {
    if k == 0 {
      ModUnique(i, n, 0, i);
    } else {
      CyclicAdvanceMod(i, k - 1, n);
      ModSucc(i + (k - 1), n);
      SuccMod((i + (k - 1)) % n, n);
    }
  }
}

