/** Finite sums over the identifier range [0, n). Every table is keyed by
    auto-increment identifiers below the next free one, so each aggregate the
    service keeps or computes (a session's credited minutes, a user's total,
    a row count) is one of these sums. */
module Sums {

  /** f(0) + f(1) + ... + f(n - 1) */
  function Sum(f: nat -> int, n: nat): int
  {
    if n == 0 then 0 else Sum(f, n - 1) + f(n - 1)
  }

  lemma {:induction false} SumCongruent(f: nat -> int, g: nat -> int, n: nat)
    requires forall i: nat :: i < n ==> f(i) == g(i)
    ensures Sum(f, n) == Sum(g, n)
  {
    if n > 0 {
      SumCongruent(f, g, n - 1);
    }
  }

  lemma {:induction false} SumZero(f: nat -> int, n: nat)
    requires forall i: nat :: i < n ==> f(i) == 0
    ensures Sum(f, n) == 0
  {
    if n > 0 {
      SumZero(f, n - 1);
    }
  }

  lemma {:induction false} SumNonNegative(f: nat -> int, n: nat)
    requires forall i: nat :: i < n ==> f(i) >= 0
    ensures Sum(f, n) >= 0
  {
    if n > 0 {
      SumNonNegative(f, n - 1);
    }
  }

  /** Changing one term changes the sum by exactly the change of that term. */
  lemma {:induction false} SumPointUpdate(f: nat -> int, g: nat -> int, n: nat, k: nat)
    requires forall i: nat :: i < n && i != k ==> f(i) == g(i)
    ensures Sum(g, n) == Sum(f, n) + (if k < n then g(k) - f(k) else 0)
  {
    if n > 0 {
      SumPointUpdate(f, g, n - 1, k);
    }
  }

  lemma {:induction false} SumAdd(f: nat -> int, g: nat -> int, h: nat -> int, n: nat)
    requires forall i: nat :: i < n ==> h(i) == f(i) + g(i)
    ensures Sum(h, n) == Sum(f, n) + Sum(g, n)
  {
    if n > 0 {
      SumAdd(f, g, h, n - 1);
    }
  }
}
