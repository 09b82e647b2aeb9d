/** Finite sums over an index range 0 .. n - 1: the `sum` and `prod` of the
    solver's tuple dictionaries, stated once and reasoned about here. */
module Sums {

  /** f(0) + f(1) + ... + f(n - 1). */
  function Sum(n: nat, f: nat -> int): int
  {
    if n == 0 then 0 else Sum(n - 1, f) + f(n - 1)
  }

  /** 1 for true and 0 for false: the value of a binary variable. */
  function Ind(b: bool): int
  {
    if b then 1 else 0
  }

  lemma {:induction false} SumCongruent(n: nat, f: nat -> int, g: nat -> int)
    requires forall i: nat :: i < n ==> f(i) == g(i)
    ensures Sum(n, f) == Sum(n, g)
  {
    if n > 0 {
      SumCongruent(n - 1, f, g);
    }
  }

  lemma {:induction false} SumOfSums(n: nat, f: nat -> int, g: nat -> int, h: nat -> int)
    requires forall i: nat :: i < n ==> h(i) == f(i) + g(i)
    ensures Sum(n, h) == Sum(n, f) + Sum(n, g)
  {
    if n > 0 {
      SumOfSums(n - 1, f, g, h);
    }
  }

  lemma {:induction false} SumScaled(n: nat, f: nat -> int, g: nat -> int, c: int)
    requires forall i: nat :: i < n ==> g(i) == c * f(i)
    ensures Sum(n, g) == c * Sum(n, f)
  {
    if n > 0 {
      SumScaled(n - 1, f, g, c);
    }
  }

  lemma {:induction false} SumMonotone(n: nat, f: nat -> int, g: nat -> int)
    requires forall i: nat :: i < n ==> f(i) <= g(i)
    ensures Sum(n, f) <= Sum(n, g)
  {
    if n > 0 {
      SumMonotone(n - 1, f, g);
    }
  }

  /** With non-negative terms a shorter sum is at most a longer one. */
  lemma {:induction false} SumPrefixAtMost(m: nat, n: nat, f: nat -> int)
    requires m <= n
    requires forall i: nat :: i < n ==> 0 <= f(i)
    ensures Sum(m, f) <= Sum(n, f)
  {
    if m < n {
      SumPrefixAtMost(m, n - 1, f);
    }
  }

  lemma {:induction false} SumAtMost(n: nat, f: nat -> int, c: int)
    requires forall i: nat :: i < n ==> f(i) <= c
    ensures Sum(n, f) <= n * c
  {
    if n > 0 {
      SumAtMost(n - 1, f, c);
    }
  }

  lemma {:induction false} SumAtLeast(n: nat, f: nat -> int, c: int)
    requires forall i: nat :: i < n ==> c <= f(i)
    ensures n * c <= Sum(n, f)
  {
    if n > 0 {
      SumAtLeast(n - 1, f, c);
    }
  }

  /** A sum of non-negative terms that is not positive has only zero terms. */
  lemma {:induction false} SumZeroTerms(n: nat, f: nat -> int)
    requires forall i: nat :: i < n ==> 0 <= f(i)
    requires Sum(n, f) <= 0
    ensures forall i: nat :: i < n ==> f(i) == 0
  {
    if n > 0 {
      SumAtLeast(n - 1, f, 0);
      SumZeroTerms(n - 1, f);
    }
  }

  /** A non-negative term is at most the whole sum of non-negative terms. */
  lemma {:induction false} TermAtMostSum(n: nat, f: nat -> int, k: nat)
    requires forall i: nat :: i < n ==> 0 <= f(i)
    requires k < n
    ensures f(k) <= Sum(n, f)
  {
    SumAtLeast(n - 1, f, 0);
    if k < n - 1 {
      TermAtMostSum(n - 1, f, k);
    }
  }

  /** The order of a double sum does not matter. */
  lemma {:induction false} SumSwap(m: nat, n: nat, g: (nat, nat) -> int)
    ensures Sum(m, (i: nat) => Sum(n, (j: nat) => g(i, j))) == Sum(n, (j: nat) => Sum(m, (i: nat) => g(i, j)))
  {
    if m == 0 {
      var zero := (j: nat) => Sum(m, (i: nat) => g(i, j));
      SumAtMost(n, zero, 0);
      SumAtLeast(n, zero, 0);
    } else {
      SumSwap(m - 1, n, g);
      SumOfSums(n, (j: nat) => Sum(m - 1, (i: nat) => g(i, j)), (j: nat) => g(m - 1, j), (j: nat) => Sum(m, (i: nat) => g(i, j)));
    }
  }
}
