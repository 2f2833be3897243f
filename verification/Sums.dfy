/** Finite sums of reals over 0..n, shared by the assignment, control and estimation models. */
module Sums {

  function Sum(f: int -> real, n: nat): real {
    if n == 0 then 0.0 else Sum(f, n - 1) + f(n - 1)
  }

  lemma {:induction false} SumEq(f: int -> real, g: int -> real, n: nat)
    requires forall i :: 0 <= i < n ==> f(i) == g(i)
    ensures Sum(f, n) == Sum(g, n)
  {
    if n > 0 { SumEq(f, g, n - 1); }
  }

  lemma {:induction false} SumMonotone(f: int -> real, g: int -> real, n: nat)
    requires forall i :: 0 <= i < n ==> f(i) <= g(i)
    ensures Sum(f, n) <= Sum(g, n)
  {
    if n > 0 { SumMonotone(f, g, n - 1); }
  }

  lemma {:induction false} SumZero(f: int -> real, n: nat)
    requires forall i :: 0 <= i < n ==> f(i) == 0.0
    ensures Sum(f, n) == 0.0
  {
    if n > 0 { SumZero(f, n - 1); }
  }

  lemma SumNonNegative(f: int -> real, n: nat)
    requires forall i :: 0 <= i < n ==> f(i) >= 0.0
    ensures Sum(f, n) >= 0.0
  {
    var zero := (i: int) => 0.0;
    SumZero(zero, n);
    SumMonotone(zero, f, n);
  }

  lemma {:induction false} SumAdd(f: int -> real, g: int -> real, n: nat)
    ensures Sum(i => f(i) + g(i), n) == Sum(f, n) + Sum(g, n)
  {
    if n > 0 { SumAdd(f, g, n - 1); }
  }

  lemma {:induction false} SumScale(c: real, f: int -> real, n: nat)
    ensures Sum(i => c * f(i), n) == c * Sum(f, n)
  {
    if n > 0 { SumScale(c, f, n - 1); }
  }

  /** A sum of non-negative terms is zero only if every term is. */
  lemma {:induction false} SumZeroTerms(f: int -> real, n: nat)
    requires forall i :: 0 <= i < n ==> f(i) >= 0.0
    requires Sum(f, n) == 0.0
    ensures forall i :: 0 <= i < n ==> f(i) == 0.0
  {
    if n > 0 {
      SumNonNegative(f, n - 1);
      SumZeroTerms(f, n - 1);
    }
  }

  /** Only the k-th term is non-zero. */
  lemma {:induction false} SumSingle(f: int -> real, n: nat, k: int)
    requires forall i :: 0 <= i < n && i != k ==> f(i) == 0.0
    ensures Sum(f, n) == if 0 <= k < n then f(k) else 0.0
  {
    if n > 0 { SumSingle(f, n - 1, k); }
  }

  /** The tail of a sum vanishes when its terms do. */
  lemma {:induction false} SumTruncate(f: int -> real, n: nat, m: nat)
    requires m <= n
    requires forall i :: m <= i < n ==> f(i) == 0.0
    ensures Sum(f, n) == Sum(f, m)
  {
    if m < n { SumTruncate(f, n - 1, m); }
  }

  /** Exchanging the order of a double sum. */
  lemma {:induction false} SumSwap(f: (int, int) -> real, n: nat, m: nat)
    ensures Sum(i => Sum(j => f(i, j), m), n) == Sum(j => Sum(i => f(i, j), n), m)
  {
    if n == 0 {
      SumZero(j => Sum(i => f(i, j), n), m);
    } else {
      SumSwap(f, n - 1, m);
      var rest := (j: int) => Sum(i => f(i, j), n - 1);
      var last := (j: int) => f(n - 1, j);
      SumAdd(rest, last, m);
      SumEq(j => Sum(i => f(i, j), n), j => rest(j) + last(j), m);
    }
  }
}
