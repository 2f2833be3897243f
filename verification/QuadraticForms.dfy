/** Expanding weighted squares and shifted quadratic forms. */
module QuadraticForms {
  import opened Sums
  import opened Reals
  import opened LinearAlgebra

  // ---- double sums ------------------------------------------------------------------------------

  ghost function RowSum(f: (int, int) -> real, i: int, n: nat): real {
    Sum(j => f(i, j), n)
  }

  ghost function Double(f: (int, int) -> real, n: nat): real {
    Sum(i => RowSum(f, i, n), n)
  }

  lemma DoubleEq(f: (int, int) -> real, g: (int, int) -> real, n: nat)
    requires forall i, j :: 0 <= i < n && 0 <= j < n ==> f(i, j) == g(i, j)
    ensures Double(f, n) == Double(g, n)
  {
    forall i | 0 <= i < n ensures RowSum(f, i, n) == RowSum(g, i, n) {
      SumEq(j => f(i, j), j => g(i, j), n);
    }
    SumEq(i => RowSum(f, i, n), i => RowSum(g, i, n), n);
  }

  lemma DoubleAdd(f: (int, int) -> real, g: (int, int) -> real, n: nat)
    ensures Double((i, j) => f(i, j) + g(i, j), n) == Double(f, n) + Double(g, n)
  {
    var h := (i: int, j: int) => f(i, j) + g(i, j);
    forall i | 0 <= i < n ensures RowSum(h, i, n) == RowSum(f, i, n) + RowSum(g, i, n) {
      var p, q := (j: int) => f(i, j), (j: int) => g(i, j);
      SumAdd(p, q, n);
      SumEq(j => h(i, j), j => p(j) + q(j), n);
    }
    var p, q := (i: int) => RowSum(f, i, n), (i: int) => RowSum(g, i, n);
    SumAdd(p, q, n);
    SumEq(i => RowSum(h, i, n), i => p(i) + q(i), n);
  }

  lemma RowScale(c: real, f: (int, int) -> real, i: int, n: nat)
    ensures RowSum((i, j) => c * f(i, j), i, n) == c * RowSum(f, i, n)
  {
    var h := (i: int, j: int) => c * f(i, j);
    var p := (j: int) => f(i, j);
    SumScale(c, p, n);
    SumEq(j => h(i, j), j => c * p(j), n);
  }

  lemma DoubleScale(c: real, f: (int, int) -> real, n: nat)
    ensures Double((i, j) => c * f(i, j), n) == c * Double(f, n)
  {
    hide RowSum;
    var h := (i: int, j: int) => c * f(i, j);
    var p := (i: int) => RowSum(f, i, n);
    forall i | 0 <= i < n ensures RowSum(h, i, n) == c * p(i) { RowScale(c, f, i, n); }
    SumScale(c, p, n);
    SumEq(i => RowSum(h, i, n), i => c * p(i), n);
  }

  lemma DoubleSwap(f: (int, int) -> real, n: nat)
    ensures Double(f, n) == Double((i, j) => f(j, i), n)
  {
    var g := (i: int, j: int) => f(j, i);
    SumSwap(f, n, n);
    SumEq(i => RowSum(f, i, n), i => Sum(j => f(i, j), n), n);
    var columns := (j: int) => Sum(i => f(i, j), n);
    forall j | 0 <= j < n ensures RowSum(g, j, n) == columns(j) {
      SumEq(i => g(j, i), i => f(i, j), n);
    }
    SumEq(j => RowSum(g, j, n), columns, n);
  }

  // ---- a symmetric form, shifted ----------------------------------------------------------------

  ghost function BiTerm(p: (int, int) -> real, x: int -> real, y: int -> real): (int, int) -> real {
    (i, j) => p(i, j) * (x(i) * y(j))
  }

  /** x' P y. */
  ghost function Bilinear(p: (int, int) -> real, x: int -> real, y: int -> real, n: nat): real {
    Double(BiTerm(p, x, y), n)
  }

  lemma QuadraticIsBilinear(p: (int, int) -> real, x: int -> real, n: nat)
    ensures Quadratic(p, x, n) == Bilinear(p, x, x, n)
  {
    var f := (i: int, j: int) => Term(p, x, i, j);
    forall i | 0 <= i < n ensures FormRow(p, x, i, n) == RowSum(f, i, n) {
      SumEq(j => Term(p, x, i, j), j => f(i, j), n);
    }
    SumEq(i => FormRow(p, x, i, n), i => RowSum(f, i, n), n);
    DoubleEq(f, BiTerm(p, x, x), n);
  }

  lemma BilinearSymmetric(p: (int, int) -> real, x: int -> real, y: int -> real, n: nat)
    requires forall i, j :: 0 <= i < n && 0 <= j < n ==> p(i, j) == p(j, i)
    ensures Bilinear(p, x, y, n) == Bilinear(p, y, x, n)
  {
    DoubleSwap(BiTerm(p, x, y), n);
    DoubleEq((i, j) => BiTerm(p, x, y)(j, i), BiTerm(p, y, x), n);
  }

  lemma ShiftedTerm(p: (int, int) -> real, x: int -> real, r: int -> real, i: int, j: int)
    ensures BiTerm(p, k => x(k) - r(k), k => x(k) - r(k))(i, j)
         == (BiTerm(p, x, x)(i, j) + -1.0 * (BiTerm(p, r, x)(i, j) + BiTerm(p, x, r)(i, j))) + BiTerm(p, r, r)(i, j)
  {
    var c, xi, xj, ri, rj := p(i, j), x(i), x(j), r(i), r(j);
    assert c * ((xi - ri) * (xj - rj)) == c * (xi * xj) - c * (ri * xj) - c * (xi * rj) + c * (ri * rj);
  }

  /** (x - r)' P (x - r) = x' P x - 2 r' P x + r' P r for symmetric P. */
  lemma ShiftedForm(p: (int, int) -> real, x: int -> real, r: int -> real, n: nat)
    requires forall i, j :: 0 <= i < n && 0 <= j < n ==> p(i, j) == p(j, i)
    ensures Bilinear(p, k => x(k) - r(k), k => x(k) - r(k), n)
         == Bilinear(p, x, x, n) - 2.0 * Bilinear(p, r, x, n) + Bilinear(p, r, r, n)
  {
    hide BiTerm, Double;
    var xx, rx, xr, rr := BiTerm(p, x, x), BiTerm(p, r, x), BiTerm(p, x, r), BiTerm(p, r, r);
    var cross := (i: int, j: int) => rx(i, j) + xr(i, j);
    var minus := (i: int, j: int) => -1.0 * cross(i, j);
    var most := (i: int, j: int) => xx(i, j) + minus(i, j);
    DoubleAdd(rx, xr, n);
    DoubleScale(-1.0, cross, n);
    DoubleAdd(xx, minus, n);
    DoubleAdd(most, rr, n);
    var d := (k: int) => x(k) - r(k);
    forall i, j ensures BiTerm(p, d, d)(i, j) == most(i, j) + rr(i, j) { ShiftedTermOf(p, x, r, d, i, j); }
    DoubleEq(BiTerm(p, d, d), (i, j) => most(i, j) + rr(i, j), n);
    BilinearSymmetric(p, x, r, n);
    assert Bilinear(p, k => x(k) - r(k), k => x(k) - r(k), n) == Bilinear(p, d, d, n);
  }

  lemma ShiftedTermOf(p: (int, int) -> real, x: int -> real, r: int -> real, d: int -> real, i: int, j: int)
    requires forall k :: d(k) == x(k) - r(k)
    ensures BiTerm(p, d, d)(i, j)
         == (BiTerm(p, x, x)(i, j) + -1.0 * (BiTerm(p, r, x)(i, j) + BiTerm(p, x, r)(i, j))) + BiTerm(p, r, r)(i, j)
  {
    ShiftedTerm(p, x, r, i, j);
  }

  // ---- weighted squares of affine rows ----------------------------------------------------------

  /** Row i is c(i) + sum of g(i, j) x(j), weighed by w(i). */
  datatype Rows = Rows(w: int -> real, c: int -> real, g: (int, int) -> real)

  ghost function Gain(s: Rows, i: int, x: int -> real, n: nat): real {
    Inner(j => s.g(i, j), x, n)
  }

  ghost function GainTerm(s: Rows, x: int -> real, n: nat): int -> real {
    i => s.w(i) * Square(Gain(s, i, x, n))
  }

  ghost function CrossTerm(s: Rows, x: int -> real, n: nat): int -> real {
    i => s.c(i) * s.w(i) * Gain(s, i, x, n)
  }

  ghost function BaseTerm(s: Rows): int -> real {
    i => s.w(i) * Square(s.c(i))
  }

  ghost function RowTerm(s: Rows, x: int -> real, n: nat): int -> real {
    i => s.w(i) * Square(s.c(i) + Gain(s, i, x, n))
  }

  ghost function GramEntry(s: Rows, a: int, b: int): int -> real {
    i => s.w(i) * s.g(i, a) * s.g(i, b)
  }

  /** Entry (a, b) of G' W G over the first m rows. */
  ghost function Gram(s: Rows, m: nat): (int, int) -> real {
    (a, b) => Sum(GramEntry(s, a, b), m)
  }

  lemma ZeroForm(p: (int, int) -> real, x: int -> real, n: nat)
    requires forall a, b :: p(a, b) == 0.0
    ensures Quadratic(p, x, n) == 0.0
  {
    forall i | 0 <= i < n ensures FormRow(p, x, i, n) == 0.0 { SumZero(j => Term(p, x, i, j), n); }
    SumZero(i => FormRow(p, x, i, n), n);
  }

  lemma GramOfNone(s: Rows, a: int, b: int)
    ensures Gram(s, 0)(a, b) == 0.0
  {
  }

  /** x' G' W G x is the weighted sum of the squared gains. */
  lemma {:induction false} GramForm(s: Rows, x: int -> real, m: nat, n: nat)
    ensures Quadratic(Gram(s, m), x, n) == Sum(GainTerm(s, x, n), m)
  {
    hide Quadratic, Gram, GainTerm;
    if m == 0 {
      forall a, b ensures Gram(s, 0)(a, b) == 0.0 { GramOfNone(s, a, b); }
      ZeroForm(Gram(s, 0), x, n);
    } else {
      GramForm(s, x, m - 1, n);
      GramStep(s, x, m - 1, n);
      SumLast(GainTerm(s, x, n), m - 1);
    }
  }

  lemma GramStep(s: Rows, x: int -> real, m: nat, n: nat)
    ensures Quadratic(Gram(s, m + 1), x, n) == Quadratic(Gram(s, m), x, n) + GainTerm(s, x, n)(m)
  {
    hide Quadratic, Inner, Square;
    var g := (a: int) => s.g(m, a);
    var last := (a: int, b: int) => s.w(m) * g(a) * g(b);
    forall a, b ensures Gram(s, m + 1)(a, b) == Gram(s, m)(a, b) + last(a, b) { SumLast(GramEntry(s, a, b), m); }
    QuadraticAdd(Gram(s, m), last, x, n);
    QuadraticEq(Gram(s, m + 1), (a, b) => Gram(s, m)(a, b) + last(a, b), x, n);
    RankOne(s.w(m), g, x, n);
    GainTermIs(s, x, m, n, Inner(g, x, n));
  }

  lemma SumLast(f: int -> real, m: nat)
    ensures Sum(f, m + 1) == Sum(f, m) + f(m)
  {
  }

  lemma GainTermIs(s: Rows, x: int -> real, i: int, n: nat, t: real)
    requires t == Inner(a => s.g(i, a), x, n)
    ensures GainTerm(s, x, n)(i) == s.w(i) * t * t
  {
  }

  ghost function LinearEntry(s: Rows, b: int): int -> real {
    i => s.c(i) * s.w(i) * s.g(i, b)
  }

  /** Entry b of c' W G. */
  ghost function Linear(s: Rows, m: nat): int -> real {
    b => Sum(LinearEntry(s, b), m)
  }

  ghost function LinearTerm(s: Rows, x: int -> real): (int, int) -> real {
    (b, i) => LinearEntry(s, b)(i) * x(b)
  }

  lemma LinearColumn(s: Rows, x: int -> real, m: nat, b: int)
    ensures Linear(s, m)(b) * x(b) == Sum(i => LinearTerm(s, x)(b, i), m)
  {
    SumScale(x(b), LinearEntry(s, b), m);
    forall i: int ensures x(b) * LinearEntry(s, b)(i) == LinearTerm(s, x)(b, i) {
      Commute(x(b), LinearEntry(s, b)(i));
    }
    SumEq(i => x(b) * LinearEntry(s, b)(i), i => LinearTerm(s, x)(b, i), m);
  }

  lemma Commute(p: real, q: real)
    ensures p * q == q * p
  {
  }

  lemma Associate(p: real, q: real, r: real)
    ensures p * (q * r) == p * q * r
  {
  }

  lemma LinearRow(s: Rows, x: int -> real, n: nat, i: int)
    ensures Sum(b => LinearTerm(s, x)(b, i), n) == CrossTerm(s, x, n)(i)
  {
    var k, g := s.c(i) * s.w(i), (b: int) => s.g(i, b);
    var h := (b: int) => g(b) * x(b);
    SumScale(k, h, n);
    forall b: int ensures k * h(b) == LinearTerm(s, x)(b, i) {
      Associate(k, g(b), x(b));
      assert LinearEntry(s, b)(i) == k * g(b);
    }
    SumEq(b => k * h(b), b => LinearTerm(s, x)(b, i), n);
    assert Gain(s, i, x, n) == Sum(h, n) by { SumEq(h, b => (j => s.g(i, j))(b) * x(b), n); }
  }

  lemma LinearForm(s: Rows, x: int -> real, m: nat, n: nat)
    ensures Inner(Linear(s, m), x, n) == Sum(CrossTerm(s, x, n), m)
  {
    hide Linear, LinearTerm, CrossTerm;
    var f := LinearTerm(s, x);
    forall b | 0 <= b < n ensures Linear(s, m)(b) * x(b) == Sum(i => f(b, i), m) { LinearColumn(s, x, m, b); }
    SumEq(b => Linear(s, m)(b) * x(b), b => Sum(i => f(b, i), m), n);
    SumSwap(f, n, m);
    forall i | 0 <= i < m ensures Sum(b => f(b, i), n) == CrossTerm(s, x, n)(i) { LinearRow(s, x, n, i); }
    SumEq(i => Sum(b => f(b, i), n), CrossTerm(s, x, n), m);
  }

  /** The weighted squares of the rows, as a quadratic, a linear and a constant part. */
  lemma RowsExpand(s: Rows, x: int -> real, m: nat, n: nat)
    ensures Sum(RowTerm(s, x, n), m)
         == Quadratic(Gram(s, m), x, n) + 2.0 * Inner(Linear(s, m), x, n) + Sum(BaseTerm(s), m)
  {
    hide Quadratic, Inner, Gram, Linear;
    GramForm(s, x, m, n);
    LinearForm(s, x, m, n);
    TermsExpand(s, x, m, n);
  }

  lemma {:induction false} TermsExpand(s: Rows, x: int -> real, m: nat, n: nat)
    ensures Sum(RowTerm(s, x, n), m) == Sum(GainTerm(s, x, n), m) + 2.0 * Sum(CrossTerm(s, x, n), m)
      + Sum(BaseTerm(s), m)
  {
    hide RowTerm, GainTerm, CrossTerm, BaseTerm;
    if m > 0 {
      TermsExpand(s, x, m - 1, n);
      TermExpand(s, x, m - 1, n);
    }
  }

  lemma TermExpand(s: Rows, x: int -> real, i: int, n: nat)
    ensures RowTerm(s, x, n)(i) == GainTerm(s, x, n)(i) + 2.0 * CrossTerm(s, x, n)(i) + BaseTerm(s)(i)
  {
    ExpandSquare(s.w(i), s.c(i), Gain(s, i, x, n));
  }

  lemma ExpandSquare(w: real, c: real, g: real)
    ensures w * Square(c + g) == w * Square(g) + 2.0 * (c * w * g) + w * Square(c)
  {
    assert (c + g) * (c + g) == g * g + 2.0 * (c * g) + c * c;
    assert w * (g * g + 2.0 * (c * g) + c * c) == w * (g * g) + 2.0 * (c * w * g) + w * (c * c);
  }

  lemma GramSymmetric(s: Rows, m: nat, a: int, b: int)
    ensures Gram(s, m)(a, b) == Gram(s, m)(b, a)
  {
    SumEq(GramEntry(s, a, b), GramEntry(s, b, a), m);
  }
}
