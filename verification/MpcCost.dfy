/** The condensed quadratic program of the lateral controller and the cost it stands for. */
module MpcCost {
  import opened Sums
  import opened Reals
  import opened Matchings
  import opened LinearAlgebra
  import opened QuadraticForms
  import opened MpcPrediction

  /** Everything the cost of an input sequence depends on, apart from the initial state. */
  datatype Problem = Problem(nx: nat, ny: nat, n: nat, d: seq<Discrete>, q0: Vec, q1: Vec, r1: Matrix, r2: Matrix,
      uref: Vec)

  ghost predicate WellPosed(b: Problem) {
    && |b.d| == b.n && b.ny >= 2
    && (forall i :: 0 <= i < b.n ==> Shaped(b.d[i], b.nx, b.ny))
    && Symmetric(b.r1, b.n) && Symmetric(b.r2, b.n)
  }

  // ---- the cost, over the states the inputs really lead to --------------------------------------

  /** Component p of the output after i + 1 steps. */
  function Output(b: Problem, x0: Vec, u: Vec, i: int, p: nat): real {
    if 0 <= i < |b.d| then At(MatVec(b.ny, b.nx, b.d[i].cd, StateAfter(b.nx, b.d, x0, u, i + 1)), p) else 0.0
  }

  ghost function OutputTerm(b: Problem, x0: Vec, u: Vec, p: nat): int -> real {
    i => At(if p == 0 then b.q0 else b.q1, i) * Square(Output(b, x0, u, i, p))
  }

  ghost function Minus(u: Vec, r: Vec): int -> real { i => At(u, i) - At(r, i) }

  /** Lateral and heading errors, input relative to the reference input, and R2, all weighted. */
  ghost function CostOf(b: Problem, x0: Vec, u: Vec): real {
    Sum(OutputTerm(b, x0, u, 0), b.n) + Sum(OutputTerm(b, x0, u, 1), b.n)
    + Quadratic(Entries(b.r1), Minus(u, b.uref), b.n) + Quadratic(Entries(b.r2), Vector(u), b.n)
  }

  // ---- the condensed program --------------------------------------------------------------------

  /** Block (i, j) of Cex Bex. */
  function CbAt(b: Problem, i: int, j: int): Vec {
    if 0 <= i < |b.d| && 0 <= j then MatVec(b.ny, b.nx, b.d[i].cd, BexAt(b.nx, b.d, i, j)) else []
  }

  /** Block i of Cex (Aex x0 + Wex). */
  function CbaseAt(b: Problem, x0: Vec, i: int): Vec {
    if 0 <= i < |b.d| then MatVec(b.ny, b.nx, b.d[i].cd, Base(b.nx, b.d, x0, i)) else []
  }

  /** The outputs' components p as affine rows in the inputs. */
  ghost function OutRows(b: Problem, x0: Vec, p: nat): Rows {
    Rows(i => At(if p == 0 then b.q0 else b.q1, i), i => At(CbaseAt(b, x0, i), p), (i, j) => At(CbAt(b, i, j), p))
  }

  ghost function HEntry(b: Problem, x0: Vec): (int, int) -> real {
    (a, c) => (Gram(OutRows(b, x0, 0), b.n)(a, c) + Gram(OutRows(b, x0, 1), b.n)(a, c))
        + (Cell(b.r1, a, c) + Cell(b.r2, a, c))
  }

  ghost function RefEntry(b: Problem): int -> real {
    c => Sum(a => At(b.uref, a) * Cell(b.r1, a, c), b.n)
  }

  ghost function FEntry(b: Problem, x0: Vec): int -> real {
    c => (Linear(OutRows(b, x0, 0), b.n)(c) + Linear(OutRows(b, x0, 1), b.n)(c)) + -1.0 * RefEntry(b)(c)
  }

  /** The part of the cost no input changes. */
  ghost function Constant(b: Problem, x0: Vec): real {
    Sum(BaseTerm(OutRows(b, x0, 0)), b.n) + Sum(BaseTerm(OutRows(b, x0, 1)), b.n)
    + Bilinear(Entries(b.r1), Vector(b.uref), Vector(b.uref), b.n)
  }

  // ---- the two agree ----------------------------------------------------------------------------

  /** Each output is its base plus its gains times the inputs. */
  lemma OutputIsAffine(b: Problem, x0: Vec, u: Vec, i: nat, p: nat)
    requires WellPosed(b) && i < b.n && p < b.ny
    ensures Output(b, x0, u, i, p) == At(CbaseAt(b, x0, i), p) + Gain(OutRows(b, x0, p), i, Vector(u), b.n)
  {
    hide Combine, MatVec, StateAfter, BexAt, Base;
    var cd, row := b.d[i].cd, BexRow(b.nx, b.d, i, b.n);
    var images := seq(b.n, j requires 0 <= j < b.n => MatVec(b.ny, b.nx, cd, row[j]));
    Condensed(b.nx, b.d, x0, u, i, b.n);
    MatVecPlus(b.ny, b.nx, cd, Base(b.nx, b.d, x0, i), Combine(b.nx, u, row, b.n));
    MatVecCombine(b.ny, b.nx, cd, u, row, images, b.n);
    CombineAt(b.ny, u, images, b.n, p);
    forall j | 0 <= j < b.n ensures At(u, j) * (if 0 <= j < |images| then At(images[j], p) else 0.0)
        == At(CbAt(b, i, j), p) * At(u, j) { }
    SumEq(j => At(u, j) * (if 0 <= j < |images| then At(images[j], p) else 0.0), j => At(CbAt(b, i, j), p) * At(u, j),
        b.n);
    GainIs(b, x0, u, i, p);
  }

  lemma GainIs(b: Problem, x0: Vec, u: Vec, i: nat, p: nat)
    ensures Gain(OutRows(b, x0, p), i, Vector(u), b.n) == Sum(j => At(CbAt(b, i, j), p) * At(u, j), b.n)
  {
    hide OutRows, MatVec, Inner;
    var s := OutRows(b, x0, p);
    var v := (j: int) => s.g(i, j);
    forall j: int ensures v(j) * Vector(u)(j) == At(CbAt(b, i, j), p) * At(u, j) { GainEntry(b, x0, i, j, p); }
    SumEq(j => v(j) * Vector(u)(j), j => At(CbAt(b, i, j), p) * At(u, j), b.n);
    InnerIs(v, j => s.g(i, j), Vector(u), b.n);
  }

  lemma GainEntry(b: Problem, x0: Vec, i: int, j: int, p: nat)
    ensures OutRows(b, x0, p).g(i, j) == At(CbAt(b, i, j), p)
  {
  }

  lemma InnerIs(v: int -> real, v': int -> real, x: int -> real, n: nat)
    requires forall j :: 0 <= j < n ==> v(j) == v'(j)
    ensures Inner(v', x, n) == Sum(j => v(j) * x(j), n)
  {
    SumEq(j => v'(j) * x(j), j => v(j) * x(j), n);
  }

  lemma OutputCost(b: Problem, x0: Vec, u: Vec, p: nat)
    requires WellPosed(b) && p < 2
    ensures Sum(OutputTerm(b, x0, u, p), b.n) == Sum(RowTerm(OutRows(b, x0, p), Vector(u), b.n), b.n)
  {
    hide Output, Gain, Square;
    forall i | 0 <= i < b.n ensures OutputTerm(b, x0, u, p)(i) == RowTerm(OutRows(b, x0, p), Vector(u), b.n)(i) {
      OutputIsAffine(b, x0, u, i, p);
    }
    SumEq(OutputTerm(b, x0, u, p), RowTerm(OutRows(b, x0, p), Vector(u), b.n), b.n);
  }

  lemma RefLinear(b: Problem, u: Vec)
    ensures Inner(RefEntry(b), Vector(u), b.n) == Bilinear(Entries(b.r1), Vector(b.uref), Vector(u), b.n)
  {
    var f := BiTerm(Entries(b.r1), Vector(b.uref), Vector(u));
    DoubleSwap(f, b.n);
    var g := (c: int, a: int) => f(a, c);
    forall c | 0 <= c < b.n ensures RefEntry(b)(c) * At(u, c) == RowSum(g, c, b.n) {
      RefRow(b, u, c);
      SumEq(a => g(c, a), a => f(a, c), b.n);
    }
    SumEq(c => RefEntry(b)(c) * Vector(u)(c), c => RowSum(g, c, b.n), b.n);
    assert Double((i, j) => f(j, i), b.n) == Double(g, b.n);
  }

  lemma RefRow(b: Problem, u: Vec, c: int)
    ensures RefEntry(b)(c) * At(u, c) == Sum(a => BiTerm(Entries(b.r1), Vector(b.uref), Vector(u))(a, c), b.n)
  {
    hide BiTerm;
    var h := (a: int) => At(b.uref, a) * Cell(b.r1, a, c);
    var f := BiTerm(Entries(b.r1), Vector(b.uref), Vector(u));
    SumScale(At(u, c), h, b.n);
    forall a: int ensures At(u, c) * h(a) == f(a, c) { RefTerm(b, u, a, c); }
    SumEq(a => At(u, c) * h(a), a => f(a, c), b.n);
    SumEq(h, a => At(b.uref, a) * Cell(b.r1, a, c), b.n);
  }

  lemma RefTerm(b: Problem, u: Vec, a: int, c: int)
    ensures At(u, c) * (At(b.uref, a) * Cell(b.r1, a, c)) == BiTerm(Entries(b.r1), Vector(b.uref), Vector(u))(a, c)
  {
    Reorder(At(b.uref, a), Cell(b.r1, a, c), At(u, c));
  }

  lemma Reorder(r: real, p: real, u: real)
    ensures u * (r * p) == p * (r * u)
  {
  }

  lemma FLinear(b: Problem, x0: Vec, u: Vec)
    ensures Inner(FEntry(b, x0), Vector(u), b.n)
         == Inner(Linear(OutRows(b, x0, 0), b.n), Vector(u), b.n)
             + Inner(Linear(OutRows(b, x0, 1), b.n), Vector(u), b.n)
          - Bilinear(Entries(b.r1), Vector(b.uref), Vector(u), b.n)
  {
    hide Linear, RefEntry, OutRows, Inner, Bilinear;
    RefLinear(b, u);
    var l0, l1, r, x := Linear(OutRows(b, x0, 0), b.n), Linear(OutRows(b, x0, 1), b.n), RefEntry(b), Vector(u);
    InnerCombine(l0, l1, r, FEntry(b, x0), x, b.n);
  }

  lemma InnerCombine(l0: int -> real, l1: int -> real, r: int -> real, f: int -> real, x: int -> real, n: nat)
    requires forall i :: f(i) == (l0(i) + l1(i)) + -1.0 * r(i)
    ensures Inner(f, x, n) == Inner(l0, x, n) + Inner(l1, x, n) - Inner(r, x, n)
  {
    InnerInduct(l0, l1, r, f, x, n);
  }

  lemma {:induction false} InnerInduct(l0: int -> real, l1: int -> real, r: int -> real, f: int -> real,
      x: int -> real, n: nat)
    requires forall i :: f(i) == (l0(i) + l1(i)) + -1.0 * r(i)
    ensures Inner(f, x, n) == Inner(l0, x, n) + Inner(l1, x, n) - Inner(r, x, n)
  {
    if n > 0 {
      InnerInduct(l0, l1, r, f, x, n - 1);
      InnerLast(f, x, n - 1);
      InnerLast(l0, x, n - 1);
      InnerLast(l1, x, n - 1);
      InnerLast(r, x, n - 1);
      Distribute(l0(n - 1), l1(n - 1), r(n - 1), x(n - 1));
    }
  }

  lemma InnerLast(v: int -> real, x: int -> real, n: nat)
    ensures Inner(v, x, n + 1) == Inner(v, x, n) + v(n) * x(n)
  {
    SumEq(i => v(i) * x(i), i => v(i) * x(i), n);
  }

  lemma Distribute(p: real, q: real, r: real, x: real)
    ensures ((p + q) + -1.0 * r) * x == p * x + q * x - r * x
  {
  }

  lemma HForm(b: Problem, x0: Vec, u: Vec)
    ensures Quadratic(HEntry(b, x0), Vector(u), b.n)
         == Quadratic(Gram(OutRows(b, x0, 0), b.n), Vector(u), b.n)
             + Quadratic(Gram(OutRows(b, x0, 1), b.n), Vector(u), b.n)
          + Quadratic(Entries(b.r1), Vector(u), b.n) + Quadratic(Entries(b.r2), Vector(u), b.n)
  {
    hide Quadratic, Gram, OutRows;
    var x := Vector(u);
    var g0, g1, r1, r2 := Gram(OutRows(b, x0, 0), b.n), Gram(OutRows(b, x0, 1), b.n), Entries(b.r1), Entries(b.r2);
    var g, r := (i: int, j: int) => g0(i, j) + g1(i, j), (i: int, j: int) => r1(i, j) + r2(i, j);
    QuadraticAdd(g0, g1, x, b.n);
    QuadraticAdd(r1, r2, x, b.n);
    QuadraticAdd(g, r, x, b.n);
    QuadraticEq(HEntry(b, x0), (i, j) => g(i, j) + r(i, j), x, b.n);
  }

  /** The program's objective is the cost, up to a part no input changes. */
  lemma CostIdentity(b: Problem, x0: Vec, u: Vec)
    requires WellPosed(b)
    ensures CostOf(b, x0, u)
         == Quadratic(HEntry(b, x0), Vector(u), b.n) + 2.0 * Inner(FEntry(b, x0), Vector(u), b.n) + Constant(b, x0)
  {
    hide Quadratic, Gram, OutRows, Bilinear, Linear, Inner, BaseTerm, RowTerm, OutputTerm, HEntry, FEntry;
    OutputCost(b, x0, u, 0);
    OutputCost(b, x0, u, 1);
    RowsExpand(OutRows(b, x0, 0), Vector(u), b.n, b.n);
    RowsExpand(OutRows(b, x0, 1), Vector(u), b.n, b.n);
    ReferenceCost(b, u);
    HForm(b, x0, u);
    FLinear(b, x0, u);
  }

  lemma ReferenceCost(b: Problem, u: Vec)
    requires WellPosed(b)
    ensures Quadratic(Entries(b.r1), Minus(u, b.uref), b.n)
         == Quadratic(Entries(b.r1), Vector(u), b.n) - 2.0 * Bilinear(Entries(b.r1), Vector(b.uref), Vector(u), b.n)
          + Bilinear(Entries(b.r1), Vector(b.uref), Vector(b.uref), b.n)
  {
    hide Quadratic, Bilinear;
    var p, x, r := Entries(b.r1), Vector(u), Vector(b.uref);
    forall a, c | 0 <= a < b.n && 0 <= c < b.n ensures p(a, c) == p(c, a) { }
    ShiftedForm(p, x, r, b.n);
    QuadraticIsBilinear(p, x, b.n);
    QuadraticIsBilinear(p, Minus(u, b.uref), b.n);
    MinusBilinear(b, u);
  }

  lemma MinusIs(u: Vec, r: Vec, i: int)
    ensures Minus(u, r)(i) == Vector(u)(i) - Vector(r)(i)
  {
  }

  lemma MinusBilinear(b: Problem, u: Vec)
    ensures Bilinear(Entries(b.r1), Minus(u, b.uref), Minus(u, b.uref), b.n)
         == Bilinear(Entries(b.r1), k => Vector(u)(k) - Vector(b.uref)(k), k => Vector(u)(k) - Vector(b.uref)(k), b.n)
  {
    var d := (k: int) => Vector(u)(k) - Vector(b.uref)(k);
    var m := Minus(u, b.uref);
    forall i, j ensures BiTerm(Entries(b.r1), m, m)(i, j) == BiTerm(Entries(b.r1), d, d)(i, j) {
      MinusIs(u, b.uref, i);
      MinusIs(u, b.uref, j);
      assert d(i) == Vector(u)(i) - Vector(b.uref)(i);
      assert d(j) == Vector(u)(j) - Vector(b.uref)(j);
    }
    DoubleEq(BiTerm(Entries(b.r1), m, m), BiTerm(Entries(b.r1), d, d), b.n);
  }

  // ---- consequences -----------------------------------------------------------------------------

  /** What the solver is given to minimise: u' H u / 2 + f u. */
  ghost function Objective(h: (int, int) -> real, f: int -> real, u: Vec, n: nat): real {
    Quadratic(h, Vector(u), n) / 2.0 + Inner(f, Vector(u), n)
  }

  /** The program prefers one input sequence to another exactly when the cost does. */
  lemma SamePreference(b: Problem, x0: Vec, u: Vec, v: Vec)
    requires WellPosed(b)
    ensures CostOf(b, x0, u) <= CostOf(b, x0, v)
      <==> Objective(HEntry(b, x0), FEntry(b, x0), u, b.n) <= Objective(HEntry(b, x0), FEntry(b, x0), v, b.n)
  {
    hide CostOf, Quadratic, Inner, HEntry, FEntry, Constant;
    CostIdentity(b, x0, u);
    CostIdentity(b, x0, v);
  }

  lemma HSymmetric(b: Problem, x0: Vec, a: nat, c: nat)
    requires WellPosed(b) && a < b.n && c < b.n
    ensures HEntry(b, x0)(a, c) == HEntry(b, x0)(c, a)
  {
    GramSymmetric(OutRows(b, x0, 0), b.n, a, c);
    GramSymmetric(OutRows(b, x0, 1), b.n, a, c);
  }

  /** With non-negative weights and non-negative input forms the program is convex. */
  lemma HNonNegative(b: Problem, x0: Vec, u: Vec)
    requires forall i :: 0 <= i < b.n ==> At(b.q0, i) >= 0.0 && At(b.q1, i) >= 0.0
    requires Quadratic(Entries(b.r1), Vector(u), b.n) >= 0.0 && Quadratic(Entries(b.r2), Vector(u), b.n) >= 0.0
    ensures Quadratic(HEntry(b, x0), Vector(u), b.n) >= 0.0
  {
    hide Quadratic, HEntry, Gram;
    HForm(b, x0, u);
    GainsNonNegative(b, x0, u, 0);
    GainsNonNegative(b, x0, u, 1);
  }

  lemma GainsNonNegative(b: Problem, x0: Vec, u: Vec, p: nat)
    requires forall i :: 0 <= i < b.n ==> OutRows(b, x0, p).w(i) >= 0.0
    ensures Quadratic(Gram(OutRows(b, x0, p), b.n), Vector(u), b.n) >= 0.0
  {
    hide Quadratic, Gram, Gain;
    var s, x := OutRows(b, x0, p), Vector(u);
    GramForm(s, x, b.n, b.n);
    forall i | 0 <= i < b.n ensures GainTerm(s, x, b.n)(i) >= 0.0 { WeightedSquare(s.w(i), Gain(s, i, x, b.n)); }
    SumNonNegative(GainTerm(s, x, b.n), b.n);
  }
}
