/** The steering-rate, steering-acceleration and lateral-jerk weights of the controller's cost. */
module SteerWeights {
  import opened Sums
  import opened Reals
  import opened Matchings
  import opened LinearAlgebra

  // ---- adding a rank-one block ------------------------------------------------------------------

  /** m' is m plus s v v'. */
  ghost predicate Bumped(m: Matrix, m': Matrix, n: nat, s: real, v: int -> real) {
    forall i, j :: 0 <= i < n && 0 <= j < n ==> Cell(m', i, j) == Cell(m, i, j) + s * v(i) * v(j)
  }

  lemma BumpedForm(m: Matrix, m': Matrix, n: nat, s: real, v: int -> real, u: Vec)
    requires Bumped(m, m', n, s, v)
    ensures FormOf(m', u, n) == FormOf(m, u, n) + s * Square(Inner(v, Vector(u), n))
  {
    hide Term, FormRow, Quadratic, Inner;
    var x := Vector(u);
    var p, q := Entries(m), (i: int, j: int) => s * v(i) * v(j);
    QuadraticAdd(p, q, x, n);
    QuadraticEq(Entries(m'), (i, j) => p(i, j) + q(i, j), x, n);
    RankOne(s, v, x, n);
    var t := Inner(v, x, n);
    assert s * t * t == s * Square(t);
  }

  lemma BumpedSymmetric(m: Matrix, m': Matrix, n: nat, s: real, v: int -> real)
    requires Bumped(m, m', n, s, v) && Symmetric(m, n)
    ensures Symmetric(m', n)
  {
  }

  /** Entries k, k + 1, k + 2 are x, y, z and all others zero. */
  function Three(k: int, x: real, y: real, z: real): int -> real {
    i => if i == k then x else if i == k + 1 then y else if i == k + 2 then z else 0.0
  }

  lemma InnerThree(k: nat, x: real, y: real, z: real, u: Vec, n: nat)
    requires k + 1 < n && (k + 2 < n || z == 0.0)
    ensures Inner(Three(k, x, y, z), Vector(u), n)
         == x * At(u, k) + y * At(u, k + 1) + (if k + 2 < n then z * At(u, k + 2) else 0.0)
  {
    hide At, Sum;
    var v, w := Three(k, x, y, z), Vector(u);
    var f := (i: int) => v(i) * w(i);
    forall i | 0 <= i < n && !(k <= i <= k + 2) ensures f(i) == 0.0 { assert v(i) == 0.0; }
    SumThree(f, n, k);
    assert v(k) == x && v(k + 1) == y && v(k + 2) == z;
  }

  /** Only the terms k, k + 1 and k + 2 are non-zero. */
  lemma SumThree(f: int -> real, n: nat, k: nat)
    requires k + 1 < n && forall i :: 0 <= i < n && !(k <= i <= k + 2) ==> f(i) == 0.0
    ensures Sum(f, n) == f(k) + f(k + 1) + (if k + 2 < n then f(k + 2) else 0.0)
  {
    SumZero(f, k);
    assert Sum(f, k + 2) == Sum(f, k + 1) + f(k + 1) == f(k) + f(k + 1);
    SumTruncate(f, n, if k + 2 < n then k + 3 else k + 2);
  }

  // ---- what the weights mean --------------------------------------------------------------------

  datatype SteerParam = SteerParam(horizon: nat, dt: real, ctrlPeriod: real, weightSteerRate: real,
      weightSteerAcc: real)

  ghost predicate Configured(p: SteerParam) {
    p.dt > 0.0 && p.ctrlPeriod > 0.0
  }

  /** The i-th step of u. */
  function Step(u: Vec, i: int): real { At(u, i + 1) - At(u, i) }

  /** The second difference of u around i + 1. */
  function Bend(u: Vec, i: int): real { At(u, i) - 2.0 * At(u, i + 1) + At(u, i + 2) }

  ghost function RateOf(p: SteerParam, u: Vec, i: int): real
    requires Configured(p)
  {
    Step(u, i) / p.dt
  }

  ghost function AccOf(p: SteerParam, u: Vec, i: int): real
    requires Configured(p)
  {
    Bend(u, i) / (p.dt * p.dt)
  }

  ghost function RateTerm(p: SteerParam, u: Vec): int -> real
    requires Configured(p)
  {
    i => p.weightSteerRate * Square(RateOf(p, u, i))
  }

  ghost function AccTerm(p: SteerParam, u: Vec): int -> real
    requires Configured(p)
  {
    i => p.weightSteerAcc * Square(AccOf(p, u, i))
  }

  /** The squared steering rates (u[i + 1] - u[i]) / dt of the first `count` steps, weighted. */
  ghost function RateCost(p: SteerParam, count: nat): Vec -> real
    requires Configured(p)
  {
    u => Sum(RateTerm(p, u), count)
  }

  /** The rate into the first command, from a previous command of 0. */
  ghost function FirstRateCost(p: SteerParam): Vec -> real
    requires Configured(p)
  {
    u => p.weightSteerRate * Square(At(u, 0) / p.ctrlPeriod)
  }

  /** The squared steering accelerations inside the horizon, weighted. */
  ghost function AccCost(p: SteerParam, count: nat): Vec -> real
    requires Configured(p)
  {
    u => Sum(AccTerm(p, u), count)
  }

  /** The acceleration at i = 1: the rate (u[1] - u[0]) / dt less the first rate u[0] / ctrlPeriod, over dt. */
  ghost function SecondAccCost(p: SteerParam): Vec -> real
    requires Configured(p)
  {
    u => p.weightSteerAcc * Square((Step(u, 0) / p.dt - At(u, 0) / p.ctrlPeriod) / p.dt)
  }

  /** The acceleration at i = 0, from two previous commands of 0. */
  ghost function FirstAccCost(p: SteerParam): Vec -> real
    requires Configured(p)
  {
    u => p.weightSteerAcc * Square(At(u, 0) / (p.ctrlPeriod * p.ctrlPeriod))
  }

  ghost function SteerCost(p: SteerParam): Vec -> real
    requires Configured(p)
  {
    u =>
      if p.horizon <= 1 then 0.0 else
      RateCost(p, p.horizon - 1)(u) + FirstRateCost(p)(u)
      + AccCost(p, p.horizon - 2)(u) + SecondAccCost(p)(u) + FirstAccCost(p)(u)
  }

  lemma SteerCostNonNegative(p: SteerParam, u: Vec)
    requires Configured(p) && p.weightSteerRate >= 0.0 && p.weightSteerAcc >= 0.0
    ensures SteerCost(p)(u) >= 0.0
  {
    hide Sum;
    if p.horizon > 1 {
      RateTermsNonNegative(p, u);
      FirstTermsNonNegative(p, u);
      assert RateCost(p, p.horizon - 1)(u) >= 0.0 && AccCost(p, p.horizon - 2)(u) >= 0.0;
    }
  }

  lemma FirstTermsNonNegative(p: SteerParam, u: Vec)
    requires Configured(p) && p.weightSteerRate >= 0.0 && p.weightSteerAcc >= 0.0
    ensures FirstRateCost(p)(u) >= 0.0 && SecondAccCost(p)(u) >= 0.0 && FirstAccCost(p)(u) >= 0.0
  {
    var x, y := At(u, 0) / p.ctrlPeriod, At(u, 0) / (p.ctrlPeriod * p.ctrlPeriod);
    var z := (Step(u, 0) / p.dt - x) / p.dt;
    WeightedSquare(p.weightSteerRate, x);
    WeightedSquare(p.weightSteerAcc, y);
    WeightedSquare(p.weightSteerAcc, z);
  }

  lemma RateTermsNonNegative(p: SteerParam, u: Vec)
    requires Configured(p) && p.weightSteerRate >= 0.0 && p.weightSteerAcc >= 0.0
    ensures forall n: nat :: Sum(RateTerm(p, u), n) >= 0.0 && Sum(AccTerm(p, u), n) >= 0.0
  {
    hide Sum;
    forall i: int ensures RateTerm(p, u)(i) >= 0.0 && AccTerm(p, u)(i) >= 0.0 {
      RateTermNonNegative(p, u, i);
      AccTermNonNegative(p, u, i);
    }
    forall n: nat ensures Sum(RateTerm(p, u), n) >= 0.0 && Sum(AccTerm(p, u), n) >= 0.0 {
      SumNonNegative(RateTerm(p, u), n);
      SumNonNegative(AccTerm(p, u), n);
    }
  }

  lemma RateTermNonNegative(p: SteerParam, u: Vec, i: int)
    requires Configured(p) && p.weightSteerRate >= 0.0
    ensures RateTerm(p, u)(i) >= 0.0
  {
    WeightedSquare(p.weightSteerRate, RateOf(p, u, i));
  }

  lemma AccTermNonNegative(p: SteerParam, u: Vec, i: int)
    requires Configured(p) && p.weightSteerAcc >= 0.0
    ensures AccTerm(p, u)(i) >= 0.0
  {
    WeightedSquare(p.weightSteerAcc, AccOf(p, u, i));
  }

  /** A weight over a squared unit weighs the quotient. */
  lemma ScaledSquare(w: real, d: real, x: real)
    requires d != 0.0
    ensures w / (d * d) * Square(x) == w * Square(x / d)
  {
    var q, r := x / d, w / (d * d);
    assert q * d == x && r * (d * d) == w;
    assert r * ((q * d) * (q * d)) == (r * (d * d)) * (q * q);
  }

  function Pow(x: real, k: nat): (y: real)
    ensures x > 0.0 ==> y > 0.0
  {
    if k == 0 then 1.0 else x * Pow(x, k - 1)
  }

  lemma PowFour(x: real)
    ensures Pow(x, 2) == x * x && Pow(x, 3) == x * x * x && Pow(x, 4) == (x * x) * (x * x)
  {
    assert Pow(x, 1) == x;
    assert Pow(x, 3) == x * Pow(x, 2) && Pow(x, 4) == x * Pow(x, 3);
    assert x * (x * (x * x)) == (x * x) * (x * x);
  }

  // ---- the in-place additions -------------------------------------------------------------------

  function StepBlock(): Matrix { [[1.0, -1.0], [-1.0, 1.0]] }

  function BendBlock(): Matrix { [[1.0, -2.0, 1.0], [-2.0, 4.0, -2.0], [1.0, -2.0, 1.0]] }

  lemma StepBlockOuter(s: real, k: int, i: int, j: int)
    ensures s * Cell(StepBlock(), i - k, j - k) == s * Three(k, 1.0, -1.0, 0.0)(i) * Three(k, 1.0, -1.0, 0.0)(j)
  {
  }

  lemma BendBlockOuter(s: real, k: int, i: int, j: int)
    ensures s * Cell(BendBlock(), i - k, j - k) == s * Three(k, 1.0, -2.0, 1.0)(i) * Three(k, 1.0, -2.0, 1.0)(j)
  {
  }

  /** m' is m plus s d at row and column k. */
  ghost predicate BlockAdded(m: Matrix, m': Matrix, n: nat, k: nat, s: real, d: Matrix) {
    forall i, j :: 0 <= i < n && 0 <= j < n ==> Cell(m', i, j) == Cell(m, i, j) + s * Cell(d, i - k, j - k)
  }

  /** r.block(k, k, |d|, |d|) += s * d */
  method AddBlock(r: array2<real>, k: nat, s: real, d: Matrix)
    requires r.Length0 == r.Length1 && k + |d| <= r.Length0 && Rectangular(d, |d|, |d|)
    modifies r
    ensures BlockAdded(old(Block(r, r.Length0)), Block(r, r.Length0), r.Length0, k, s, d)
  {
    hide Scaled, Cell;
    ghost var n, m := r.Length0, Block(r, r.Length0);
    forall i, j | k <= i < k + |d| && k <= j < k + |d| {
      r[i, j] := r[i, j] + Scaled(s, d, i - k, j - k);
    }
    forall i, j | 0 <= i < n && 0 <= j < n ensures r[i, j] == m[i][j] + Scaled(s, d, i - k, j - k) {
      if !(k <= i < k + |d| && k <= j < k + |d|) { ScaledOutside(s, d, i - k, j - k); }
    }
    CellsAdded(m, Block(r, n), n, k, s, d);
  }

  function Scaled(s: real, d: Matrix, i: int, j: int): real { s * Cell(d, i, j) }

  lemma ScaledOutside(s: real, d: Matrix, i: int, j: int)
    requires Rectangular(d, |d|, |d|) && !(0 <= i < |d| && 0 <= j < |d|)
    ensures Scaled(s, d, i, j) == 0.0
  {
  }

  lemma CellsAdded(m: Matrix, m': Matrix, n: nat, k: nat, s: real, d: Matrix)
    requires Rectangular(m, n, n) && Rectangular(m', n, n)
    requires forall i, j :: 0 <= i < n && 0 <= j < n ==> m'[i][j] == m[i][j] + Scaled(s, d, i - k, j - k)
    ensures BlockAdded(m, m', n, k, s, d)
  {
    forall i, j | 0 <= i < n && 0 <= j < n ensures Cell(m', i, j) == Cell(m, i, j) + s * Cell(d, i - k, j - k) {
      assert m'[i][j] == m[i][j] + Scaled(s, d, i - k, j - k);
    }
  }

  // ---- one block at a time ----------------------------------------------------------------------

  /** An update adds `cost(u)` to the form of every u and keeps the matrix symmetric. */
  ghost predicate Adds(m: Matrix, m': Matrix, n: nat, cost: Vec -> real) {
    && (forall u: Vec :: FormOf(m', u, n) == FormOf(m, u, n) + cost(u))
    && (Symmetric(m, n) ==> Symmetric(m', n))
  }

  lemma AddsNothing(m: Matrix, n: nat, cost: Vec -> real)
    requires forall u: Vec :: cost(u) == 0.0
    ensures Adds(m, m, n, cost)
  {
  }

  lemma AddsBoth(m: Matrix, m': Matrix, m'': Matrix, n: nat, f: Vec -> real, g: Vec -> real, h: Vec -> real)
    requires Adds(m, m', n, f) && Adds(m', m'', n, g) && forall u: Vec :: h(u) == f(u) + g(u)
    ensures Adds(m, m'', n, h)
  {
    forall u: Vec ensures FormOf(m'', u, n) == FormOf(m, u, n) + h(u) {
      assert FormOf(m', u, n) == FormOf(m, u, n) + f(u);
    }
  }

  lemma StepForm(m: Matrix, m': Matrix, n: nat, d: real, k: nat, u: Vec)
    requires k + 1 < n && BlockAdded(m, m', n, k, d, StepBlock())
    ensures FormOf(m', u, n) == FormOf(m, u, n) + d * Square(Step(u, k))
    ensures Symmetric(m, n) ==> Symmetric(m', n)
  {
    hide FormOf, Inner, Cell, Three, StepBlock;
    var v := Three(k, 1.0, -1.0, 0.0);
    forall i, j | 0 <= i < n && 0 <= j < n ensures Cell(m', i, j) == Cell(m, i, j) + d * v(i) * v(j) {
      StepBlockOuter(d, k, i, j);
    }
    BumpedForm(m, m', n, d, v, u);
    InnerThree(k, 1.0, -1.0, 0.0, u, n);
    SquareNegated(Step(u, k));
    if Symmetric(m, n) { BumpedSymmetric(m, m', n, d, v); }
  }

  lemma SquareNegated(x: real)
    ensures Square(-x) == Square(x)
  {
  }

  lemma BendForm(m: Matrix, m': Matrix, n: nat, d: real, k: nat, u: Vec)
    requires k + 2 < n && BlockAdded(m, m', n, k, d, BendBlock())
    ensures FormOf(m', u, n) == FormOf(m, u, n) + d * Square(Bend(u, k))
    ensures Symmetric(m, n) ==> Symmetric(m', n)
  {
    hide FormOf, Inner, Cell, Three, BendBlock;
    var v := Three(k, 1.0, -2.0, 1.0);
    forall i, j | 0 <= i < n && 0 <= j < n ensures Cell(m', i, j) == Cell(m, i, j) + d * v(i) * v(j) {
      BendBlockOuter(d, k, i, j);
    }
    BumpedForm(m, m', n, d, v, u);
    InnerThree(k, 1.0, -2.0, 1.0, u, n);
    assert 1.0 * At(u, k) + -2.0 * At(u, k + 1) + 1.0 * At(u, k + 2) == Bend(u, k);
    if Symmetric(m, n) { BumpedSymmetric(m, m', n, d, v); }
  }

  /** The two leading entries of u, weighted x and y: adds s (x u[0] + y u[1])^2. */
  lemma CornerForm(m: Matrix, m': Matrix, n: nat, s: real, x: real, y: real, u: Vec)
    requires 1 < n && Bumped(m, m', n, s, Three(0, x, y, 0.0))
    ensures FormOf(m', u, n) == FormOf(m, u, n) + s * Square(x * At(u, 0) + y * At(u, 1))
    ensures Symmetric(m, n) ==> Symmetric(m', n)
  {
    hide FormOf, Inner, Cell, Three;
    BumpedForm(m, m', n, s, Three(0, x, y, 0.0), u);
    InnerThree(0, x, y, 0.0, u, n);
    if Symmetric(m, n) { BumpedSymmetric(m, m', n, s, Three(0, x, y, 0.0)); }
  }

  // ---- the steering weights ---------------------------------------------------------------------

  lemma RateStep(m: Matrix, m': Matrix, m'': Matrix, p: SteerParam, i: nat)
    requires Configured(p) && i + 1 < p.horizon
    requires Adds(m, m', p.horizon, RateCost(p, i))
    requires BlockAdded(m', m'', p.horizon, i, p.weightSteerRate / (p.dt * p.dt), StepBlock())
    ensures Adds(m, m'', p.horizon, RateCost(p, i + 1))
  {
    hide FormOf, BlockAdded, Symmetric, Sum;
    var d := p.weightSteerRate / (p.dt * p.dt);
    StepForm(m', m'', p.horizon, d, i, []);
    forall u: Vec ensures FormOf(m'', u, p.horizon) == FormOf(m, u, p.horizon) + RateCost(p, i + 1)(u) {
      StepForm(m', m'', p.horizon, d, i, u);
      ScaledSquare(p.weightSteerRate, p.dt, Step(u, i));
      assert FormOf(m', u, p.horizon) == FormOf(m, u, p.horizon) + RateCost(p, i)(u);
      LastTerm(RateTerm(p, u), i);
    }
  }

  lemma LastTerm(f: int -> real, n: nat)
    ensures Sum(f, n + 1) == Sum(f, n) + f(n)
  {
  }

  lemma AccStep(m: Matrix, m': Matrix, m'': Matrix, p: SteerParam, i: nat)
    requires Configured(p) && i + 2 < p.horizon
    requires Adds(m, m', p.horizon, AccCost(p, i))
    requires BlockAdded(m', m'', p.horizon, i, p.weightSteerAcc / Pow(p.dt, 4), BendBlock())
    ensures Adds(m, m'', p.horizon, AccCost(p, i + 1))
  {
    hide FormOf, BlockAdded, Symmetric, Sum;
    PowFour(p.dt);
    var d := p.weightSteerAcc / Pow(p.dt, 4);
    BendForm(m', m'', p.horizon, d, i, []);
    forall u: Vec ensures FormOf(m'', u, p.horizon) == FormOf(m, u, p.horizon) + AccCost(p, i + 1)(u) {
      BendForm(m', m'', p.horizon, d, i, u);
      ScaledSquare(p.weightSteerAcc, p.dt * p.dt, Bend(u, i));
      assert FormOf(m', u, p.horizon) == FormOf(m, u, p.horizon) + AccCost(p, i)(u);
      assert AccOf(p, u, i) == Bend(u, i) / (p.dt * p.dt);
      LastTerm(AccTerm(p, u), i);
    }
  }

  lemma CornerRate(m: Matrix, m': Matrix, p: SteerParam)
    requires Configured(p) && p.horizon > 1
    requires BlockAdded(m, m', p.horizon, 0, p.weightSteerRate / (p.ctrlPeriod * p.ctrlPeriod), [[1.0]])
    ensures Adds(m, m', p.horizon, FirstRateCost(p))
  {
    hide FormOf, Symmetric;
    var s := p.weightSteerRate / (p.ctrlPeriod * p.ctrlPeriod);
    CornerOne(m, m', p.horizon, s);
    forall u: Vec ensures FormOf(m', u, p.horizon) == FormOf(m, u, p.horizon) + FirstRateCost(p)(u) {
      CornerForm(m, m', p.horizon, s, 1.0, 0.0, u);
      ScaledSquare(p.weightSteerRate, p.ctrlPeriod, At(u, 0));
    }
    CornerForm(m, m', p.horizon, s, 1.0, 0.0, []);
  }

  lemma CornerOne(m: Matrix, m': Matrix, n: nat, s: real)
    requires BlockAdded(m, m', n, 0, s, [[1.0]])
    ensures Bumped(m, m', n, s, Three(0, 1.0, 0.0, 0.0))
  {
    var v := Three(0, 1.0, 0.0, 0.0);
    forall i, j | 0 <= i < n && 0 <= j < n ensures s * Cell([[1.0]], i, j) == s * v(i) * v(j) { }
  }

  lemma CornerAcc(m: Matrix, m': Matrix, p: SteerParam)
    requires Configured(p) && p.horizon > 1
    requires BlockAdded(m, m', p.horizon, 0, p.weightSteerAcc / Pow(p.ctrlPeriod, 4), [[1.0]])
    ensures Adds(m, m', p.horizon, FirstAccCost(p))
  {
    hide FormOf, Symmetric, Pow;
    PowFour(p.ctrlPeriod);
    var s := p.weightSteerAcc / Pow(p.ctrlPeriod, 4);
    CornerOne(m, m', p.horizon, s);
    forall u: Vec ensures FormOf(m', u, p.horizon) == FormOf(m, u, p.horizon) + FirstAccCost(p)(u) {
      CornerForm(m, m', p.horizon, s, 1.0, 0.0, u);
      ScaledSquare(p.weightSteerAcc, p.ctrlPeriod * p.ctrlPeriod, At(u, 0));
    }
    CornerForm(m, m', p.horizon, s, 1.0, 0.0, []);
  }

  /** The corner added for i = 1, entry by entry as the code forms it. */
  function SecondCorner(p: SteerParam): (c: Matrix)
    requires p.dt > 0.0 && p.ctrlPeriod > 0.0
    ensures Rectangular(c, 2, 2)
  {
    var r := p.weightSteerAcc / Pow(p.dt, 4);
    var cp1 := p.weightSteerAcc / (Pow(p.dt, 3) * p.ctrlPeriod);
    var cp2 := p.weightSteerAcc / (Pow(p.dt, 2) * Pow(p.ctrlPeriod, 2));
    [[r * 1.0 + cp2 * 1.0 + cp1 * 2.0, r * -1.0 + cp1 * -1.0], [r * -1.0 + cp1 * -1.0, r * 1.0]]
  }

  /** Where q and r invert x and y, w over x y is w q r. */
  lemma WeightOver(w: real, z: real, x: real, y: real, q: real, r: real)
    requires z == x * y && q * x == 1.0 && r * y == 1.0
    ensures z != 0.0 && w / z == w * q * r
  {
    assert (w * q * r) * (x * y) == w * (q * x) * (r * y);
    assert (q * r) * (x * y) == (q * x) * (r * y);
    Quotient(w, z, w * q * r);
  }

  lemma Regroup(d: real, c: real, dd: real, dc: real)
    requires dd == d * d && dc == d * c
    ensures Pow(d, 4) == dd * dd
    ensures Pow(d, 3) * c == dd * dc
    ensures Pow(d, 2) * Pow(c, 2) == dc * dc
  {
    PowFour(d);
    PowFour(c);
  }

  ghost predicate Inverses(p: SteerParam, a: real, b: real) {
    a * (p.dt * p.dt) == 1.0 && b * (p.dt * p.ctrlPeriod) == 1.0
  }

  lemma SecondCornerParts(p: SteerParam, a: real, b: real)
    requires Configured(p) && Inverses(p, a, b)
    ensures p.weightSteerAcc / Pow(p.dt, 4) == p.weightSteerAcc * a * a
    ensures p.weightSteerAcc / (Pow(p.dt, 3) * p.ctrlPeriod) == p.weightSteerAcc * a * b
    ensures p.weightSteerAcc / (Pow(p.dt, 2) * Pow(p.ctrlPeriod, 2)) == p.weightSteerAcc * b * b
  {
    hide Pow;
    SecondCornerPart(p.weightSteerAcc, p.dt, p.ctrlPeriod, p.dt * p.dt, p.dt * p.ctrlPeriod, a, b);
  }

  lemma SecondCornerPart(w: real, d: real, c: real, dd: real, dc: real, a: real, b: real)
    requires d > 0.0 && c > 0.0 && dd == d * d && dc == d * c && a * dd == 1.0 && b * dc == 1.0
    ensures w / Pow(d, 4) == w * a * a
    ensures w / (Pow(d, 3) * c) == w * a * b
    ensures w / (Pow(d, 2) * Pow(c, 2)) == w * b * b
  {
    hide Pow;
    Regroup(d, c, dd, dc);
    WeightOver(w, Pow(d, 4), dd, dd, a, a);
    WeightOver(w, Pow(d, 3) * c, dd, dc, a, b);
    WeightOver(w, Pow(d, 2) * Pow(c, 2), dc, dc, b, b);
  }

  lemma SecondCornerEntries(p: SteerParam, a: real, b: real, c: Matrix, x: real)
    requires Configured(p) && Inverses(p, a, b) && c == SecondCorner(p) && x == -(a + b)
    ensures c[0][0] == p.weightSteerAcc * x * x && c[0][1] == p.weightSteerAcc * x * a
    ensures c[1][0] == p.weightSteerAcc * a * x && c[1][1] == p.weightSteerAcc * a * a
  {
    hide Pow;
    SecondCornerParts(p, a, b);
  }

  lemma CornerBumps(m: Matrix, m': Matrix, n: nat, w: real, x: real, y: real, c: Matrix)
    requires Rectangular(c, 2, 2) && BlockAdded(m, m', n, 0, 1.0, c)
    requires c[0][0] == w * x * x && c[0][1] == w * x * y && c[1][0] == w * y * x && c[1][1] == w * y * y
    ensures Bumped(m, m', n, w, Three(0, x, y, 0.0))
  {
    hide Three, Cell;
    var v := Three(0, x, y, 0.0);
    forall i, j | 0 <= i < n && 0 <= j < n ensures 1.0 * Cell(c, i, j) == w * v(i) * v(j) {
      CornerEntry(w, x, y, c, i, j);
    }
  }

  lemma CornerEntry(w: real, x: real, y: real, c: Matrix, i: nat, j: nat)
    requires Rectangular(c, 2, 2)
    requires c[0][0] == w * x * x && c[0][1] == w * x * y && c[1][0] == w * y * x && c[1][1] == w * y * y
    ensures Cell(c, i, j) == w * Three(0, x, y, 0.0)(i) * Three(0, x, y, 0.0)(j)
  {
    var p, q := Three(0, x, y, 0.0)(i), Three(0, x, y, 0.0)(j);
    if i >= 2 {
      assert p == 0.0;
    } else if j >= 2 {
      assert q == 0.0;
    } else if i == 0 {
      assert p == x && q == if j == 0 then x else y;
    } else {
      assert p == y && q == if j == 0 then x else y;
    }
  }

  lemma SecondCornerBumps(m: Matrix, m': Matrix, p: SteerParam, a: real, b: real)
    requires Configured(p) && p.horizon > 1 && Inverses(p, a, b)
    requires BlockAdded(m, m', p.horizon, 0, 1.0, SecondCorner(p))
    ensures Bumped(m, m', p.horizon, p.weightSteerAcc, Three(0, -(a + b), a, 0.0))
  {
    hide Pow, BlockAdded, Bumped;
    SecondCornerEntries(p, a, b, SecondCorner(p), -(a + b));
    CornerBumps(m, m', p.horizon, p.weightSteerAcc, -(a + b), a, SecondCorner(p));
  }

  /** In the units of the corner, the weighted pair is the acceleration at i = 1. */
  lemma SecondAccIs(p: SteerParam, a: real, b: real, u: Vec)
    requires Configured(p) && Inverses(p, a, b)
    ensures -(a + b) * At(u, 0) + a * At(u, 1) == (Step(u, 0) / p.dt - At(u, 0) / p.ctrlPeriod) / p.dt
  {
    hide At;
    var x, y, d, c := At(u, 0), At(u, 1), p.dt, p.ctrlPeriod;
    Quotient(y - x, d, a * d * (y - x));
    Quotient(x, c, b * d * x);
    Quotient(a * d * (y - x) - b * d * x, d, a * (y - x) - b * x);
  }

  lemma CornerSecondAcc(m: Matrix, m': Matrix, p: SteerParam)
    requires Configured(p) && p.horizon > 1
    requires BlockAdded(m, m', p.horizon, 0, 1.0, SecondCorner(p))
    ensures Adds(m, m', p.horizon, SecondAccCost(p))
  {
    hide FormOf, Symmetric, SecondCorner, BlockAdded, Bumped;
    var a, b := 1.0 / (p.dt * p.dt), 1.0 / (p.dt * p.ctrlPeriod);
    SecondCornerBumps(m, m', p, a, b);
    forall u: Vec ensures FormOf(m', u, p.horizon) == FormOf(m, u, p.horizon) + SecondAccCost(p)(u) {
      CornerForm(m, m', p.horizon, p.weightSteerAcc, -(a + b), a, u);
      SecondAccIs(p, a, b, u);
    }
    CornerForm(m, m', p.horizon, p.weightSteerAcc, -(a + b), a, []);
  }

  ghost function RatePart(p: SteerParam): Vec -> real
    requires Configured(p) && p.horizon > 1
  {
    u => RateCost(p, p.horizon - 1)(u) + FirstRateCost(p)(u)
  }

  ghost function AccPart(p: SteerParam): Vec -> real
    requires Configured(p) && p.horizon > 1
  {
    u => AccCost(p, p.horizon - 2)(u) + SecondAccCost(p)(u) + FirstAccCost(p)(u)
  }

  /** The rate block of the code: one 2 x 2 block a step, then the corner for the first rate. */
  method AddSteerRates(r: array2<real>, p: SteerParam)
    requires Configured(p) && p.horizon > 1 && r.Length0 == r.Length1 == p.horizon
    modifies r
    ensures Adds(old(Block(r, p.horizon)), Block(r, p.horizon), p.horizon, RatePart(p))
  {
    hide Adds, Pow, BlockAdded, Block, Cell;
    var n := p.horizon;
    ghost var m := Block(r, n);
    var steerRateR := p.weightSteerRate / (p.dt * p.dt);
    AddsZeroCosts(m, p);
    for i := 0 to n - 1
      invariant Adds(m, Block(r, n), n, RateCost(p, i))
    {
      ghost var before := Block(r, n);
      AddBlock(r, i, steerRateR, StepBlock());
      RateStep(m, before, Block(r, n), p, i);
    }
    ghost var steps := Block(r, n);
    AddBlock(r, 0, p.weightSteerRate / (p.ctrlPeriod * p.ctrlPeriod), [[1.0]]);
    CornerRate(steps, Block(r, n), p);
    AddsBoth(m, steps, Block(r, n), n, RateCost(p, n - 1), FirstRateCost(p), RatePart(p));
  }

  /** The acceleration block of the code: one 3 x 3 block a bend, then the corners for i = 1 and i = 0. */
  method AddSteerAccs(r: array2<real>, p: SteerParam)
    requires Configured(p) && p.horizon > 1 && r.Length0 == r.Length1 == p.horizon
    modifies r
    ensures Adds(old(Block(r, p.horizon)), Block(r, p.horizon), p.horizon, AccPart(p))
  {
    hide Adds, SecondCorner, Pow, BlockAdded, Block, Cell;
    var n := p.horizon;
    ghost var m := Block(r, n);
    var steerAccR := p.weightSteerAcc / Pow(p.dt, 4);
    AddsZeroCosts(m, p);
    for i := 1 to n - 1
      invariant Adds(m, Block(r, n), n, AccCost(p, i - 1))
    {
      ghost var before := Block(r, n);
      AddBlock(r, i - 1, steerAccR, BendBlock());
      AccStep(m, before, Block(r, n), p, i - 1);
    }
    ghost var bends := Block(r, n);
    AddBlock(r, 0, 1.0, SecondCorner(p));
    ghost var second := Block(r, n);
    CornerSecondAcc(bends, second, p);
    AddBlock(r, 0, p.weightSteerAcc / Pow(p.ctrlPeriod, 4), [[1.0]]);
    CornerAcc(second, Block(r, n), p);
    ghost var inner := (u: Vec) => AccCost(p, n - 2)(u) + SecondAccCost(p)(u);
    AddsBoth(m, bends, second, n, AccCost(p, n - 2), SecondAccCost(p), inner);
    AddsBoth(m, second, Block(r, n), n, inner, FirstAccCost(p), AccPart(p));
  }

  lemma AddsZeroCosts(m: Matrix, p: SteerParam)
    requires Configured(p)
    ensures Adds(m, m, p.horizon, RateCost(p, 0))
    ensures Adds(m, m, p.horizon, AccCost(p, 0))
  {
    AddsNothing(m, p.horizon, RateCost(p, 0));
    AddsNothing(m, p.horizon, AccCost(p, 0));
  }

  /** Adds the steering-rate and steering-acceleration weights to r; below a horizon of 2 there is nothing to add. */
  method AddSteerWeightR(r: array2<real>, p: SteerParam)
    requires Configured(p) && r.Length0 == r.Length1 == p.horizon
    modifies r
    ensures Adds(old(Block(r, p.horizon)), Block(r, p.horizon), p.horizon, SteerCost(p))
  {
    ghost var m := Block(r, p.horizon);
    if p.horizon > 1 {
      AddSteerRates(r, p);
      ghost var rates := Block(r, p.horizon);
      AddSteerAccs(r, p);
      AddsBoth(m, rates, Block(r, p.horizon), p.horizon, RatePart(p), AccPart(p), SteerCost(p));
    } else {
      AddsNothing(m, p.horizon, SteerCost(p));
    }
  }
}
