/** How the lateral controller fills its prediction and cost matrices. */
module MpcMatrices {
  import opened Sums
  import opened Reals
  import opened Matchings
  import opened LinearAlgebra
  import opened MpcPrediction
  import opened MpcCost
  import opened SteerWeights

  datatype WeightSet = WeightSet(latError: real, headingError: real, headingErrorSqVel: real,
                                 steerInput: real, steerInputSqVel: real, latJerk: real)

  datatype MpcParam = MpcParam(normal: WeightSet, lowCurvature: WeightSet, lowCurvatureThresh: real,
                               terminalLatError: real, terminalHeadingError: real, zeroFfSteerDeg: real,
                               steer: SteerParam)

  /** The resampled reference trajectory, as far as the matrices depend on it. */
  datatype Reference = Reference(vx: seq<real>, k: seq<real>, smoothK: seq<real>)

  predicate Covers(t: Reference, n: nat) {
    |t.vx| >= n && |t.k| >= n && |t.smoothK| >= n
  }

  /** The vehicle model: the discretised matrices for a velocity, curvature and period, and the reference input. */
  datatype Vehicle = Vehicle(nx: nat, ny: nat, discretize: (real, real, real) -> Discrete,
      referenceInput: (real, real) -> real)

  ghost predicate Modelled(v: Vehicle) {
    v.ny >= 2 && forall vx, k, dt :: Shaped(CalculateDiscreteMatrix(v, vx, k, dt), v.nx, v.ny)
  }

  function CalculateDiscreteMatrix(v: Vehicle, vx: real, k: real, dt: real): Discrete { v.discretize(vx, k, dt) }

  function CalculateReferenceInput(v: Vehicle, vx: real, k: real): real { v.referenceInput(vx, k) }

  const DEG2RAD := 3.1415926535 / 180.0
  const VELOCITY_NOISE := 0.001

  function WeightsAt(p: MpcParam, k: real): WeightSet {
    if Abs(k) < p.lowCurvatureThresh then p.lowCurvature else p.normal
  }

  // ---- what the entries are ---------------------------------------------------------------------

  /** The curvature the vehicle sees at point i, in its driving direction. */
  function RefK(t: Reference, sign: real, i: int): real { At(t.k, i) * sign }

  function RefSmoothK(t: Reference, sign: real, i: int): real { At(t.smoothK, i) * sign }

  function StepOf(v: Vehicle, p: MpcParam, t: Reference, sign: real, i: int): Discrete {
    CalculateDiscreteMatrix(v, At(t.vx, i), RefK(t, sign, i), p.steer.dt)
  }

  function LatErrorWeight(p: MpcParam, t: Reference, sign: real, i: int): real {
    if i == p.steer.horizon - 1 then p.terminalLatError else WeightsAt(p, RefK(t, sign, i)).latError
  }

  function HeadingErrorWeight(p: MpcParam, t: Reference, sign: real, i: int): real {
    var w := WeightsAt(p, RefK(t, sign, i));
    (if i == p.steer.horizon - 1 then p.terminalHeadingError else w.headingError)
        + At(t.vx, i) * At(t.vx, i) * w.headingErrorSqVel
  }

  function SteerInputWeight(p: MpcParam, t: Reference, sign: real, i: int): real {
    var w := WeightsAt(p, RefK(t, sign, i));
    w.steerInput + At(t.vx, i) * At(t.vx, i) * w.steerInputSqVel
  }

  /** The reference input, with steering below the noise threshold taken as zero. */
  function ReferenceInput(v: Vehicle, p: MpcParam, t: Reference, sign: real, i: int): real {
    var u := CalculateReferenceInput(v, At(t.vx, i), RefSmoothK(t, sign, i));
    if Abs(u) < DEG2RAD * p.zeroFfSteerDeg then 0.0 else u
  }

  /** The driving direction after the first i points: the sign of the last velocity above the noise level. */
  function SignAfter(t: Reference, sign: real, i: nat): real {
    if i == 0 then sign
    else if At(t.vx, i - 1) > VELOCITY_NOISE then 1.0
    else if At(t.vx, i - 1) < -VELOCITY_NOISE then -1.0
    else SignAfter(t, sign, i - 1)
  }

  function JerkWeight(p: MpcParam, t: Reference, sign: real, i: nat): real {
    WeightsAt(p, RefK(t, SignAfter(t, sign, i + 1), i)).latJerk
  }

  /** What the code adds to R2ex for step i. */
  function JerkGain(p: MpcParam, t: Reference, sign: real, i: nat): real
    requires p.steer.dt > 0.0
  {
    JerkBlock(At(t.vx, i), JerkWeight(p, t, sign, i), p.steer.dt)
  }

  /** The weight w on a jerk, in the units of a steering step. */
  function JerkBlock(vx: real, w: real, dt: real): real
    requires dt > 0.0
  {
    vx * vx * w / (dt * dt)
  }

  ghost function JerkOf(p: MpcParam, t: Reference, u: Vec, i: int): real
    requires Configured(p.steer)
  {
    At(t.vx, i) * (Step(u, i) / p.steer.dt)
  }

  ghost function JerkTerm(p: MpcParam, t: Reference, sign: real, u: Vec): int -> real
    requires Configured(p.steer)
  {
    i => if i < 0 then 0.0 else JerkWeight(p, t, sign, i) * Square(JerkOf(p, t, u, i))
  }

  /** The squared lateral jerks vx (u[i + 1] - u[i]) / dt, weighted. */
  ghost function JerkCost(p: MpcParam, t: Reference, sign: real, count: nat): Vec -> real
    requires Configured(p.steer)
  {
    u => Sum(JerkTerm(p, t, sign, u), count)
  }

  ghost function InputTerm(p: MpcParam, t: Reference, sign: real, u: Vec): int -> real {
    i => SteerInputWeight(p, t, sign, i) * Square(At(u, i))
  }

  // ---- the matrices -----------------------------------------------------------------------------

  /** The diagonal output weight: only lateral and heading error are weighed. */
  function OutputWeight(ny: nat, q0: real, q1: real): Matrix {
    seq(ny, r => seq(ny, c => if r == c == 0 then q0 else if r == c == 1 then q1 else 0.0))
  }

  function ZeroMatrix(rows: nat, cols: nat): Matrix {
    seq(rows, r => seq(cols, c => 0.0))
  }

  /** The large matrices, by blocks: one block row a step, one block column a step or input. */
  datatype MpcMatrix = MpcMatrix(aex: seq<Matrix>, bex: seq<seq<Vec>>, wex: seq<Vec>, cex: seq<seq<Matrix>>,
                                 qex: seq<seq<Matrix>>, r1ex: Matrix, r2ex: Matrix, urefex: Vec)

  /** The matrices are those of the problem b. */
  ghost predicate Holds(m: MpcMatrix, b: Problem) {
    && |b.d| == |b.q0| == |b.q1| == b.n
    && |m.aex| == |m.wex| == b.n && Rectangular(m.bex, b.n, b.n) && Rectangular(m.cex, b.n, b.n)
        && Rectangular(m.qex, b.n, b.n)
    && Rectangular(m.r1ex, b.n, b.n) && Rectangular(m.r2ex, b.n, b.n)
    && (forall i :: 0 <= i < b.n ==> m.aex[i] == AexAt(b.nx, b.d, i) && m.wex[i] == WexAt(b.nx, b.d, i))
    && (forall i, j :: 0 <= i < b.n && 0 <= j < b.n ==> m.bex[i][j] == BexAt(b.nx, b.d, i, j))
    && (forall i, j :: 0 <= i < b.n && 0 <= j < b.n ==>
        m.cex[i][j] == if i == j then b.d[i].cd else ZeroMatrix(b.ny, b.nx))
    && (forall i, j :: 0 <= i < b.n && 0 <= j < b.n ==>
        m.qex[i][j] == if i == j then OutputWeight(b.ny, b.q0[i], b.q1[i]) else ZeroMatrix(b.ny, b.ny))
    && m.r1ex == b.r1 && m.r2ex == b.r2 && m.urefex == b.uref
  }

  // ---- one step of the first loop ---------------------------------------------------------------

  /** The first i block rows are filled, the input blocks of the others are still zero. */
  ghost predicate PredictedUpTo(nx: nat, ds: seq<Discrete>, i: nat, aex: array<Matrix>, bex: array2<Vec>,
      wex: array<Vec>)
    reads aex, bex, wex
  {
    && aex.Length == wex.Length == bex.Length0 == bex.Length1 == |ds| && i <= |ds|
    && (forall k :: 0 <= k < i ==> aex[k] == AexAt(nx, ds, k))
    && (forall k :: 0 <= k < i ==> wex[k] == WexAt(nx, ds, k))
    && (forall k, j :: 0 <= k < |ds| && 0 <= j < |ds| ==> bex[k, j] == if k < i then BexAt(nx, ds, k, j) else Zero(nx))
  }

  /** Block row i of Aex, Bex and Wex from block row i - 1. */
  method PredictStep(nx: nat, d: Discrete, i: nat, aex: array<Matrix>, bex: array2<Vec>, wex: array<Vec>,
      ghost ds: seq<Discrete>)
    requires i < |ds| && ds[i] == d && PredictedUpTo(nx, ds, i, aex, bex, wex)
    modifies aex, bex, wex
    ensures PredictedUpTo(nx, ds, i + 1, aex, bex, wex)
  {
    hide Zero, MatVec, MatMul, Plus;
    if i == 0 {
      aex[0] := d.ad;
      bex[0, 0] := d.bd;
      wex[0] := d.wd;
    } else {
      aex[i] := MatMul(nx, nx, nx, d.ad, aex[i - 1]);
      for j := 0 to i
        invariant forall k, c :: 0 <= k < |ds| && 0 <= c < |ds| ==>
          bex[k, c] == if k == i && c < j then BexAt(nx, ds, i, c) else old(bex[k, c])
        modifies bex
      {
        bex[i, j] := MatVec(nx, nx, d.ad, bex[i - 1, j]);
      }
      wex[i] := Plus(nx, MatVec(nx, nx, d.ad, wex[i - 1]), d.wd);
    }
    bex[i, i] := d.bd;
  }

  function Steps(v: Vehicle, p: MpcParam, t: Reference, sign: real): (ds: seq<Discrete>)
    ensures |ds| == p.steer.horizon
  {
    seq(p.steer.horizon, i => StepOf(v, p, t, sign, i))
  }

  /** The first i diagonal blocks are filled, everything else is still zero. */
  ghost predicate WeighedUpTo(v: Vehicle, p: MpcParam, t: Reference, sign: real, i: nat,
                          cex: array2<Matrix>, qex: array2<Matrix>, r1ex: array2<real>, urefex: array<real>)
    reads cex, qex, r1ex, urefex
  {
    var n := p.steer.horizon;
    && cex.Length0 == cex.Length1 == qex.Length0 == qex.Length1 == r1ex.Length0 == r1ex.Length1 == urefex.Length == n
        && i <= n
    && (forall k, j :: 0 <= k < n && 0 <= j < n ==>
          cex[k, j] == if k == j && k < i then StepOf(v, p, t, sign, k).cd else ZeroMatrix(v.ny, v.nx))
    && (forall k, j :: 0 <= k < n && 0 <= j < n ==>
          qex[k, j] == if k == j && k < i then OutputWeight(v.ny, LatErrorWeight(p, t, sign, k),
              HeadingErrorWeight(p, t, sign, k))
                       else ZeroMatrix(v.ny, v.ny))
    && (forall k, j :: 0 <= k < n && 0 <= j < n ==>
        r1ex[k, j] == if k == j && k < i then SteerInputWeight(p, t, sign, k) else 0.0)
    && (forall k :: 0 <= k < i ==> urefex[k] == ReferenceInput(v, p, t, sign, k))
  }

  /** The weights and the reference input of step i. */
  method StepWeights(v: Vehicle, p: MpcParam, t: Reference, sign: real, i: nat)
      returns (q0: real, q1: real, r: real, uref: real)
    requires i < p.steer.horizon && Covers(t, p.steer.horizon)
    ensures q0 == LatErrorWeight(p, t, sign, i) && q1 == HeadingErrorWeight(p, t, sign, i)
    ensures r == SteerInputWeight(p, t, sign, i) && uref == ReferenceInput(v, p, t, sign, i)
  {
    var refVx := t.vx[i];
    var refVxSquared := refVx * refVx;
    var w := WeightsAt(p, RefK(t, sign, i));
    q0, q1 := w.latError, w.headingError;
    if i == p.steer.horizon - 1 {
      q0 := p.terminalLatError;
      q1 := p.terminalHeadingError;
    }
    q1 := q1 + refVxSquared * w.headingErrorSqVel;
    r := w.steerInput + refVxSquared * w.steerInputSqVel;
    uref := CalculateReferenceInput(v, refVx, RefSmoothK(t, sign, i));
    if Abs(uref) < DEG2RAD * p.zeroFfSteerDeg {
      uref := 0.0;  // too small to be more than curvature noise
    }
  }

  /** The i-th diagonal blocks of Cex, Qex and R1ex and the i-th reference input. */
  method WeighStep(v: Vehicle, p: MpcParam, t: Reference, sign: real, i: nat, cd: Matrix,
                   cex: array2<Matrix>, qex: array2<Matrix>, r1ex: array2<real>, urefex: array<real>)
    requires i < p.steer.horizon && Covers(t, p.steer.horizon) && cd == StepOf(v, p, t, sign, i).cd
    requires WeighedUpTo(v, p, t, sign, i, cex, qex, r1ex, urefex) && cex != qex
    modifies cex, qex, r1ex, urefex
    ensures WeighedUpTo(v, p, t, sign, i + 1, cex, qex, r1ex, urefex)
  {
    hide ZeroMatrix, OutputWeight, LatErrorWeight, HeadingErrorWeight, SteerInputWeight, ReferenceInput, StepOf;
    var q0, q1, r, uref := StepWeights(v, p, t, sign, i);
    cex[i, i] := cd;
    qex[i, i] := OutputWeight(v.ny, q0, q1);
    r1ex[i, i] := r;
    urefex[i] := uref;
  }

  // ---- the input weights ------------------------------------------------------------------------

  lemma DiagonalInputs(m: Matrix, p: MpcParam, t: Reference, sign: real)
    requires DiagonalWeights(m, p, t, sign)
    ensures Symmetric(m, p.steer.horizon)
    ensures forall u: Vec :: FormOf(m, u, p.steer.horizon) == Sum(InputTerm(p, t, sign, u), p.steer.horizon)
  {
    forall u: Vec ensures FormOf(m, u, p.steer.horizon) == Sum(InputTerm(p, t, sign, u), p.steer.horizon) {
      DiagonalInput(m, p, t, sign, u);
    }
  }

  lemma DiagonalInput(m: Matrix, p: MpcParam, t: Reference, sign: real, u: Vec)
    requires DiagonalWeights(m, p, t, sign)
    ensures FormOf(m, u, p.steer.horizon) == Sum(InputTerm(p, t, sign, u), p.steer.horizon)
  {
    hide Quadratic, Sum, WeightsAt, RefK;
    var q, x, n := Entries(m), Vector(u), p.steer.horizon;
    forall i, j | 0 <= i < n && 0 <= j < n
      ensures q(i, j) == if i == j then SteerInputWeight(p, t, sign, i) else 0.0 {}
    DiagonalForm(q, x, n);
    forall i | 0 <= i < n ensures q(i, i) * x(i) * x(i) == InputTerm(p, t, sign, u)(i) {
      Weigh(q(i, i), x(i));
      assert q(i, i) == SteerInputWeight(p, t, sign, i);
    }
    SumEq(i => q(i, i) * x(i) * x(i), InputTerm(p, t, sign, u), n);
  }

  lemma Weigh(w: real, x: real)
    ensures w * x * x == w * Square(x)
  {
  }

  lemma ZeroInputs(m: Matrix, n: nat)
    requires forall k, j :: 0 <= k < n && 0 <= j < n ==> Cell(m, k, j) == 0.0
    ensures Symmetric(m, n) && forall u: Vec :: FormOf(m, u, n) == 0.0
  {
    forall u: Vec ensures FormOf(m, u, n) == 0.0 {
      DiagonalForm(Entries(m), Vector(u), n);
      SumZero(i => Entries(m)(i, i) * Vector(u)(i) * Vector(u)(i), n);
    }
  }

  /** v^2 w over dt^2 weighs the squared jerk v step / dt by w. */
  lemma JerkSquare(w: real, v: real, dt: real, step: real)
    requires dt != 0.0
    ensures v * v * w / (dt * dt) * Square(step) == w * Square(v * (step / dt))
  {
    ScaledSquare(v * v * w, dt, step);
    assert (v * v * w) * ((step / dt) * (step / dt)) == w * ((v * (step / dt)) * (v * (step / dt)));
  }

  lemma JerkStep(m: Matrix, m': Matrix, m'': Matrix, p: MpcParam, t: Reference, sign: real, i: nat)
    requires Configured(p.steer) && i + 1 < p.steer.horizon
    requires Adds(m, m', p.steer.horizon, JerkCost(p, t, sign, i))
    requires BlockAdded(m', m'', p.steer.horizon, i, JerkGain(p, t, sign, i), StepBlock())
    ensures Adds(m, m'', p.steer.horizon, JerkCost(p, t, sign, i + 1))
  {
    hide FormOf, BlockAdded, Symmetric, Sum;
    var n := p.steer.horizon;
    var j := JerkGain(p, t, sign, i);
    StepForm(m', m'', n, j, i, []);
    forall u: Vec ensures FormOf(m'', u, n) == FormOf(m, u, n) + JerkCost(p, t, sign, i + 1)(u) {
      StepForm(m', m'', n, j, i, u);
      JerkTermIs(p, t, sign, u, i);
      assert FormOf(m', u, n) == FormOf(m, u, n) + JerkCost(p, t, sign, i)(u);
      LastTerm(JerkTerm(p, t, sign, u), i);
    }
  }

  lemma JerkTermIs(p: MpcParam, t: Reference, sign: real, u: Vec, i: nat)
    requires Configured(p.steer)
    ensures JerkTerm(p, t, sign, u)(i) == JerkGain(p, t, sign, i) * Square(Step(u, i))
  {
    var w, v := JerkWeight(p, t, sign, i), At(t.vx, i);
    JerkSquare(w, v, p.steer.dt, Step(u, i));
    assert JerkTerm(p, t, sign, u)(i) == w * Square(JerkOf(p, t, u, i));
  }

  // ---- the controller ---------------------------------------------------------------------------

  function ProblemOf(v: Vehicle, p: MpcParam, t: Reference, sign: real, r1: Matrix, r2: Matrix): Problem {
    var n := p.steer.horizon;
    Problem(v.nx, v.ny, n, Steps(v, p, t, sign),
            seq(n, i => LatErrorWeight(p, t, sign, i)), seq(n, i => HeadingErrorWeight(p, t, sign, i)),
            r1, r2, seq(n, i => ReferenceInput(v, p, t, sign, i)))
  }

  /** What R1ex weighs: the inputs themselves, their rates and their accelerations. */
  ghost predicate WeighsInputs(r1: Matrix, p: MpcParam, t: Reference, sign: real)
    requires Configured(p.steer)
  {
    forall u: Vec :: FormOf(r1, u, p.steer.horizon) == Sum(InputTerm(p, t, sign, u), p.steer.horizon)
        + SteerCost(p.steer)(u)
  }

  /** What R2ex weighs: the lateral jerks. */
  ghost predicate WeighsJerks(r2: Matrix, p: MpcParam, t: Reference, sign: real)
    requires Configured(p.steer)
  {
    forall u: Vec :: FormOf(r2, u, p.steer.horizon) == JerkCost(p, t, sign, StepCount(p.steer.horizon))(u)
  }

  function StepCount(n: nat): nat { if n == 0 then 0 else n - 1 }

  lemma NothingPredicted(nx: nat, ds: seq<Discrete>, aex: array<Matrix>, bex: array2<Vec>, wex: array<Vec>)
    requires aex.Length == wex.Length == bex.Length0 == bex.Length1 == |ds|
    requires forall k, j :: 0 <= k < |ds| && 0 <= j < |ds| ==> bex[k, j] == Zero(nx)
    ensures PredictedUpTo(nx, ds, 0, aex, bex, wex)
  {
  }

  lemma NothingWeighed(v: Vehicle, p: MpcParam, t: Reference, sign: real,
                       cex: array2<Matrix>, qex: array2<Matrix>, r1ex: array2<real>, urefex: array<real>)
    requires var n := p.steer.horizon;
      && cex.Length0 == cex.Length1 == qex.Length0 == qex.Length1 == r1ex.Length0 == r1ex.Length1 == urefex.Length == n
      && (forall k, j :: 0 <= k < n && 0 <= j < n ==> cex[k, j] == ZeroMatrix(v.ny, v.nx))
      && (forall k, j :: 0 <= k < n && 0 <= j < n ==> qex[k, j] == ZeroMatrix(v.ny, v.ny))
      && (forall k, j :: 0 <= k < n && 0 <= j < n ==> r1ex[k, j] == 0.0)
    ensures WeighedUpTo(v, p, t, sign, 0, cex, qex, r1ex, urefex)
  {
  }

  /** Once every step is weighed, Cex, Qex and the reference inputs are the problem's and R1ex is diagonal. */
  lemma DiagonalFilled(v: Vehicle, p: MpcParam, t: Reference, sign: real,
                       cex: array2<Matrix>, qex: array2<Matrix>, r1ex: array2<real>, urefex: array<real>)
    requires WeighedUpTo(v, p, t, sign, p.steer.horizon, cex, qex, r1ex, urefex)
    ensures cex.Length0 == cex.Length1 == qex.Length0 == qex.Length1 == r1ex.Length0 == r1ex.Length1 == p.steer.horizon
    ensures var n := p.steer.horizon;
      && OutputsHeld(v, p, t, sign, Block(cex, n), Block(qex, n), urefex[..])
      && DiagonalWeights(Block(r1ex, n), p, t, sign)
  {
  }

  ghost predicate DiagonalWeights(m: Matrix, p: MpcParam, t: Reference, sign: real) {
    forall k, j :: 0 <= k < p.steer.horizon && 0 <= j < p.steer.horizon ==>
      Cell(m, k, j) == if k == j then SteerInputWeight(p, t, sign, k) else 0.0
  }

  lemma StepsAt(v: Vehicle, p: MpcParam, t: Reference, sign: real, i: nat)
    requires i < p.steer.horizon
    ensures Steps(v, p, t, sign)[i] == StepOf(v, p, t, sign, i)
  {
  }

  ghost predicate OutputsHeld(v: Vehicle, p: MpcParam, t: Reference, sign: real, cex: seq<seq<Matrix>>,
      qex: seq<seq<Matrix>>, urefex: Vec) {
    var n := p.steer.horizon;
    && Rectangular(cex, n, n) && Rectangular(qex, n, n) && |urefex| == n
    && (forall k, j :: 0 <= k < n && 0 <= j < n ==>
        cex[k][j] == if k == j then StepOf(v, p, t, sign, k).cd else ZeroMatrix(v.ny, v.nx))
    && (forall k, j :: 0 <= k < n && 0 <= j < n ==>
          qex[k][j] == if k == j then OutputWeight(v.ny, LatErrorWeight(p, t, sign, k),
              HeadingErrorWeight(p, t, sign, k))
                       else ZeroMatrix(v.ny, v.ny))
    && (forall k :: 0 <= k < n ==> urefex[k] == ReferenceInput(v, p, t, sign, k))
  }

  ghost predicate StatesHeld(nx: nat, ds: seq<Discrete>, aex: seq<Matrix>, bex: seq<seq<Vec>>, wex: seq<Vec>) {
    && |aex| == |wex| == |ds| && Rectangular(bex, |ds|, |ds|)
    && (forall k :: 0 <= k < |ds| ==> aex[k] == AexAt(nx, ds, k))
    && (forall k :: 0 <= k < |ds| ==> wex[k] == WexAt(nx, ds, k))
    && (forall k, j :: 0 <= k < |ds| && 0 <= j < |ds| ==> bex[k][j] == BexAt(nx, ds, k, j))
  }

  lemma StatesFilled(nx: nat, ds: seq<Discrete>, aex: array<Matrix>, bex: array2<Vec>, wex: array<Vec>)
    requires PredictedUpTo(nx, ds, |ds|, aex, bex, wex)
    ensures bex.Length0 == bex.Length1 == |ds|
    ensures StatesHeld(nx, ds, aex[..], Block(bex, |ds|), wex[..])
  {
  }

  lemma MatricesHold(v: Vehicle, p: MpcParam, t: Reference, sign: real, m: MpcMatrix)
    requires Modelled(v)
    requires StatesHeld(v.nx, Steps(v, p, t, sign), m.aex, m.bex, m.wex)
      && OutputsHeld(v, p, t, sign, m.cex, m.qex, m.urefex)
    requires Rectangular(m.r1ex, p.steer.horizon, p.steer.horizon)
      && Rectangular(m.r2ex, p.steer.horizon, p.steer.horizon)
    requires Symmetric(m.r1ex, p.steer.horizon) && Symmetric(m.r2ex, p.steer.horizon)
    ensures Holds(m, ProblemOf(v, p, t, sign, m.r1ex, m.r2ex)) && WellPosed(ProblemOf(v, p, t, sign, m.r1ex, m.r2ex))
  {
    hide LatErrorWeight, HeadingErrorWeight, ReferenceInput, OutputWeight, ZeroMatrix, AexAt, BexAt, WexAt, Symmetric;
    var b := ProblemOf(v, p, t, sign, m.r1ex, m.r2ex);
    assert forall i :: 0 <= i < b.n ==> b.d[i] == StepOf(v, p, t, sign, i);
    assert m.urefex == b.uref;
  }

  /** The diagonal input weights with the steering weights added. */
  lemma InputsWeighed(p: MpcParam, t: Reference, sign: real, before: Matrix, after: Matrix)
    requires Configured(p.steer) && Adds(before, after, p.steer.horizon, SteerCost(p.steer))
    requires DiagonalWeights(before, p, t, sign)
    ensures Symmetric(after, p.steer.horizon) && WeighsInputs(after, p, t, sign)
  {
    hide FormOf, Symmetric, SteerCost;
    DiagonalInputs(before, p, t, sign);
  }

  class Mpc {
    const vehicle: Vehicle
    const param: MpcParam
    var signVx: real

    ghost predicate Valid() {
      Modelled(vehicle) && Configured(param.steer)
    }

    constructor (vehicle: Vehicle, param: MpcParam)
      requires Modelled(vehicle) && Configured(param.steer)
      ensures Valid() && this.vehicle == vehicle && this.param == param && signVx == 0.0
    {
      this.vehicle := vehicle;
      this.param := param;
      signVx := 0.0;
    }

    /** The lateral jerk weights; the driving direction follows the velocities as the loop meets them. */
    method AddLateralJerk(t: Reference, r2ex: array2<real>)
      requires Valid() && Covers(t, param.steer.horizon) && r2ex.Length0 == r2ex.Length1 == param.steer.horizon
      requires forall i, j :: 0 <= i < r2ex.Length0 && 0 <= j < r2ex.Length0 ==> r2ex[i, j] == 0.0
      modifies this`signVx, r2ex
      ensures signVx == SignAfter(t, old(signVx), StepCount(param.steer.horizon))
      ensures Symmetric(Block(r2ex, r2ex.Length0), r2ex.Length0)
        && WeighsJerks(Block(r2ex, r2ex.Length0), param, t, old(signVx))
    {
      hide FormOf, Adds, Symmetric, BlockAdded, JerkBlock;
      var n := param.steer.horizon;
      ghost var m := Block(r2ex, n);
      ghost var sign := signVx;
      ZeroInputs(m, n);
      AddsNothing(m, n, JerkCost(param, t, sign, 0));
      var i := 0;
      while i + 1 < n
        invariant 0 <= i <= StepCount(n)
        invariant signVx == SignAfter(t, sign, i)
        invariant Adds(m, Block(r2ex, n), n, JerkCost(param, t, sign, i))
      {
        ghost var before := Block(r2ex, n);
        var refVx := t.vx[i];
        signVx := if refVx > VELOCITY_NOISE then 1.0 else if refVx < -VELOCITY_NOISE then -1.0 else signVx;
        var j := JerkBlock(refVx, WeightsAt(param, RefK(t, signVx, i)).latJerk, param.steer.dt);
        AddBlock(r2ex, i, j, StepBlock());
        JerkStep(m, before, Block(r2ex, n), param, t, sign, i);
        i := i + 1;
      }
      FromZero(m, Block(r2ex, n), n, JerkCost(param, t, sign, i));
    }

    /** The prediction loop, over matrices that start at zero. */
    method FillLoop(t: Reference, aex: array<Matrix>, bex: array2<Vec>, wex: array<Vec>,
                    cex: array2<Matrix>, qex: array2<Matrix>, r1ex: array2<real>, urefex: array<real>)
      requires Valid() && Covers(t, param.steer.horizon) && cex != qex
      requires PredictedUpTo(vehicle.nx, Steps(vehicle, param, t, signVx), 0, aex, bex, wex)
      requires WeighedUpTo(vehicle, param, t, signVx, 0, cex, qex, r1ex, urefex)
      modifies aex, bex, wex, cex, qex, r1ex, urefex
      ensures PredictedUpTo(vehicle.nx, Steps(vehicle, param, t, signVx), param.steer.horizon, aex, bex, wex)
      ensures WeighedUpTo(vehicle, param, t, signVx, param.steer.horizon, cex, qex, r1ex, urefex)
    {
      hide PredictedUpTo, WeighedUpTo, Steps;
      var n, nx := param.steer.horizon, vehicle.nx;
      ghost var ds := Steps(vehicle, param, t, signVx);
      for i := 0 to n
        invariant PredictedUpTo(nx, ds, i, aex, bex, wex)
          && WeighedUpTo(vehicle, param, t, signVx, i, cex, qex, r1ex, urefex)
      {
        var d := StepOf(vehicle, param, t, signVx, i);
        StepsAt(vehicle, param, t, signVx, i);
        PredictStep(nx, d, i, aex, bex, wex, ds);
        WeighStep(vehicle, param, t, signVx, i, d.cd, cex, qex, r1ex, urefex);
      }
    }

    /** The prediction matrices; R1ex is still to receive the steering weights. */
    method FillMatrices(t: Reference) returns (m: MpcMatrix, r1ex: array2<real>)
      requires Valid() && Covers(t, param.steer.horizon)
      ensures fresh(r1ex) && r1ex.Length0 == r1ex.Length1 == param.steer.horizon
      ensures StatesHeld(vehicle.nx, Steps(vehicle, param, t, signVx), m.aex, m.bex, m.wex)
      ensures OutputsHeld(vehicle, param, t, signVx, m.cex, m.qex, m.urefex)
      ensures DiagonalWeights(Block(r1ex, param.steer.horizon), param, t, signVx)
    {
      hide PredictedUpTo, WeighedUpTo, StatesHeld, OutputsHeld, DiagonalWeights, Steps, StepOf, Zero, ZeroMatrix,
        Modelled, Configured;
      var n, nx, ny := param.steer.horizon, vehicle.nx, vehicle.ny;
      var aex, bex, wex := new Matrix[n](i => []), new Vec[n, n]((i, j) => Zero(nx)), new Vec[n](i => []);
      var cex := new Matrix[n, n]((i, j) => ZeroMatrix(ny, nx));
      var qex := new Matrix[n, n]((i, j) => ZeroMatrix(ny, ny));
      var urefex := new real[n](i => 0.0);
      r1ex := new real[n, n]((i, j) => 0.0);
      ghost var ds := Steps(vehicle, param, t, signVx);
      NothingPredicted(nx, ds, aex, bex, wex);
      NothingWeighed(vehicle, param, t, signVx, cex, qex, r1ex, urefex);
      FillLoop(t, aex, bex, wex, cex, qex, r1ex, urefex);
      StatesFilled(nx, ds, aex, bex, wex);
      DiagonalFilled(vehicle, param, t, signVx, cex, qex, r1ex, urefex);
      m := MpcMatrix(aex[..], Block(bex, n), wex[..], Block(cex, n), Block(qex, n), [], [], urefex[..]);
    }

    /** Fills all the matrices for one control cycle. */
    method GenerateMPCMatrix(t: Reference) returns (m: MpcMatrix)
      requires Valid() && Covers(t, param.steer.horizon)
      modifies this`signVx
      ensures signVx == SignAfter(t, old(signVx), StepCount(param.steer.horizon))
      ensures Holds(m, ProblemOf(vehicle, param, t, old(signVx), m.r1ex, m.r2ex))
      ensures WellPosed(ProblemOf(vehicle, param, t, old(signVx), m.r1ex, m.r2ex))
      ensures WeighsInputs(m.r1ex, param, t, old(signVx)) && WeighsJerks(m.r2ex, param, t, old(signVx))
    {
      hide DiagonalWeights, Symmetric, WeighsInputs, WeighsJerks, FormOf, SignAfter, Adds,
        Holds, WellPosed, StatesHeld, OutputsHeld, StepOf, SteerCost;
      var n := param.steer.horizon;
      var r1ex;
      ghost var sign := signVx;
      m, r1ex := FillMatrices(t);
      ghost var inputs := Block(r1ex, n);
      var r2ex := new real[n, n]((i, j) => 0.0);
      AddLateralJerk(t, r2ex);
      AddSteerWeightR(r1ex, param.steer);
      m := m.(r1ex := Block(r1ex, n), r2ex := Block(r2ex, n));
      InputsWeighed(param, t, sign, inputs, m.r1ex);
      MatricesHold(vehicle, param, t, sign, m);
    }
  }

  lemma FromZero(m: Matrix, m': Matrix, n: nat, cost: Vec -> real)
    requires Adds(m, m', n, cost) && Symmetric(m, n) && forall u: Vec :: FormOf(m, u, n) == 0.0
    ensures Symmetric(m', n) && forall u: Vec :: FormOf(m', u, n) == cost(u)
  {
  }
}
