/**
 * The generated matrices, entry by entry and in plain terms: which field of which weight set is read where, and what
 * the quadratic forms weigh.
 */
module MpcEntries {
  import opened Sums
  import opened Reals
  import opened Matchings
  import opened LinearAlgebra
  import opened MpcPrediction
  import opened MpcCost
  import opened SteerWeights
  import opened MpcMatrices
  import opened MpcProgram

  // ---- one step ---------------------------------------------------------------------------------

  lemma Sizes(v: Vehicle, p: MpcParam, t: Reference, sign: real, m: MpcMatrix)
    requires Holds(m, ProblemOf(v, p, t, sign, m.r1ex, m.r2ex))
    ensures var n := p.steer.horizon;
      && Rectangular(m.qex, n, n) && Rectangular(m.cex, n, n) && |m.urefex| == n
      && forall i, j :: 0 <= i < n && 0 <= j < n ==> Rectangular(m.qex[i][j], v.ny, v.ny)
  {
    hide LatErrorWeight, HeadingErrorWeight, Steps, ReferenceInput;
  }

  lemma WeightsExact(p: MpcParam, k: real)
    ensures WeightsAt(p, k) ==
            if -p.lowCurvatureThresh < k < p.lowCurvatureThresh then p.lowCurvature else p.normal
  {
  }

  /**
   * The output weights of step i. The low-curvature set is read while the curvature, in the driving direction the
   * loop starts with, is strictly below the threshold; the last step has the terminal weights.
   */
  lemma OutputWeights(v: Vehicle, p: MpcParam, t: Reference, sign: real, m: MpcMatrix, i: nat)
    requires v.ny >= 2 && Covers(t, p.steer.horizon) && i < p.steer.horizon
    requires Holds(m, ProblemOf(v, p, t, sign, m.r1ex, m.r2ex))
    ensures Rectangular(m.qex, p.steer.horizon, p.steer.horizon) && Rectangular(m.qex[i][i], v.ny, v.ny)
    ensures m.qex[i][i][0][0] ==
            if i == p.steer.horizon - 1 then p.terminalLatError
            else if -p.lowCurvatureThresh < t.k[i] * sign < p.lowCurvatureThresh then p.lowCurvature.latError
            else p.normal.latError
    ensures m.qex[i][i][1][1] ==
            var low := -p.lowCurvatureThresh < t.k[i] * sign < p.lowCurvatureThresh;
            (if i == p.steer.horizon - 1 then p.terminalHeadingError
             else if low then p.lowCurvature.headingError else p.normal.headingError)
            + t.vx[i] * t.vx[i] * (if low then p.lowCurvature.headingErrorSqVel else p.normal.headingErrorSqVel)
    ensures forall r, c :: 0 <= r < v.ny && 0 <= c < v.ny && (r != c || r >= 2) ==> m.qex[i][i][r][c] == 0.0
  {
    hide Steps, ReferenceInput, WeightsAt, LatErrorWeight, HeadingErrorWeight;
    Sizes(v, p, t, sign, m);
    OutputWeightsAre(p, t, sign, i);
    var b := ProblemOf(v, p, t, sign, m.r1ex, m.r2ex);
    assert m.qex[i][i] == OutputWeight(v.ny, b.q0[i], b.q1[i]);
  }

  lemma OutputWeightsAre(p: MpcParam, t: Reference, sign: real, i: nat)
    requires Covers(t, p.steer.horizon) && i < p.steer.horizon
    ensures LatErrorWeight(p, t, sign, i) ==
            if i == p.steer.horizon - 1 then p.terminalLatError
            else if -p.lowCurvatureThresh < t.k[i] * sign < p.lowCurvatureThresh then p.lowCurvature.latError
            else p.normal.latError
    ensures HeadingErrorWeight(p, t, sign, i) ==
            var low := -p.lowCurvatureThresh < t.k[i] * sign < p.lowCurvatureThresh;
            (if i == p.steer.horizon - 1 then p.terminalHeadingError
             else if low then p.lowCurvature.headingError else p.normal.headingError)
            + t.vx[i] * t.vx[i] * (if low then p.lowCurvature.headingErrorSqVel else p.normal.headingErrorSqVel)
  {
    hide WeightsAt;
    WeightsExact(p, RefK(t, sign, i));
  }

  /** The blocks of two different steps do not meet. */
  lemma OffDiagonalBlocks(v: Vehicle, p: MpcParam, t: Reference, sign: real, m: MpcMatrix, i: nat, j: nat)
    requires i < p.steer.horizon && j < p.steer.horizon && i != j
    requires Holds(m, ProblemOf(v, p, t, sign, m.r1ex, m.r2ex))
    ensures Rectangular(m.qex, p.steer.horizon, p.steer.horizon) && Rectangular(m.cex, p.steer.horizon, p.steer.horizon)
    ensures forall r, c :: Cell(m.qex[i][j], r, c) == 0.0 && Cell(m.cex[i][j], r, c) == 0.0
  {
    hide Steps, ReferenceInput, LatErrorWeight, HeadingErrorWeight;
    Sizes(v, p, t, sign, m);
  }

  /** The vehicle model and the reference input of step i; a reference input below the threshold angle is dropped. */
  lemma ModelOfStep(v: Vehicle, p: MpcParam, t: Reference, sign: real, m: MpcMatrix, i: nat)
    requires i < p.steer.horizon
    requires Holds(m, ProblemOf(v, p, t, sign, m.r1ex, m.r2ex))
    ensures Rectangular(m.cex, p.steer.horizon, p.steer.horizon) && |m.urefex| == p.steer.horizon
    ensures var d := v.discretize(At(t.vx, i), At(t.k, i) * sign, p.steer.dt);
      ProblemOf(v, p, t, sign, m.r1ex, m.r2ex).d[i] == d && m.cex[i][i] == d.cd
    ensures m.urefex[i] ==
            var u := v.referenceInput(At(t.vx, i), At(t.smoothK, i) * sign);
            var least := 3.1415926535 / 180.0 * p.zeroFfSteerDeg;
            if -least < u < least then 0.0 else u
  {
    hide LatErrorWeight, HeadingErrorWeight;
    Sizes(v, p, t, sign, m);
    StepsAt(v, p, t, sign, i);
    var b := ProblemOf(v, p, t, sign, m.r1ex, m.r2ex);
    var vx, k, smoothK := At(t.vx, i), RefK(t, sign, i), RefSmoothK(t, sign, i);
    assert b.d[i] == StepOf(v, p, t, sign, i);
    assert StepOf(v, p, t, sign, i) == v.discretize(vx, k, p.steer.dt);
    assert k == At(t.k, i) * sign;
    assert smoothK == At(t.smoothK, i) * sign;
    assert m.cex[i][i] == b.d[i].cd;
    assert m.urefex[i] == b.uref[i];
  }

  // ---- what the input matrices weigh ------------------------------------------------------------

  /** The squared inputs by the weight set of their step, and the steering cost. */
  lemma InputsInFull(r1: Matrix, p: MpcParam, t: Reference, sign: real, u: Vec, input: int -> real)
    requires Configured(p.steer) && WeighsInputs(r1, p, t, sign)
    requires forall i :: 0 <= i < p.steer.horizon ==>
      input(i) == (if -p.lowCurvatureThresh < At(t.k, i) * sign < p.lowCurvatureThresh
                   then p.lowCurvature.steerInput + At(t.vx, i) * At(t.vx, i) * p.lowCurvature.steerInputSqVel
                   else p.normal.steerInput + At(t.vx, i) * At(t.vx, i) * p.normal.steerInputSqVel)
                  * Square(At(u, i))
    ensures FormOf(r1, u, p.steer.horizon) == Sum(input, p.steer.horizon) + SteerCost(p.steer)(u)
  {
    hide FormOf, Sum, SteerCost, At, Square, InputTerm;
    var n := p.steer.horizon;
    forall i | 0 <= i < n ensures InputTerm(p, t, sign, u)(i) == input(i) { InputIs(p, t, sign, u, i); }
    SumEq(InputTerm(p, t, sign, u), input, n);
  }

  lemma InputIs(p: MpcParam, t: Reference, sign: real, u: Vec, i: nat)
    ensures InputTerm(p, t, sign, u)(i) ==
            (if -p.lowCurvatureThresh < At(t.k, i) * sign < p.lowCurvatureThresh
             then p.lowCurvature.steerInput + At(t.vx, i) * At(t.vx, i) * p.lowCurvature.steerInputSqVel
             else p.normal.steerInput + At(t.vx, i) * At(t.vx, i) * p.normal.steerInputSqVel)
            * Square(At(u, i))
  {
    hide Square, At;
  }

  ghost function Squares(w: real, f: int -> real): int -> real { i => w * Square(f(i)) }

  /**
   * The steering cost: the squared rates and accelerations of the inputs, those at the start from two previous
   * commands of 0 a control period apart.
   */
  lemma SteerCostInFull(p: SteerParam, u: Vec, rate: int -> real, acc: int -> real, firstRate: real, firstAcc: real,
                        secondAcc: real)
    requires Configured(p)
    requires forall i :: 0 <= i < p.horizon - 1 ==> rate(i) * p.dt == At(u, i + 1) - At(u, i)
    requires forall i :: 0 <= i < p.horizon - 2 ==>
      acc(i) * (p.dt * p.dt) == At(u, i) - 2.0 * At(u, i + 1) + At(u, i + 2)
    requires firstRate * p.ctrlPeriod == At(u, 0) && firstAcc * (p.ctrlPeriod * p.ctrlPeriod) == At(u, 0)
    requires secondAcc * p.dt == rate(0) - firstRate
    ensures SteerCost(p)(u) ==
      if p.horizon <= 1 then 0.0 else
        Sum(Squares(p.weightSteerRate, rate), p.horizon - 1) + p.weightSteerRate * Square(firstRate)
        + Sum(Squares(p.weightSteerAcc, acc), p.horizon - 2)
        + p.weightSteerAcc * Square(secondAcc) + p.weightSteerAcc * Square(firstAcc)
  {
    hide Sum, At, Square, RateOf, AccOf;
    var n := p.horizon;
    if n > 1 {
      forall i | 0 <= i < n - 1 ensures RateOf(p, u, i) == rate(i) { RateIs(p, u, i, rate(i)); }
      forall i | 0 <= i < n - 2 ensures AccOf(p, u, i) == acc(i) { AccIs(p, u, i, acc(i)); }
      SumEq(RateTerm(p, u), Squares(p.weightSteerRate, rate), n - 1);
      SumEq(AccTerm(p, u), Squares(p.weightSteerAcc, acc), n - 2);
      FirstRateIs(p, u, firstRate);
      SecondAccOf(p, u, rate(0), firstRate, secondAcc);
      FirstAccIs(p, u, firstAcc);
    }
  }

  lemma RateIs(p: SteerParam, u: Vec, i: int, rate: real)
    requires Configured(p) && rate * p.dt == At(u, i + 1) - At(u, i)
    ensures RateOf(p, u, i) == rate
  {
    hide At;
    Quotient(Step(u, i), p.dt, rate);
  }

  lemma AccIs(p: SteerParam, u: Vec, i: int, acc: real)
    requires Configured(p) && acc * (p.dt * p.dt) == At(u, i) - 2.0 * At(u, i + 1) + At(u, i + 2)
    ensures AccOf(p, u, i) == acc
  {
    hide At;
    PowFour(p.dt);
    Quotient(Bend(u, i), p.dt * p.dt, acc);
  }

  lemma FirstRateIs(p: SteerParam, u: Vec, x: real)
    requires Configured(p) && x * p.ctrlPeriod == At(u, 0)
    ensures FirstRateCost(p)(u) == p.weightSteerRate * Square(x)
  {
    hide At, Square;
    Quotient(At(u, 0), p.ctrlPeriod, x);
  }

  lemma SecondAccOf(p: SteerParam, u: Vec, rate: real, firstRate: real, x: real)
    requires Configured(p) && rate * p.dt == At(u, 1) - At(u, 0) && firstRate * p.ctrlPeriod == At(u, 0)
    requires x * p.dt == rate - firstRate
    ensures SecondAccCost(p)(u) == p.weightSteerAcc * Square(x)
  {
    hide At, Square;
    Quotient(Step(u, 0), p.dt, rate);
    Quotient(At(u, 0), p.ctrlPeriod, firstRate);
    Quotient(rate - firstRate, p.dt, x);
  }

  lemma FirstAccIs(p: SteerParam, u: Vec, x: real)
    requires Configured(p) && x * (p.ctrlPeriod * p.ctrlPeriod) == At(u, 0)
    ensures FirstAccCost(p)(u) == p.weightSteerAcc * Square(x)
  {
    hide At;
    var c, y := p.ctrlPeriod * p.ctrlPeriod, At(u, 0) / (p.ctrlPeriod * p.ctrlPeriod);
    PowFour(p.ctrlPeriod);
    Quotient(At(u, 0), c, x);
    assert FirstAccCost(p)(u) == p.weightSteerAcc * Square(y);
  }

  /** The squared lateral jerks by the weight set of their step, under the driving direction the loop sees there. */
  lemma JerksInFull(r2: Matrix, p: MpcParam, t: Reference, sign: real, u: Vec, jerk: int -> real)
    requires Configured(p.steer) && WeighsJerks(r2, p, t, sign)
    requires forall i: nat :: i < p.steer.horizon - 1 ==>
      var k := At(t.k, i) * SignAfter(t, sign, i + 1);
      jerk(i) ==
      (if -p.lowCurvatureThresh < k < p.lowCurvatureThresh then p.lowCurvature.latJerk else p.normal.latJerk)
      * Square(At(t.vx, i) * ((At(u, i + 1) - At(u, i)) / p.steer.dt))
    ensures FormOf(r2, u, p.steer.horizon) == Sum(jerk, if p.steer.horizon == 0 then 0 else p.steer.horizon - 1)
  {
    hide FormOf, Square, SignAfter, Sum, At;
    var n := StepCount(p.steer.horizon);
    forall i | 0 <= i < n ensures JerkTerm(p, t, sign, u)(i) == jerk(i) { JerkIs(p, t, sign, u, i); }
    SumEq(JerkTerm(p, t, sign, u), jerk, n);
  }

  lemma JerkIs(p: MpcParam, t: Reference, sign: real, u: Vec, i: nat)
    requires Configured(p.steer)
    ensures var k := At(t.k, i) * SignAfter(t, sign, i + 1);
      JerkTerm(p, t, sign, u)(i) ==
      (if -p.lowCurvatureThresh < k < p.lowCurvatureThresh then p.lowCurvature.latJerk else p.normal.latJerk)
      * Square(At(t.vx, i) * ((At(u, i + 1) - At(u, i)) / p.steer.dt))
  {
    hide Square, SignAfter, At;
    var k := At(t.k, i) * SignAfter(t, sign, i + 1);
    assert JerkWeight(p, t, sign, i) ==
           if -p.lowCurvatureThresh < k < p.lowCurvatureThresh then p.lowCurvature.latJerk else p.normal.latJerk;
    assert Step(u, i) == At(u, i + 1) - At(u, i);
    assert JerkOf(p, t, u, i) == At(t.vx, i) * ((At(u, i + 1) - At(u, i)) / p.steer.dt);
  }

  /** The driving direction is that of the last velocity of more than a millimetre a second, or as it was before. */
  lemma {:induction false} SignAfterExact(t: Reference, sign: real, i: nat)
    requires i <= |t.vx|
    ensures (forall j :: 0 <= j < i ==> -0.001 <= t.vx[j] <= 0.001) ==> SignAfter(t, sign, i) == sign
    ensures forall j :: 0 <= j < i && !(-0.001 <= t.vx[j] <= 0.001)
                        && (forall l :: j < l < i ==> -0.001 <= t.vx[l] <= 0.001) ==>
      SignAfter(t, sign, i) == if t.vx[j] > 0.0 then 1.0 else -1.0
  {
    if i > 0 { SignAfterExact(t, sign, i - 1); }
  }

  // ---- the prediction and the cost --------------------------------------------------------------

  /** One step of the vehicle model, component by component. */
  lemma StateStep(nx: nat, d: seq<Discrete>, x0: Vec, u: Vec, i: nat, r: nat)
    requires i < |d| && r < nx
    ensures StateAfter(nx, d, x0, u, 0) == x0 && |StateAfter(nx, d, x0, u, i + 1)| == nx
    ensures StateAfter(nx, d, x0, u, i + 1)[r] ==
            Sum(c => Cell(d[i].ad, r, c) * At(StateAfter(nx, d, x0, u, i), c), nx) + At(u, i) * At(d[i].bd, r)
            + At(d[i].wd, r)
  {
    hide Sum, At, Cell;
    var x := StateAfter(nx, d, x0, u, i);
    StepComponent(nx, d[i], x, At(u, i), r);
  }

  lemma StepComponent(nx: nat, d: Discrete, x: Vec, u: real, r: nat)
    requires r < nx
    ensures |Next(nx, d, x, u)| == nx
    ensures Next(nx, d, x, u)[r] == Sum(c => Cell(d.ad, r, c) * At(x, c), nx) + u * At(d.bd, r) + At(d.wd, r)
  {
    hide Sum, Cell;
  }

  lemma OutputOf(b: Problem, x0: Vec, u: Vec, i: nat, p: nat)
    requires i < b.n && WellPosed(b) && p < b.ny
    ensures Output(b, x0, u, i, p) ==
            Sum(c => Cell(b.d[i].cd, p, c) * At(StateAfter(b.nx, b.d, x0, u, i + 1), c), b.nx)
  {
    hide StateAfter, Sum, Symmetric;
  }

  /** The cost of an input sequence with every output weight in place. */
  lemma CostInFull(v: Vehicle, p: MpcParam, t: Reference, sign: real, r1: Matrix, r2: Matrix, x0: Vec, u: Vec,
                   lat: int -> real, heading: int -> real)
    requires var n, thr, b := p.steer.horizon, p.lowCurvatureThresh, ProblemOf(v, p, t, sign, r1, r2);
      forall i :: 0 <= i < n ==>
        var low, vx := -thr < At(t.k, i) * sign < thr, At(t.vx, i);
        && lat(i) == (if i == n - 1 then p.terminalLatError
                      else if low then p.lowCurvature.latError else p.normal.latError) * Square(Output(b, x0, u, i, 0))
        && heading(i) == ((if i == n - 1 then p.terminalHeadingError
                           else if low then p.lowCurvature.headingError else p.normal.headingError)
                          + vx * vx * (if low then p.lowCurvature.headingErrorSqVel else p.normal.headingErrorSqVel))
                         * Square(Output(b, x0, u, i, 1))
    ensures var b := ProblemOf(v, p, t, sign, r1, r2);
      CostOf(b, x0, u) == Sum(lat, b.n) + Sum(heading, b.n) + FormOf(r1, Deviation(u, b.uref, b.n), b.n)
                          + FormOf(r2, u, b.n)
  {
    hide Square, Output, Quadratic, Steps, ReferenceInput, Sum;
    var b := ProblemOf(v, p, t, sign, r1, r2);
    forall i | 0 <= i < b.n ensures OutputTerm(b, x0, u, 0)(i) == lat(i) && OutputTerm(b, x0, u, 1)(i) == heading(i) {
      OutputIs(v, p, t, sign, r1, r2, x0, u, i);
    }
    SumEq(OutputTerm(b, x0, u, 0), lat, b.n);
    SumEq(OutputTerm(b, x0, u, 1), heading, b.n);
    QuadraticAt(Entries(r1), Minus(u, b.uref), Vector(Deviation(u, b.uref, b.n)), b.n);
  }

  lemma OutputIs(v: Vehicle, p: MpcParam, t: Reference, sign: real, r1: Matrix, r2: Matrix, x0: Vec, u: Vec, i: nat)
    requires i < p.steer.horizon
    ensures var n, thr, b := p.steer.horizon, p.lowCurvatureThresh, ProblemOf(v, p, t, sign, r1, r2);
      var low, vx := -thr < At(t.k, i) * sign < thr, At(t.vx, i);
      && OutputTerm(b, x0, u, 0)(i) ==
         (if i == n - 1 then p.terminalLatError
          else if low then p.lowCurvature.latError else p.normal.latError) * Square(Output(b, x0, u, i, 0))
      && OutputTerm(b, x0, u, 1)(i) ==
         ((if i == n - 1 then p.terminalHeadingError
           else if low then p.lowCurvature.headingError else p.normal.headingError)
          + vx * vx * (if low then p.lowCurvature.headingErrorSqVel else p.normal.headingErrorSqVel))
         * Square(Output(b, x0, u, i, 1))
  {
    hide Square, Output, Steps, ReferenceInput;
    var b := ProblemOf(v, p, t, sign, r1, r2);
    assert b.q0[i] == LatErrorWeight(p, t, sign, i) && b.q1[i] == HeadingErrorWeight(p, t, sign, i);
  }

  // ---- the weight set that is not read does not matter ------------------------------------------

  /** Two symmetric matrices that weigh every vector alike are equal. */
  lemma FormDetermines(a: Matrix, b: Matrix, n: nat)
    requires Rectangular(a, n, n) && Rectangular(b, n, n) && Symmetric(a, n) && Symmetric(b, n)
    requires forall u: Vec :: FormOf(a, u, n) == FormOf(b, u, n)
    ensures a == b
  {
    hide FormOf;
    forall i, j | 0 <= i < n && 0 <= j < n ensures Cell(a, i, j) == Cell(b, i, j) {
      FormOfPair(a, n, i, i);
      FormOfPair(a, n, j, j);
      FormOfPair(a, n, i, j);
      FormOfPair(b, n, i, i);
      FormOfPair(b, n, j, j);
      FormOfPair(b, n, i, j);
    }
    forall i | 0 <= i < n ensures a[i] == b[i] {
      forall j | 0 <= j < n ensures a[i][j] == b[i][j] { assert Cell(a, i, j) == Cell(b, i, j); }
    }
  }

  /** Ones at i and j, zeros elsewhere. */
  function Pair(n: nat, i: int, j: int): (u: Vec)
    ensures |u| == n
  {
    seq(n, k => if k == i || k == j then 1.0 else 0.0)
  }

  lemma FormOfPair(m: Matrix, n: nat, i: nat, j: nat)
    requires i < n && j < n
    ensures FormOf(m, Pair(n, i, j), n) ==
            if i == j then Cell(m, i, i) else Cell(m, i, i) + Cell(m, i, j) + (Cell(m, j, i) + Cell(m, j, j))
  {
    hide Sum, Cell;
    var u := Pair(n, i, j);
    var q, x := Entries(m), Vector(u);
    forall r | 0 <= r < n
      ensures FormRow(q, x, r, n) == if r != i && r != j then 0.0
                                     else if i == j then Cell(m, r, i) else Cell(m, r, i) + Cell(m, r, j)
    {
      var f := (c: int) => Term(q, x, r, c);
      forall c | 0 <= c < n ensures f(c) == if x(r) == 1.0 && x(c) == 1.0 then Cell(m, r, c) else 0.0 {
        assert (x(r) == 0.0 || x(r) == 1.0) && (x(c) == 0.0 || x(c) == 1.0);
      }
      SumPair(f, n, i, j);
      SumEq(f, c => Term(q, x, r, c), n);
    }
    var g := (r: int) => FormRow(q, x, r, n);
    SumPair(g, n, i, j);
    SumEq(g, r => FormRow(q, x, r, n), n);
  }

  /** Only the terms i and j are non-zero. */
  lemma {:induction false} SumPair(f: int -> real, n: nat, i: nat, j: nat)
    requires i < n && j < n && forall k :: 0 <= k < n && k != i && k != j ==> f(k) == 0.0
    ensures Sum(f, n) == if i == j then f(i) else f(i) + f(j)
  {
    var last := if i < j then j else i;
    var first := if i < j then i else j;
    SumTruncate(f, n, last + 1);
    SumSingle(f, last, first);
  }

  /** Everything the code generates from the parameters p. */
  ghost predicate Generated(m: MpcMatrix, v: Vehicle, p: MpcParam, t: Reference, sign: real)
    requires Configured(p.steer)
  {
    var b := ProblemOf(v, p, t, sign, m.r1ex, m.r2ex);
    Holds(m, b) && WellPosed(b) && WeighsInputs(m.r1ex, p, t, sign) && WeighsJerks(m.r2ex, p, t, sign)
  }

  /** The weights of every step are alike. */
  ghost predicate SameWeights(p: MpcParam, p': MpcParam, t: Reference, sign: real) {
    && p.steer == p'.steer && p.zeroFfSteerDeg == p'.zeroFfSteerDeg
    && forall i: nat :: i < p.steer.horizon ==>
       && LatErrorWeight(p, t, sign, i) == LatErrorWeight(p', t, sign, i)
       && HeadingErrorWeight(p, t, sign, i) == HeadingErrorWeight(p', t, sign, i)
       && SteerInputWeight(p, t, sign, i) == SteerInputWeight(p', t, sign, i)
       && JerkWeight(p, t, sign, i) == JerkWeight(p', t, sign, i)
  }

  lemma SameMatrices(m: MpcMatrix, m': MpcMatrix, v: Vehicle, p: MpcParam, p': MpcParam, t: Reference, sign: real)
    requires Configured(p.steer) && SameWeights(p, p', t, sign)
    requires Generated(m, v, p, t, sign) && Generated(m', v, p', t, sign)
    ensures m == m'
  {
    hide Holds, WellPosed, FormOf, LatErrorWeight, HeadingErrorWeight, SteerInputWeight, JerkWeight, SteerCost, Sum,
      Symmetric;
    var n := p.steer.horizon;
    SameForms(m, m', v, p, p', t, sign);
    SameProblem(v, p, p', t, sign, m.r1ex, m.r2ex);
    HoldsUnique(m, m', ProblemOf(v, p, t, sign, m.r1ex, m.r2ex));
  }

  lemma SameProblem(v: Vehicle, p: MpcParam, p': MpcParam, t: Reference, sign: real, r1: Matrix, r2: Matrix)
    requires SameWeights(p, p', t, sign)
    ensures ProblemOf(v, p, t, sign, r1, r2) == ProblemOf(v, p', t, sign, r1, r2)
  {
    hide LatErrorWeight, HeadingErrorWeight, SteerInputWeight, JerkWeight;
    var b, b' := ProblemOf(v, p, t, sign, r1, r2), ProblemOf(v, p', t, sign, r1, r2);
    forall i | 0 <= i < b.n ensures b.q0[i] == b'.q0[i] && b.q1[i] == b'.q1[i] && b.uref[i] == b'.uref[i] {}
    assert b.d == b'.d && b.q0 == b'.q0 && b.q1 == b'.q1 && b.uref == b'.uref;
  }

  lemma HoldsUnique(m: MpcMatrix, m': MpcMatrix, b: Problem)
    requires Holds(m, b) && Holds(m', b)
    ensures m == m'
  {
    hide OutputWeight, ZeroMatrix, AexAt, BexAt, WexAt;
    assert m.aex == m'.aex && m.wex == m'.wex;
    forall i | 0 <= i < b.n ensures m.bex[i] == m'.bex[i] && m.cex[i] == m'.cex[i] && m.qex[i] == m'.qex[i] {}
    assert m.bex == m'.bex && m.cex == m'.cex && m.qex == m'.qex;
  }

  lemma SameJerk(p: MpcParam, p': MpcParam, t: Reference, sign: real, u: Vec, i: nat)
    requires Configured(p.steer) && p.steer == p'.steer && JerkWeight(p, t, sign, i) == JerkWeight(p', t, sign, i)
    ensures JerkTerm(p, t, sign, u)(i) == JerkTerm(p', t, sign, u)(i)
  {
    hide JerkWeight;
    assert JerkOf(p, t, u, i) == JerkOf(p', t, u, i);
  }

  lemma SameForms(m: MpcMatrix, m': MpcMatrix, v: Vehicle, p: MpcParam, p': MpcParam, t: Reference, sign: real)
    requires Configured(p.steer) && SameWeights(p, p', t, sign)
    requires Generated(m, v, p, t, sign) && Generated(m', v, p', t, sign)
    ensures m.r1ex == m'.r1ex && m.r2ex == m'.r2ex
  {
    hide FormOf, LatErrorWeight, HeadingErrorWeight, SteerInputWeight, JerkWeight, SteerCost, Sum, Steps, Square,
      JerkOf, Symmetric;
    var n := p.steer.horizon;
    forall u: Vec ensures FormOf(m.r1ex, u, n) == FormOf(m'.r1ex, u, n) {
      SumEq(InputTerm(p, t, sign, u), InputTerm(p', t, sign, u), n);
    }
    forall u: Vec ensures FormOf(m.r2ex, u, n) == FormOf(m'.r2ex, u, n) {
      forall i | 0 <= i < StepCount(n) ensures JerkTerm(p, t, sign, u)(i) == JerkTerm(p', t, sign, u)(i) {
        SameJerk(p, p', t, sign, u, i);
      }
      SumEq(JerkTerm(p, t, sign, u), JerkTerm(p', t, sign, u), StepCount(n));
    }
    FormDetermines(m.r1ex, m'.r1ex, n);
    FormDetermines(m.r2ex, m'.r2ex, n);
  }

  /** No weight set is read at step i but one the two parameter sets share. */
  ghost predicate ReadsAlike(p: MpcParam, p': MpcParam, t: Reference, sign: real, i: int) {
    && WeightsAt(p, RefK(t, sign, i)) == WeightsAt(p', RefK(t, sign, i))
    && WeightsAt(p, At(t.k, i)) == WeightsAt(p', At(t.k, i))
    && WeightsAt(p, -At(t.k, i)) == WeightsAt(p', -At(t.k, i))
  }

  lemma SameReads(p: MpcParam, p': MpcParam, t: Reference, sign: real)
    requires p.steer == p'.steer && p.zeroFfSteerDeg == p'.zeroFfSteerDeg && p.terminalLatError == p'.terminalLatError
    requires p.terminalHeadingError == p'.terminalHeadingError
    requires forall i: nat :: i < p.steer.horizon ==> ReadsAlike(p, p', t, sign, i)
    ensures SameWeights(p, p', t, sign)
  {
    hide WeightsAt, SignAfter;
    forall i: nat | i < p.steer.horizon ensures
      && LatErrorWeight(p, t, sign, i) == LatErrorWeight(p', t, sign, i)
      && HeadingErrorWeight(p, t, sign, i) == HeadingErrorWeight(p', t, sign, i)
      && SteerInputWeight(p, t, sign, i) == SteerInputWeight(p', t, sign, i)
      && JerkWeight(p, t, sign, i) == JerkWeight(p', t, sign, i)
    {
      assert ReadsAlike(p, p', t, sign, i);
      SignIsOneOf(t, sign, i + 1);
      assert At(t.k, i) * 1.0 == At(t.k, i) && At(t.k, i) * -1.0 == -At(t.k, i);
    }
  }

  lemma AlikeBelow(p: MpcParam, w: WeightSet, t: Reference, sign: real, i: int, k: real)
    requires k == At(t.k, i) * sign && -p.lowCurvatureThresh < k < p.lowCurvatureThresh
    requires -p.lowCurvatureThresh < At(t.k, i) < p.lowCurvatureThresh
    ensures ReadsAlike(p, p.(normal := w), t, sign, i)
  {
    hide At;
    assert RefK(t, sign, i) == k;
  }

  lemma AlikeAbove(p: MpcParam, w: WeightSet, t: Reference, sign: real, i: int, k: real)
    requires k == At(t.k, i) * sign && !(-p.lowCurvatureThresh < k < p.lowCurvatureThresh)
    requires !(-p.lowCurvatureThresh < At(t.k, i) < p.lowCurvatureThresh)
    ensures ReadsAlike(p, p.(lowCurvature := w), t, sign, i)
  {
    hide At;
    assert RefK(t, sign, i) == k;
  }

  /**
   * On a reference whose curvature stays below the threshold the normal weights are never read: the matrices of two
   * parameter sets that differ only there are equal.
   */
  lemma NormalUnread(m: MpcMatrix, m': MpcMatrix, v: Vehicle, p: MpcParam, w: WeightSet, t: Reference, sign: real)
    requires Configured(p.steer) && Generated(m, v, p, t, sign) && Generated(m', v, p.(normal := w), t, sign)
    requires forall i :: 0 <= i < p.steer.horizon ==>
      && -p.lowCurvatureThresh < At(t.k, i) * sign < p.lowCurvatureThresh
      && -p.lowCurvatureThresh < At(t.k, i) < p.lowCurvatureThresh
    ensures m == m'
  {
    hide Generated, ReadsAlike, SameWeights;
    var p' := p.(normal := w);
    forall i: nat | i < p.steer.horizon ensures ReadsAlike(p, p', t, sign, i) {
      AlikeBelow(p, w, t, sign, i, At(t.k, i) * sign);
    }
    SameReads(p, p', t, sign);
    SameMatrices(m, m', v, p, p', t, sign);
  }

  /** On a reference whose curvature never is below the threshold the low-curvature weights are never read. */
  lemma LowCurvatureUnread(m: MpcMatrix, m': MpcMatrix, v: Vehicle, p: MpcParam, w: WeightSet, t: Reference,
      sign: real)
    requires Configured(p.steer) && Generated(m, v, p, t, sign) && Generated(m', v, p.(lowCurvature := w), t, sign)
    requires forall i :: 0 <= i < p.steer.horizon ==>
      && !(-p.lowCurvatureThresh < At(t.k, i) * sign < p.lowCurvatureThresh)
      && !(-p.lowCurvatureThresh < At(t.k, i) < p.lowCurvatureThresh)
    ensures m == m'
  {
    hide Generated, ReadsAlike, SameWeights;
    var p' := p.(lowCurvature := w);
    forall i: nat | i < p.steer.horizon ensures ReadsAlike(p, p', t, sign, i) {
      AlikeAbove(p, w, t, sign, i, At(t.k, i) * sign);
    }
    SameReads(p, p', t, sign);
    SameMatrices(m, m', v, p, p', t, sign);
  }

  lemma {:induction false} SignIsOneOf(t: Reference, sign: real, i: nat)
    ensures SignAfter(t, sign, i) == sign || SignAfter(t, sign, i) == 1.0 || SignAfter(t, sign, i) == -1.0
  {
    if i > 0 { SignIsOneOf(t, sign, i - 1); }
  }
}
