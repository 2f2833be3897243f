/** One control cycle's quadratic program, built from the matrices and handed to the solver. */
module MpcProgram {
  import opened Sums
  import opened Reals
  import opened Matchings
  import opened LinearAlgebra
  import opened QuadraticForms
  import opened MpcPrediction
  import opened MpcCost
  import opened MpcMatrices
  import opened SteerWeights

  // ---- products of block matrices ---------------------------------------------------------------

  /** A row of blocks times a column of vectors. */
  function BlockRow(rows: nat, cols: nat, row: seq<Matrix>, col: seq<Vec>, count: nat): (v: Vec)
    requires count <= |row| && count <= |col|
    ensures |v| == rows
  {
    if count == 0 then Zero(rows)
    else Plus(rows, BlockRow(rows, cols, row, col, count - 1), MatVec(rows, cols, row[count - 1], col[count - 1]))
  }

  function BlockColumn(b: seq<seq<Vec>>, j: nat, n: nat): (col: seq<Vec>)
    requires Rectangular(b, n, n) && j < n
    ensures |col| == n && forall k :: 0 <= k < n ==> col[k] == b[k][j]
  {
    seq(n, k requires 0 <= k < n => b[k][j])
  }

  /** The product of two n x n grids of blocks. */
  function BlockProduct(rows: nat, cols: nat, a: seq<seq<Matrix>>, b: seq<seq<Vec>>, n: nat): (c: seq<seq<Vec>>)
    requires Rectangular(a, n, n) && Rectangular(b, n, n)
    ensures Rectangular(c, n, n)
    ensures forall i, j :: 0 <= i < n && 0 <= j < n ==> c[i][j] == BlockRow(rows, cols, a[i], BlockColumn(b, j, n), n)
  {
    seq(n, i requires 0 <= i < n => seq(n, j requires 0 <= j < n =>
      BlockRow(rows, cols, a[i], BlockColumn(b, j, n), n)))
  }

  lemma ZeroTimes(rows: nat, cols: nat, x: Vec)
    ensures MatVec(rows, cols, ZeroMatrix(rows, cols), x) == Zero(rows)
  {
    forall r | 0 <= r < rows ensures RowTimes(ZeroMatrix(rows, cols), r, x, cols) == 0.0 {
      SumZero(k => Cell(ZeroMatrix(rows, cols), r, k) * At(x, k), cols);
    }
  }

  /** Only the diagonal block of a block row counts. */
  lemma {:induction false} BlockRowDiagonal(rows: nat, cols: nat, row: seq<Matrix>, col: seq<Vec>, i: nat, count: nat)
    requires count <= |row| && count <= |col| && i < |row| && i < |col|
    requires forall k :: 0 <= k < count && k != i ==> row[k] == ZeroMatrix(rows, cols)
    ensures BlockRow(rows, cols, row, col, count) == if i < count then MatVec(rows, cols, row[i], col[i])
      else Zero(rows)
  {
    hide MatVec, ZeroMatrix;
    if count > 0 {
      BlockRowDiagonal(rows, cols, row, col, i, count - 1);
      if count - 1 != i { ZeroTimes(rows, cols, col[count - 1]); }
    }
  }

  // ---- the weighted products --------------------------------------------------------------------

  function Dot(x: Vec, y: Vec, n: nat): real {
    Sum(p => At(x, p) * At(y, p), n)
  }

  /** Only the first two outputs are weighed. */
  lemma WeightedRow(ny: nat, q0: real, q1: real, y: Vec, r: nat)
    requires r < ny && ny >= 2
    ensures RowTimes(OutputWeight(ny, q0, q1), r, y, ny) == if r == 0 then q0 * At(y, 0)
      else if r == 1 then q1 * At(y, 1) else 0.0
  {
    SumSingle(k => Cell(OutputWeight(ny, q0, q1), r, k) * At(y, k), ny, r);
  }

  lemma WeightedDot(ny: nat, q0: real, q1: real, x: Vec, y: Vec)
    requires ny >= 2
    ensures Dot(x, MatVec(ny, ny, OutputWeight(ny, q0, q1), y), ny) == q0 * At(x, 0) * At(y, 0)
      + q1 * At(x, 1) * At(y, 1)
  {
    hide OutputWeight, RowTimes;
    var z := MatVec(ny, ny, OutputWeight(ny, q0, q1), y);
    forall r | 0 <= r < ny ensures z[r] == if r == 0 then q0 * At(y, 0) else if r == 1 then q1 * At(y, 1) else 0.0 {
      WeightedRow(ny, q0, q1, y, r);
    }
    var f := (p: int) => At(x, p) * At(z, p);
    SumTruncate(f, ny, 2);
    assert Sum(f, 2) == Sum(f, 1) + f(1) == f(0) + f(1);
  }

  // ---- the products the program is made of ------------------------------------------------------

  /** Cex Bex and Qex Cex Bex, from the stored blocks. */
  function CB(m: MpcMatrix, nx: nat, ny: nat, n: nat): (c: seq<seq<Vec>>)
    requires Rectangular(m.cex, n, n) && Rectangular(m.bex, n, n)
    ensures Rectangular(c, n, n)
  {
    BlockProduct(ny, nx, m.cex, m.bex, n)
  }

  function QCB(m: MpcMatrix, nx: nat, ny: nat, n: nat): (c: seq<seq<Vec>>)
    requires Rectangular(m.cex, n, n) && Rectangular(m.bex, n, n) && Rectangular(m.qex, n, n)
    ensures Rectangular(c, n, n)
  {
    BlockProduct(ny, ny, m.qex, CB(m, nx, ny, n), n)
  }

  /** Cex (Aex x0 + Wex). */
  function CBase(m: MpcMatrix, nx: nat, ny: nat, n: nat, x0: Vec): (c: seq<Vec>)
    requires |m.aex| == |m.wex| == n && Rectangular(m.cex, n, n)
    ensures |c| == n
  {
    seq(n, i requires 0 <= i < n => BlockRow(ny, nx, m.cex[i], BaseBlocks(m, nx, n, x0), n))
  }

  function BaseBlocks(m: MpcMatrix, nx: nat, n: nat, x0: Vec): (base: seq<Vec>)
    requires |m.aex| == |m.wex| == n
    ensures |base| == n && forall k :: 0 <= k < n ==> base[k] == Plus(nx, MatVec(nx, nx, m.aex[k], x0), m.wex[k])
  {
    seq(n, k requires 0 <= k < n => Plus(nx, MatVec(nx, nx, m.aex[k], x0), m.wex[k]))
  }

  lemma CBIs(m: MpcMatrix, b: Problem, i: nat, j: nat)
    requires Holds(m, b) && i < b.n && j < b.n
    ensures CB(m, b.nx, b.ny, b.n)[i][j] == CbAt(b, i, j)
  {
    hide MatVec, ZeroMatrix, OutputWeight, BlockRow;
    BlockRowDiagonal(b.ny, b.nx, m.cex[i], BlockColumn(m.bex, j, b.n), i, b.n);
  }

  lemma QCBIs(m: MpcMatrix, b: Problem, i: nat, j: nat)
    requires Holds(m, b) && i < b.n && j < b.n
    ensures QCB(m, b.nx, b.ny, b.n)[i][j] == MatVec(b.ny, b.ny, OutputWeight(b.ny, b.q0[i], b.q1[i]), CbAt(b, i, j))
  {
    hide MatVec, ZeroMatrix, OutputWeight, BlockRow, CB;
    CBIs(m, b, i, j);
    BlockRowDiagonal(b.ny, b.ny, m.qex[i], BlockColumn(CB(m, b.nx, b.ny, b.n), j, b.n), i, b.n);
  }

  lemma CBaseIs(m: MpcMatrix, b: Problem, x0: Vec, i: nat)
    requires Holds(m, b) && i < b.n
    ensures CBase(m, b.nx, b.ny, b.n, x0)[i] == CbaseAt(b, x0, i)
  {
    hide MatVec, ZeroMatrix, OutputWeight, BlockRow, Plus;
    var base := BaseBlocks(m, b.nx, b.n, x0);
    assert base[i] == Base(b.nx, b.d, x0, i);
    BlockRowDiagonal(b.ny, b.nx, m.cex[i], base, i, b.n);
  }

  // ---- entries of the program -------------------------------------------------------------------

  /** Entry (a, c) of x' y for two block grids. */
  function GridDot(x: seq<seq<Vec>>, y: seq<seq<Vec>>, a: int, c: int, ny: nat, n: nat): real
    requires Rectangular(x, n, n) && Rectangular(y, n, n) && 0 <= a < n && 0 <= c < n
  {
    Sum(i => if 0 <= i < n then Dot(x[i][a], y[i][c], ny) else 0.0, n)
  }

  /** Entry c of x' y for a block column and a grid. */
  function ColumnDot(x: seq<Vec>, y: seq<seq<Vec>>, c: int, ny: nat, n: nat): real
    requires |x| == n && Rectangular(y, n, n) && 0 <= c < n
  {
    Sum(i => if 0 <= i < n then Dot(x[i], y[i][c], ny) else 0.0, n)
  }

  lemma SumSplit(f: int -> real, g: int -> real, h: int -> real, n: nat)
    requires forall i :: 0 <= i < n ==> f(i) == g(i) + h(i)
    ensures Sum(f, n) == Sum(g, n) + Sum(h, n)
  {
    SumAdd(g, h, n);
    SumEq(f, i => g(i) + h(i), n);
  }

  lemma GramIs(m: MpcMatrix, b: Problem, x0: Vec, a: nat, c: nat)
    requires Holds(m, b) && WellPosed(b) && a < b.n && c < b.n
    ensures GridDot(CB(m, b.nx, b.ny, b.n), QCB(m, b.nx, b.ny, b.n), a, c, b.ny, b.n)
         == Gram(OutRows(b, x0, 0), b.n)(a, c) + Gram(OutRows(b, x0, 1), b.n)(a, c)
  {
    hide CB, QCB, OutRows, Holds, WellPosed;
    SizesHold(m, b);
    var x, y := CB(m, b.nx, b.ny, b.n), QCB(m, b.nx, b.ny, b.n);
    var e0, e1 := GramEntry(OutRows(b, x0, 0), a, c), GramEntry(OutRows(b, x0, 1), a, c);
    var f := (i: int) => if 0 <= i < b.n then Dot(x[i][a], y[i][c], b.ny) else 0.0;
    forall i | 0 <= i < b.n ensures f(i) == e0(i) + e1(i) { GramEntryIs(m, b, x0, a, c, i); }
    SumSplit(f, e0, e1, b.n);
    SumEq(f, i => if 0 <= i < b.n then Dot(x[i][a], y[i][c], b.ny) else 0.0, b.n);
  }

  lemma GramEntryIs(m: MpcMatrix, b: Problem, x0: Vec, a: nat, c: nat, i: nat)
    requires Holds(m, b) && WellPosed(b) && a < b.n && c < b.n && i < b.n
    ensures Dot(CB(m, b.nx, b.ny, b.n)[i][a], QCB(m, b.nx, b.ny, b.n)[i][c], b.ny)
         == GramEntry(OutRows(b, x0, 0), a, c)(i) + GramEntry(OutRows(b, x0, 1), a, c)(i)
  {
    hide CB, QCB, Dot, MatVec, OutputWeight, BexAt;
    CBIs(m, b, i, a);
    QCBIs(m, b, i, c);
    WeightedDot(b.ny, b.q0[i], b.q1[i], CbAt(b, i, a), CbAt(b, i, c));
    GramEntryOf(b, x0, a, c, i);
  }

  lemma GramEntryOf(b: Problem, x0: Vec, a: int, c: int, i: int)
    ensures GramEntry(OutRows(b, x0, 0), a, c)(i) == At(b.q0, i) * At(CbAt(b, i, a), 0) * At(CbAt(b, i, c), 0)
    ensures GramEntry(OutRows(b, x0, 1), a, c)(i) == At(b.q1, i) * At(CbAt(b, i, a), 1) * At(CbAt(b, i, c), 1)
  {
    hide CbAt, At;
  }

  lemma LinearIs(m: MpcMatrix, b: Problem, x0: Vec, c: nat)
    requires Holds(m, b) && WellPosed(b) && c < b.n
    ensures ColumnDot(CBase(m, b.nx, b.ny, b.n, x0), QCB(m, b.nx, b.ny, b.n), c, b.ny, b.n)
         == Linear(OutRows(b, x0, 0), b.n)(c) + Linear(OutRows(b, x0, 1), b.n)(c)
  {
    hide CBase, QCB, OutRows, Holds, WellPosed;
    SizesHold(m, b);
    var x, y := CBase(m, b.nx, b.ny, b.n, x0), QCB(m, b.nx, b.ny, b.n);
    var e0, e1 := LinearEntry(OutRows(b, x0, 0), c), LinearEntry(OutRows(b, x0, 1), c);
    var f := (i: int) => if 0 <= i < b.n then Dot(x[i], y[i][c], b.ny) else 0.0;
    forall i | 0 <= i < b.n ensures f(i) == e0(i) + e1(i) { LinearEntryIs(m, b, x0, c, i); }
    SumSplit(f, e0, e1, b.n);
    SumEq(f, i => if 0 <= i < b.n then Dot(x[i], y[i][c], b.ny) else 0.0, b.n);
  }

  lemma LinearEntryIs(m: MpcMatrix, b: Problem, x0: Vec, c: nat, i: nat)
    requires Holds(m, b) && WellPosed(b) && c < b.n && i < b.n
    ensures Dot(CBase(m, b.nx, b.ny, b.n, x0)[i], QCB(m, b.nx, b.ny, b.n)[i][c], b.ny)
         == LinearEntry(OutRows(b, x0, 0), c)(i) + LinearEntry(OutRows(b, x0, 1), c)(i)
  {
    hide CBase, QCB, Dot, MatVec, OutputWeight, BexAt;
    CBaseIs(m, b, x0, i);
    QCBIs(m, b, i, c);
    WeightedDot(b.ny, b.q0[i], b.q1[i], CbaseAt(b, x0, i), CbAt(b, i, c));
    LinearEntryPart(b, x0, c, i, 0);
    LinearEntryPart(b, x0, c, i, 1);
  }

  lemma LinearEntryPart(b: Problem, x0: Vec, c: int, i: int, p: nat)
    ensures LinearEntry(OutRows(b, x0, p), c)(i)
         == At(if p == 0 then b.q0 else b.q1, i) * At(CbaseAt(b, x0, i), p) * At(CbAt(b, i, c), p)
  {
    hide CbAt, CbaseAt, At;
    var q, base, g := At(if p == 0 then b.q0 else b.q1, i), At(CbaseAt(b, x0, i), p), At(CbAt(b, i, c), p);
    assert LinearEntry(OutRows(b, x0, p), c)(i) == base * q * g;
  }

  // ---- the program ------------------------------------------------------------------------------

  /** Minimise u' h u / 2 + f u subject to lb <= u <= ub and lbA <= a u <= ubA. */
  datatype Program = Program(h: Matrix, f: Vec, a: Matrix, lb: Vec, ub: Vec, lbA: Vec, ubA: Vec)

  ghost predicate Feasible(q: Program, u: Vec, n: nat) {
    forall i :: 0 <= i < n ==>
      At(q.lb, i) <= At(u, i) <= At(q.ub, i) && At(q.lbA, i) <= RowTimes(q.a, i, u, n) <= At(q.ubA, i)
  }

  datatype Limits = Limits(steerLim: real, steerRateLim: real, dt: real, ctrlPeriod: real, prevCmd: real)

  /** How far the command may move in one prediction step, and from the previous command. */
  function Slew(l: Limits): real { l.steerRateLim * l.dt }

  function FirstSlew(l: Limits): real { l.steerRateLim * l.ctrlPeriod }

  /** The steering limit, the rate limit inside the horizon and the rate limit from the previous command. */
  ghost predicate WithinLimits(l: Limits, u: Vec, n: nat) {
    && (forall i :: 0 <= i < n ==> -l.steerLim <= At(u, i) <= l.steerLim)
    && (n > 0 ==> -FirstSlew(l) <= At(u, 0) - l.prevCmd <= FirstSlew(l))
    && (forall i :: 0 < i < n ==> -Slew(l) <= At(u, i) - At(u, i - 1) <= Slew(l))
  }

  /** The identity with -1 below the diagonal. */
  function DifferenceMatrix(n: nat): (a: Matrix)
    ensures Rectangular(a, n, n)
  {
    seq(n, i => seq(n, j => if i == j then 1.0 else if i == j + 1 then -1.0 else 0.0))
  }

  lemma DifferenceRow(n: nat, u: Vec, i: nat)
    requires i < n
    ensures RowTimes(DifferenceMatrix(n), i, u, n) == if i == 0 then At(u, 0) else At(u, i) - At(u, i - 1)
  {
    var f := (k: int) => Cell(DifferenceMatrix(n), i, k) * At(u, k);
    SumTruncate(f, n, i + 1);
    if i > 0 {
      SumTruncate(f, i, i);
      SumSingle(f, i, i - 1);
    }
  }

  lemma FeasibleIff(q: Program, l: Limits, u: Vec, n: nat, slew: real, first: real)
    requires q.a == DifferenceMatrix(n) && |q.lb| == |q.ub| == |q.lbA| == |q.ubA| == n
    requires slew == Slew(l) && first == FirstSlew(l)
    requires forall i :: 0 <= i < n ==> q.lb[i] == -l.steerLim && q.ub[i] == l.steerLim
    requires forall i :: 0 <= i < n ==> q.lbA[i] == if i == 0 then l.prevCmd - first else -slew
    requires forall i :: 0 <= i < n ==> q.ubA[i] == if i == 0 then l.prevCmd + first else slew
    ensures Feasible(q, u, n) <==> WithinLimits(l, u, n)
  {
    hide RowTimes, DifferenceMatrix;
    forall i | 0 <= i < n ensures RowTimes(q.a, i, u, n) == if i == 0 then At(u, 0) else At(u, i) - At(u, i - 1) {
      DifferenceRow(n, u, i);
    }
    if Feasible(q, u, n) {
      forall i | 0 <= i < n ensures -l.steerLim <= At(u, i) <= l.steerLim { assert At(q.lb, i) == -l.steerLim; }
      forall i | 0 < i < n ensures -slew <= At(u, i) - At(u, i - 1) <= slew { assert At(q.lbA, i) == -slew; }
      if n > 0 {
        DifferenceRow(n, u, 0);
        assert At(q.lbA, 0) <= RowTimes(q.a, 0, u, n) <= At(q.ubA, 0);
      }
    }
    if WithinLimits(l, u, n) {
      forall i | 0 <= i < n
        ensures At(q.lb, i) <= At(u, i) <= At(q.ub, i) && At(q.lbA, i) <= RowTimes(q.a, i, u, n) <= At(q.ubA, i)
      {
        DifferenceRow(n, u, i);
        assert At(q.lbA, i) == q.lbA[i] && At(q.ubA, i) == q.ubA[i];
        assert i > 0 ==> -slew <= At(u, i) - At(u, i - 1) <= slew;
      }
    }
  }

  ghost predicate RepresentsCost(q: Program, b: Problem, x0: Vec) {
    forall u: Vec :: CostOf(b, x0, u) == FormOf(q.h, u, b.n) + 2.0 * Inner(Vector(q.f), Vector(u), b.n)
        + Constant(b, x0)
  }

  /** h is the matrix H of the problem. */
  ghost predicate IsH(h: Matrix, b: Problem, x0: Vec) {
    && Rectangular(h, b.n, b.n)
    && forall i, j :: 0 <= i < b.n && 0 <= j < b.n ==> h[i][j] == HEntry(b, x0)(i, j)
  }

  /** H: the upper triangle is computed, then mirrored. */
  method BuildH(m: MpcMatrix, nx: nat, ny: nat, n: nat) returns (h: Matrix)
    requires Rectangular(m.cex, n, n) && Rectangular(m.bex, n, n) && Rectangular(m.qex, n, n)
    requires Rectangular(m.r1ex, n, n) && Rectangular(m.r2ex, n, n)
    ensures Rectangular(h, n, n)
    ensures forall i, j :: 0 <= i <= j < n ==>
      h[i][j] == GridDot(CB(m, nx, ny, n), QCB(m, nx, ny, n), i, j, ny, n) + (m.r1ex[i][j] + m.r2ex[i][j])
    ensures forall i, j :: 0 <= j < i < n ==> h[i][j] == h[j][i]
  {
    hide GridDot, CB, QCB;
    var cb, qcb := CB(m, nx, ny, n), QCB(m, nx, ny, n);
    var hex := new real[n, n]((i, j) => 0.0);
    forall i, j | 0 <= i <= j < n { hex[i, j] := GridDot(cb, qcb, i, j, ny, n); }
    forall i, j | 0 <= i <= j < n { hex[i, j] := hex[i, j] + (m.r1ex[i][j] + m.r2ex[i][j]); }
    forall i, j | 0 <= j < i < n { hex[i, j] := hex[j, i]; }
    h := Block(hex, n);
  }

  /** The rate bounds: the first row is measured from the previous command. */
  method BuildRateBounds(l: Limits, n: nat) returns (lbA: Vec, ubA: Vec)
    requires n > 0
    ensures |lbA| == |ubA| == n
    ensures forall i :: 0 <= i < n ==> lbA[i] == if i == 0 then l.prevCmd - FirstSlew(l) else -Slew(l)
    ensures forall i :: 0 <= i < n ==> ubA[i] == if i == 0 then l.prevCmd + FirstSlew(l) else Slew(l)
  {
    hide Slew, FirstSlew;
    var lb, ub := new real[n](i => -Slew(l)), new real[n](i => Slew(l));
    lb[0] := l.prevCmd - FirstSlew(l);
    ub[0] := l.prevCmd + FirstSlew(l);
    lbA, ubA := lb[..], ub[..];
  }

  /** H, f and the constraints, from the matrices: everything up to the call of the solver. */
  method SetUpOptimization(m: MpcMatrix, x0: Vec, nx: nat, ny: nat, n: nat, l: Limits, ghost b: Problem)
      returns (q: Program)
    requires n > 0 && b.n == n && b.nx == nx && b.ny == ny && Holds(m, b) && WellPosed(b)
    ensures Rectangular(q.h, n, n) && Symmetric(q.h, n) && |q.f| == n
    ensures IsH(q.h, b, x0) && RepresentsCost(q, b, x0)
    ensures forall u: Vec :: Feasible(q, u, n) <==> WithinLimits(l, u, n)
  {
    hide Holds, WellPosed, GridDot, RepresentsCost, Feasible, WithinLimits, HEntry, DifferenceMatrix, CB, QCB,
      Symmetric, Slew, FirstSlew;
    SizesHold(m, b);
    var h := BuildH(m, nx, ny, n);
    var f := FRow(m, nx, ny, n, x0);
    var lbA, ubA := BuildRateBounds(l, n);
    q := Program(h, f, DifferenceMatrix(n), seq(n, i => -l.steerLim), seq(n, i => l.steerLim), lbA, ubA);
    UpperIsWhole(m, b, x0, q.h);
    Represents(m, b, x0, q);
    forall u: Vec ensures Feasible(q, u, n) <==> WithinLimits(l, u, n) {
      FeasibleIff(q, l, u, n, Slew(l), FirstSlew(l));
    }
  }

  /**
   * The row (Cex (Aex x0 + Wex))' Qex Cex Bex - Urefex' R1ex. The code's later correction of f only acts on
   * two rows or more.
   */
  function FRow(m: MpcMatrix, nx: nat, ny: nat, n: nat, x0: Vec): (f: Vec)
    requires |m.aex| == |m.wex| == n && Rectangular(m.cex, n, n) && Rectangular(m.bex, n, n) && Rectangular(m.qex, n, n)
    ensures |f| == n
  {
    seq(n, c requires 0 <= c < n =>
      ColumnDot(CBase(m, nx, ny, n, x0), QCB(m, nx, ny, n), c, ny, n)
      - Sum(a => At(m.urefex, a) * Cell(m.r1ex, a, c), n))
  }

  lemma SizesHold(m: MpcMatrix, b: Problem)
    requires Holds(m, b)
    ensures |m.aex| == |m.wex| == b.n && Rectangular(m.cex, b.n, b.n) && Rectangular(m.bex, b.n, b.n)
      && Rectangular(m.qex, b.n, b.n)
    ensures Rectangular(m.r1ex, b.n, b.n) && Rectangular(m.r2ex, b.n, b.n)
  {
  }

  /** Mirroring the upper triangle gives the whole symmetric matrix. */
  lemma UpperIsWhole(m: MpcMatrix, b: Problem, x0: Vec, h: Matrix)
    requires Holds(m, b) && WellPosed(b) && Rectangular(h, b.n, b.n)
    requires forall i, j :: 0 <= i <= j < b.n ==>
      h[i][j] == GridDot(CB(m, b.nx, b.ny, b.n), QCB(m, b.nx, b.ny, b.n), i, j, b.ny, b.n)
          + (m.r1ex[i][j] + m.r2ex[i][j])
    requires forall i, j :: 0 <= j < i < b.n ==> h[i][j] == h[j][i]
    ensures Symmetric(h, b.n)
    ensures forall i, j :: 0 <= i < b.n && 0 <= j < b.n ==> h[i][j] == HEntry(b, x0)(i, j)
  {
    hide GridDot, Gram, OutRows, CB, QCB;
    forall i, j | 0 <= i <= j < b.n ensures h[i][j] == HEntry(b, x0)(i, j) { GramIs(m, b, x0, i, j); }
    forall i, j | 0 <= j < i < b.n ensures h[i][j] == HEntry(b, x0)(i, j) { HSymmetric(b, x0, i, j); }
  }

  lemma Represents(m: MpcMatrix, b: Problem, x0: Vec, q: Program)
    requires Holds(m, b) && WellPosed(b) && Rectangular(q.h, b.n, b.n) && q.f == FRow(m, b.nx, b.ny, b.n, x0)
    requires forall i, j :: 0 <= i < b.n && 0 <= j < b.n ==> q.h[i][j] == HEntry(b, x0)(i, j)
    ensures RepresentsCost(q, b, x0)
  {
    hide Holds, WellPosed, CostOf, HEntry, FEntry, Quadratic, Inner, FRow, Constant;
    forall u: Vec ensures CostOf(b, x0, u) == FormOf(q.h, u, b.n) + 2.0 * Inner(Vector(q.f), Vector(u), b.n)
        + Constant(b, x0) {
      CostIdentity(b, x0, u);
      QuadraticEq(Entries(q.h), HEntry(b, x0), Vector(u), b.n);
      FEntries(m, b, x0);
      InnerEq(Vector(q.f), FEntry(b, x0), Vector(u), b.n);
    }
  }

  lemma InnerEq(v: int -> real, w: int -> real, x: int -> real, n: nat)
    requires forall i :: 0 <= i < n ==> v(i) == w(i)
    ensures Inner(v, x, n) == Inner(w, x, n)
  {
    SumEq(i => v(i) * x(i), i => w(i) * x(i), n);
  }

  lemma FEntries(m: MpcMatrix, b: Problem, x0: Vec)
    requires Holds(m, b) && WellPosed(b)
    ensures |m.aex| == |m.wex| == b.n && Rectangular(m.cex, b.n, b.n) && Rectangular(m.bex, b.n, b.n)
      && Rectangular(m.qex, b.n, b.n)
    ensures forall c :: 0 <= c < b.n ==> FRow(m, b.nx, b.ny, b.n, x0)[c] == FEntry(b, x0)(c)
  {
    hide ColumnDot, CBase, QCB, Linear, OutRows;
    forall c | 0 <= c < b.n ensures FRow(m, b.nx, b.ny, b.n, x0)[c] == FEntry(b, x0)(c) {
      LinearIs(m, b, x0, c);
      SumEq(a => At(m.urefex, a) * Cell(m.r1ex, a, c), a => At(b.uref, a) * Cell(b.r1, a, c), b.n);
    }
  }

  /** The limits with every product written out. */
  lemma LimitsExact(l: Limits, u: Vec, n: nat)
    ensures WithinLimits(l, u, n) <==>
            && (forall i :: 0 <= i < n ==> -l.steerLim <= At(u, i) <= l.steerLim)
            && (n > 0 ==> -(l.steerRateLim * l.ctrlPeriod) <= At(u, 0) - l.prevCmd <= l.steerRateLim * l.ctrlPeriod)
            && (forall i :: 0 < i < n ==>
                -(l.steerRateLim * l.dt) <= At(u, i) - At(u, i - 1) <= l.steerRateLim * l.dt)
  {
    hide At;
    assert Slew(l) == l.steerRateLim * l.dt && FirstSlew(l) == l.steerRateLim * l.ctrlPeriod;
  }

  lemma FeasibleExact(q: Program, u: Vec, n: nat)
    ensures Feasible(q, u, n) <==> forall i :: 0 <= i < n ==>
      && At(q.lb, i) <= At(u, i) <= At(q.ub, i)
      && At(q.lbA, i) <= Sum(k => Cell(q.a, i, k) * At(u, k), n) <= At(q.ubA, i)
  {
    hide At, Sum;
    forall i | 0 <= i < n ensures RowTimes(q.a, i, u, n) == Sum(k => Cell(q.a, i, k) * At(u, k), n) {}
  }

  /** The solver prefers one input sequence to another exactly when the cost does. */
  lemma SolverPrefers(q: Program, b: Problem, x0: Vec, u: Vec, w: Vec)
    requires RepresentsCost(q, b, x0)
    ensures CostOf(b, x0, u) <= CostOf(b, x0, w) <==>
            FormOf(q.h, u, b.n) / 2.0 + Inner(Vector(q.f), Vector(u), b.n)
            <= FormOf(q.h, w, b.n) / 2.0 + Inner(Vector(q.f), Vector(w), b.n)
  {
    hide FormOf, Inner, CostOf, Constant;
    assert CostOf(b, x0, u) == FormOf(q.h, u, b.n) + 2.0 * Inner(Vector(q.f), Vector(u), b.n) + Constant(b, x0);
    assert CostOf(b, x0, w) == FormOf(q.h, w, b.n) + 2.0 * Inner(Vector(q.f), Vector(w), b.n) + Constant(b, x0);
  }

  /** An optimum of the program is a cheapest input sequence within the limits, and conversely. */
  lemma OptimumIff(q: Program, b: Problem, x0: Vec, l: Limits, u: Vec)
    requires RepresentsCost(q, b, x0)
    requires forall w: Vec :: Feasible(q, w, b.n) <==> WithinLimits(l, w, b.n)
    ensures (forall w: Vec :: Feasible(q, w, b.n) ==>
               FormOf(q.h, u, b.n) / 2.0 + Inner(Vector(q.f), Vector(u), b.n)
               <= FormOf(q.h, w, b.n) / 2.0 + Inner(Vector(q.f), Vector(w), b.n))
      <==> (forall w: Vec :: WithinLimits(l, w, b.n) ==> CostOf(b, x0, u) <= CostOf(b, x0, w))
  {
    hide FormOf, Inner, WithinLimits, CostOf, RepresentsCost, Feasible;
    forall w: Vec ensures CostOf(b, x0, u) <= CostOf(b, x0, w) <==>
        FormOf(q.h, u, b.n) / 2.0 + Inner(Vector(q.f), Vector(u), b.n)
        <= FormOf(q.h, w, b.n) / 2.0 + Inner(Vector(q.f), Vector(w), b.n) {
      SolverPrefers(q, b, x0, u, w);
    }
  }

  // ---- what the generated program means ---------------------------------------------------------

  predicate NonNegativeWeights(p: MpcParam) {
    && NonNegativeSet(p.normal) && NonNegativeSet(p.lowCurvature)
    && p.terminalLatError >= 0.0 && p.terminalHeadingError >= 0.0 && p.steer.weightSteerRate >= 0.0
        && p.steer.weightSteerAcc >= 0.0
  }

  predicate NonNegativeSet(w: WeightSet) {
    && w.latError >= 0.0 && w.headingError >= 0.0 && w.headingErrorSqVel >= 0.0
    && w.steerInput >= 0.0 && w.steerInputSqVel >= 0.0 && w.latJerk >= 0.0
  }

  lemma StepWeightsNonNegative(p: MpcParam, t: Reference, sign: real, i: nat)
    requires NonNegativeWeights(p)
    ensures LatErrorWeight(p, t, sign, i) >= 0.0 && HeadingErrorWeight(p, t, sign, i) >= 0.0
    ensures SteerInputWeight(p, t, sign, i) >= 0.0 && JerkWeight(p, t, sign, i) >= 0.0
  {
    var w, v := WeightsAt(p, RefK(t, sign, i)), At(t.vx, i);
    SquareNonNegative(v);
    MulMono(v * v, 0.0, w.headingErrorSqVel);
    MulMono(v * v, 0.0, w.steerInputSqVel);
  }

  lemma InputCostNonNegative(p: MpcParam, t: Reference, sign: real, u: Vec, n: nat)
    requires Configured(p.steer) && NonNegativeWeights(p)
    ensures Sum(InputTerm(p, t, sign, u), n) >= 0.0 && JerkCost(p, t, sign, n)(u) >= 0.0
  {
    forall i | 0 <= i < n ensures InputTerm(p, t, sign, u)(i) >= 0.0 && JerkTerm(p, t, sign, u)(i) >= 0.0 {
      StepWeightsNonNegative(p, t, sign, i);
      WeightedSquare(SteerInputWeight(p, t, sign, i), At(u, i));
      WeightedSquare(JerkWeight(p, t, sign, i), JerkOf(p, t, u, i));
    }
    SumNonNegative(InputTerm(p, t, sign, u), n);
    SumNonNegative(JerkTerm(p, t, sign, u), n);
  }

  /**
   * With non-negative weights the matrix handed to the solver is positive semidefinite, whatever the trajectory, the
   * horizon and the vehicle model.
   */
  lemma ConvexProgram(v: Vehicle, p: MpcParam, t: Reference, sign: real, r1: Matrix, r2: Matrix, x0: Vec, h: Matrix,
      u: Vec)
    requires Configured(p.steer) && NonNegativeWeights(p)
    requires WeighsInputs(r1, p, t, sign) && WeighsJerks(r2, p, t, sign)
    requires IsH(h, ProblemOf(v, p, t, sign, r1, r2), x0)
    ensures FormOf(h, u, p.steer.horizon) >= 0.0
  {
    hide Quadratic, HEntry, LatErrorWeight, HeadingErrorWeight, Sum, SteerCost, JerkCost;
    var b, n := ProblemOf(v, p, t, sign, r1, r2), p.steer.horizon;
    forall i | 0 <= i < n ensures At(b.q0, i) >= 0.0 && At(b.q1, i) >= 0.0 { StepWeightsNonNegative(p, t, sign, i); }
    InputCostNonNegative(p, t, sign, u, n);
    InputCostNonNegative(p, t, sign, u, StepCount(n));
    SteerCostNonNegative(p.steer, u);
    assert FormOf(r1, u, n) >= 0.0 && FormOf(r2, u, n) >= 0.0;
    HNonNegative(b, x0, u);
    QuadraticEq(Entries(h), HEntry(b, x0), Vector(u), n);
  }

  /** The input sequence relative to the reference inputs. */
  function Deviation(u: Vec, r: Vec, n: nat): (d: Vec)
    ensures |d| == n
  {
    seq(n, i => At(u, i) - At(r, i))
  }

  /**
   * The cost in plain terms. The steering weights are added to R1ex, which multiplies the deviation from the
   * reference input, so they weigh the rates and accelerations of the deviation.
   */
  lemma CostMeaning(v: Vehicle, p: MpcParam, t: Reference, sign: real, r1: Matrix, r2: Matrix, x0: Vec, u: Vec)
    requires Configured(p.steer) && WeighsInputs(r1, p, t, sign) && WeighsJerks(r2, p, t, sign)
    ensures var b, n := ProblemOf(v, p, t, sign, r1, r2), p.steer.horizon;
      var d := Deviation(u, b.uref, n);
      CostOf(b, x0, u) == Sum(OutputTerm(b, x0, u, 0), n) + Sum(OutputTerm(b, x0, u, 1), n)
                        + Sum(InputTerm(p, t, sign, d), n) + SteerCost(p.steer)(d)
                            + JerkCost(p, t, sign, StepCount(n))(u)
  {
    hide Quadratic, OutputTerm, Sum, SteerCost, JerkCost, InputTerm, LatErrorWeight, HeadingErrorWeight,
      ReferenceInput, Steps;
    var b, n := ProblemOf(v, p, t, sign, r1, r2), p.steer.horizon;
    var d := Deviation(u, b.uref, n);
    QuadraticAt(Entries(r1), Minus(u, b.uref), Vector(d), n);
    assert FormOf(r1, d, n) == Sum(InputTerm(p, t, sign, d), n) + SteerCost(p.steer)(d);
    assert FormOf(r2, u, n) == JerkCost(p, t, sign, StepCount(n))(u);
  }
}
