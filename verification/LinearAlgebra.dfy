/** Vectors, matrices and quadratic forms over the reals, as far as the predictive controller needs them. */
module LinearAlgebra {
  import opened Sums
  import opened Matchings

  type Vec = seq<real>

  function Zero(n: nat): (v: Vec)
    ensures |v| == n
  {
    seq(n, i => 0.0)
  }

  function Plus(n: nat, x: Vec, y: Vec): (v: Vec)
    ensures |v| == n
  {
    seq(n, i => At(x, i) + At(y, i))
  }

  function Scale(n: nat, s: real, x: Vec): (v: Vec)
    ensures |v| == n
  {
    seq(n, i => s * At(x, i))
  }

  /** Row r of m times x, with n columns. */
  function RowTimes(m: Matrix, r: int, x: Vec, n: nat): real {
    Sum(k => Cell(m, r, k) * At(x, k), n)
  }

  function MatVec(rows: nat, n: nat, m: Matrix, x: Vec): (v: Vec)
    ensures |v| == rows
  {
    seq(rows, r => RowTimes(m, r, x, n))
  }

  function Column(m: Matrix, c: int, n: nat): (v: Vec)
    ensures |v| == n
  {
    seq(n, k => Cell(m, k, c))
  }

  function MatMul(rows: nat, n: nat, cols: nat, a: Matrix, b: Matrix): (m: Matrix)
    ensures Rectangular(m, rows, cols)
  {
    seq(rows, r => seq(cols, c => RowTimes(a, r, Column(b, c, n), n)))
  }

  /** The combination sum of u[j] * v[j] over j < count. */
  function Combine(n: nat, u: Vec, v: seq<Vec>, count: nat): (x: Vec)
    requires count <= |v|
    ensures |x| == n
  {
    if count == 0 then Zero(n) else Plus(n, Combine(n, u, v, count - 1), Scale(n, At(u, count - 1), v[count - 1]))
  }

  lemma RowTimesPlus(m: Matrix, r: int, x: Vec, y: Vec, n: nat)
    ensures RowTimes(m, r, Plus(n, x, y), n) == RowTimes(m, r, x, n) + RowTimes(m, r, y, n)
  {
    var f := (k: int) => Cell(m, r, k) * At(x, k);
    var g := (k: int) => Cell(m, r, k) * At(y, k);
    SumAdd(f, g, n);
    SumEq(k => Cell(m, r, k) * At(Plus(n, x, y), k), k => f(k) + g(k), n);
  }

  lemma RowTimesScale(m: Matrix, r: int, s: real, x: Vec, n: nat)
    ensures RowTimes(m, r, Scale(n, s, x), n) == s * RowTimes(m, r, x, n)
  {
    var f := (k: int) => Cell(m, r, k) * At(x, k);
    SumScale(s, f, n);
    SumEq(k => Cell(m, r, k) * At(Scale(n, s, x), k), k => s * f(k), n);
  }

  lemma RowTimesZero(m: Matrix, r: int, n: nat)
    ensures RowTimes(m, r, Zero(n), n) == 0.0
  {
    SumZero(k => Cell(m, r, k) * At(Zero(n), k), n);
  }

  lemma MatVecPlus(rows: nat, n: nat, m: Matrix, x: Vec, y: Vec)
    ensures MatVec(rows, n, m, Plus(n, x, y)) == Plus(rows, MatVec(rows, n, m, x), MatVec(rows, n, m, y))
  {
    forall r | 0 <= r < rows ensures MatVec(rows, n, m, Plus(n, x, y))[r]
        == Plus(rows, MatVec(rows, n, m, x), MatVec(rows, n, m, y))[r] {
      RowTimesPlus(m, r, x, y, n);
    }
  }

  lemma MatVecScale(rows: nat, n: nat, m: Matrix, s: real, x: Vec)
    ensures MatVec(rows, n, m, Scale(n, s, x)) == Scale(rows, s, MatVec(rows, n, m, x))
  {
    forall r | 0 <= r < rows ensures MatVec(rows, n, m, Scale(n, s, x))[r] == Scale(rows, s, MatVec(rows, n, m, x))[r] {
      RowTimesScale(m, r, s, x, n);
    }
  }

  lemma MatVecZero(rows: nat, n: nat, m: Matrix)
    ensures MatVec(rows, n, m, Zero(n)) == Zero(rows)
  {
    forall r | 0 <= r < rows ensures MatVec(rows, n, m, Zero(n))[r] == 0.0 { RowTimesZero(m, r, n); }
  }

  lemma {:induction false} MatVecCombine(rows: nat, n: nat, m: Matrix, u: Vec, v: seq<Vec>, mv: seq<Vec>, count: nat)
    requires count <= |v| && count <= |mv|
    requires forall j :: 0 <= j < count ==> mv[j] == MatVec(rows, n, m, v[j])
    ensures MatVec(rows, n, m, Combine(n, u, v, count)) == Combine(rows, u, mv, count)
  {
    if count == 0 {
      MatVecZero(rows, n, m);
    } else {
      MatVecCombine(rows, n, m, u, v, mv, count - 1);
      MatVecPlus(rows, n, m, Combine(n, u, v, count - 1), Scale(n, At(u, count - 1), v[count - 1]));
      MatVecScale(rows, n, m, At(u, count - 1), v[count - 1]);
    }
  }

  function Product3(a: Matrix, b: Matrix, x: Vec, r: int, k: int, c: int): real {
    Cell(a, r, k) * Cell(b, k, c) * At(x, c)
  }

  lemma ProductCell(n: nat, a: Matrix, b: Matrix, x: Vec, r: int, c: int)
    ensures RowTimes(a, r, Column(b, c, n), n) * At(x, c) == Sum(k => Product3(a, b, x, r, k, c), n)
  {
    hide Product3;
    var g := (k: int) => Cell(a, r, k) * At(Column(b, c, n), k);
    SumScale(At(x, c), g, n);
    forall k | 0 <= k < n ensures At(x, c) * g(k) == Product3(a, b, x, r, k, c) { ColumnTerm(a, b, x, r, k, c, n); }
    SumEq(k => At(x, c) * g(k), k => Product3(a, b, x, r, k, c), n);
  }

  lemma ColumnTerm(a: Matrix, b: Matrix, x: Vec, r: int, k: int, c: int, n: nat)
    requires 0 <= k < n
    ensures At(x, c) * (Cell(a, r, k) * At(Column(b, c, n), k)) == Product3(a, b, x, r, k, c)
  {
    var p, q, z := Cell(a, r, k), Cell(b, k, c), At(x, c);
    assert At(Column(b, c, n), k) == q;
    assert z * (p * q) == p * q * z;
  }

  lemma RowOfImage(cols: nat, a: Matrix, b: Matrix, x: Vec, r: int, k: int)
    ensures Cell(a, r, k) * RowTimes(b, k, x, cols) == Sum(c => Product3(a, b, x, r, k, c), cols)
  {
    var s := Cell(a, r, k);
    var g := (c: int) => Cell(b, k, c) * At(x, c);
    SumScale(s, g, cols);
    SumEq(c => s * g(c), c => Product3(a, b, x, r, k, c), cols);
  }

  lemma MatMulRow(rows: nat, n: nat, cols: nat, a: Matrix, b: Matrix, x: Vec, r: int)
    requires 0 <= r < rows
    ensures RowTimes(MatMul(rows, n, cols, a, b), r, x, cols) == RowTimes(a, r, MatVec(n, cols, b, x), n)
  {
    hide Product3, RowTimes;
    var ab, bx := MatMul(rows, n, cols, a, b), MatVec(n, cols, b, x);
    var f := (c: int, k: int) => Product3(a, b, x, r, k, c);
    forall c | 0 <= c < cols ensures Cell(ab, r, c) * At(x, c) == Sum(k => f(c, k), n) {
      ProductCell(n, a, b, x, r, c);
      SumEq(k => Product3(a, b, x, r, k, c), k => f(c, k), n);
    }
    RowTimesIs(ab, r, x, cols, c => Sum(k => f(c, k), n));
    forall k | 0 <= k < n ensures Cell(a, r, k) * At(bx, k) == Sum(c => f(c, k), cols) {
      RowOfImage(cols, a, b, x, r, k);
      SumEq(c => Product3(a, b, x, r, k, c), c => f(c, k), cols);
    }
    RowTimesIs(a, r, bx, n, k => Sum(c => f(c, k), cols));
    SumSwap(f, cols, n);
  }

  lemma RowTimesIs(m: Matrix, r: int, x: Vec, n: nat, f: int -> real)
    requires forall k :: 0 <= k < n ==> Cell(m, r, k) * At(x, k) == f(k)
    ensures RowTimes(m, r, x, n) == Sum(f, n)
  {
    SumEq(k => Cell(m, r, k) * At(x, k), f, n);
  }

  /** (a b) x = a (b x). */
  lemma MatMulVec(rows: nat, n: nat, cols: nat, a: Matrix, b: Matrix, x: Vec)
    ensures MatVec(rows, cols, MatMul(rows, n, cols, a, b), x) == MatVec(rows, n, a, MatVec(n, cols, b, x))
  {
    forall r | 0 <= r < rows
      ensures MatVec(rows, cols, MatMul(rows, n, cols, a, b), x)[r] == MatVec(rows, n, a, MatVec(n, cols, b, x))[r]
    {
      MatMulRow(rows, n, cols, a, b, x, r);
    }
  }

  /** Component p of a combination is the combination of the components. */
  lemma {:induction false} CombineAt(n: nat, u: Vec, v: seq<Vec>, count: nat, p: nat)
    requires count <= |v| && p < n
    ensures Combine(n, u, v, count)[p] == Sum(j => At(u, j) * (if 0 <= j < |v| then At(v[j], p) else 0.0), count)
  {
    if count > 0 { CombineAt(n, u, v, count - 1, p); }
  }

  // ---- quadratic forms -------------------------------------------------------------------------

  ghost function Term(p: (int, int) -> real, x: int -> real, i: int, j: int): real {
    p(i, j) * x(i) * x(j)
  }

  lemma TermSymmetric(p: (int, int) -> real, x: int -> real, n: nat)
    requires forall i, j :: 0 <= i < n && 0 <= j < n ==> p(i, j) == p(j, i)
    ensures forall i, j :: 0 <= i < n && 0 <= j < n ==> Term(p, x, i, j) == Term(p, x, j, i)
  {
  }

  ghost function FormRow(p: (int, int) -> real, x: int -> real, i: int, n: nat): real {
    Sum(j => Term(p, x, i, j), n)
  }

  /** x' P x over the leading n x n block. */
  ghost function Quadratic(p: (int, int) -> real, x: int -> real, n: nat): real {
    Sum(i => FormRow(p, x, i, n), n)
  }

  ghost function Entries(m: Matrix): (int, int) -> real { (i, j) => Cell(m, i, j) }

  ghost function Vector(u: Vec): int -> real { i => At(u, i) }

  /** u' M u over the leading n entries. */
  ghost function FormOf(m: Matrix, u: Vec, n: nat): real {
    Quadratic(Entries(m), Vector(u), n)
  }

  ghost predicate Symmetric(m: Matrix, n: nat) {
    forall i, j :: 0 <= i < n && 0 <= j < n ==> Cell(m, i, j) == Cell(m, j, i)
  }

  lemma QuadraticAt(p: (int, int) -> real, x: int -> real, y: int -> real, n: nat)
    requires forall i :: 0 <= i < n ==> x(i) == y(i)
    ensures Quadratic(p, x, n) == Quadratic(p, y, n)
  {
    forall i | 0 <= i < n ensures FormRow(p, x, i, n) == FormRow(p, y, i, n) {
      SumEq(j => Term(p, x, i, j), j => Term(p, y, i, j), n);
    }
    SumEq(i => FormRow(p, x, i, n), i => FormRow(p, y, i, n), n);
  }

  /** A diagonal form is the weighted sum of squares. */
  lemma DiagonalForm(p: (int, int) -> real, x: int -> real, n: nat)
    requires forall i, j :: 0 <= i < n && 0 <= j < n && i != j ==> p(i, j) == 0.0
    ensures Quadratic(p, x, n) == Sum(i => p(i, i) * x(i) * x(i), n)
  {
    forall i | 0 <= i < n ensures FormRow(p, x, i, n) == p(i, i) * x(i) * x(i) {
      SumSingle(j => Term(p, x, i, j), n, i);
    }
    SumEq(i => FormRow(p, x, i, n), i => p(i, i) * x(i) * x(i), n);
  }

  lemma QuadraticEq(p: (int, int) -> real, q: (int, int) -> real, x: int -> real, n: nat)
    requires forall i, j :: 0 <= i < n && 0 <= j < n ==> p(i, j) == q(i, j)
    ensures Quadratic(p, x, n) == Quadratic(q, x, n)
  {
    forall i | 0 <= i < n ensures FormRow(p, x, i, n) == FormRow(q, x, i, n) {
      SumEq(j => Term(p, x, i, j), j => Term(q, x, i, j), n);
    }
    SumEq(i => FormRow(p, x, i, n), i => FormRow(q, x, i, n), n);
  }

  /** Quadratic forms add with their matrices. */
  lemma QuadraticAdd(p: (int, int) -> real, q: (int, int) -> real, x: int -> real, n: nat)
    ensures Quadratic((i, j) => p(i, j) + q(i, j), x, n) == Quadratic(p, x, n) + Quadratic(q, x, n)
  {
    var r := (i: int, j: int) => p(i, j) + q(i, j);
    forall i | 0 <= i < n ensures FormRow(r, x, i, n) == FormRow(p, x, i, n) + FormRow(q, x, i, n) {
      var f, g := (j: int) => Term(p, x, i, j), (j: int) => Term(q, x, i, j);
      SumAdd(f, g, n);
      SumEq(j => Term(r, x, i, j), j => f(j) + g(j), n);
    }
    var f, g := (i: int) => FormRow(p, x, i, n), (i: int) => FormRow(q, x, i, n);
    SumAdd(f, g, n);
    SumEq(i => FormRow(r, x, i, n), i => f(i) + g(i), n);
  }

  ghost function Inner(v: int -> real, x: int -> real, n: nat): real {
    Sum(i => v(i) * x(i), n)
  }

  lemma RankOneTerm(s: real, v: int -> real, x: int -> real, i: int, j: int)
    ensures Term((i, j) => s * v(i) * v(j), x, i, j) == (s * (v(i) * x(i))) * (v(j) * x(j))
  {
  }

  lemma RankOneRow(s: real, v: int -> real, x: int -> real, i: int, n: nat)
    ensures FormRow((i, j) => s * v(i) * v(j), x, i, n) == (s * Inner(v, x, n)) * (v(i) * x(i))
  {
    hide Term;
    var p := (i: int, j: int) => s * v(i) * v(j);
    var c, w := s * (v(i) * x(i)), (j: int) => v(j) * x(j);
    forall j | 0 <= j < n ensures Term(p, x, i, j) == c * w(j) { RankOneTerm(s, v, x, i, j); }
    SumEq(j => Term(p, x, i, j), j => c * w(j), n);
    SumScale(c, w, n);
    assert Sum(w, n) == Inner(v, x, n) by { SumEq(w, i => v(i) * x(i), n); }
    assert c * Inner(v, x, n) == (s * Inner(v, x, n)) * (v(i) * x(i));
  }

  /** The form of s v v' is s times the square of v' x. */
  lemma RankOne(s: real, v: int -> real, x: int -> real, n: nat)
    ensures Quadratic((i, j) => s * v(i) * v(j), x, n) == s * Inner(v, x, n) * Inner(v, x, n)
  {
    hide FormRow;
    var p := (i: int, j: int) => s * v(i) * v(j);
    var c, w := s * Inner(v, x, n), (i: int) => v(i) * x(i);
    forall i | 0 <= i < n ensures FormRow(p, x, i, n) == c * w(i) { RankOneRow(s, v, x, i, n); }
    SumEq(i => FormRow(p, x, i, n), i => c * w(i), n);
    SumScale(c, w, n);
    assert Sum(w, n) == Inner(v, x, n) by { SumEq(w, i => v(i) * x(i), n); }
  }
}
