/** The prediction matrices of the lateral controller and the states they predict. */
module MpcPrediction {
  import opened Matchings
  import opened LinearAlgebra

  /** One discretised step of the vehicle model: x := ad x + bd u + wd, y = cd x, with a single input. */
  datatype Discrete = Discrete(ad: Matrix, bd: Vec, cd: Matrix, wd: Vec)

  predicate Shaped(d: Discrete, nx: nat, ny: nat) {
    Rectangular(d.ad, nx, nx) && |d.bd| == nx && Rectangular(d.cd, ny, nx) && |d.wd| == nx
  }

  function Next(nx: nat, d: Discrete, x: Vec, u: real): Vec {
    Plus(nx, Plus(nx, MatVec(nx, nx, d.ad, x), Scale(nx, u, d.bd)), d.wd)
  }

  /** The state after the first i steps under the inputs u. */
  function StateAfter(nx: nat, d: seq<Discrete>, x0: Vec, u: Vec, i: nat): Vec
    requires i <= |d|
  {
    if i == 0 then x0 else Next(nx, d[i - 1], StateAfter(nx, d, x0, u, i - 1), At(u, i - 1))
  }

  // ---- the blocks the controller stores ---------------------------------------------------------

  /** Block i of Aex. */
  function AexAt(nx: nat, d: seq<Discrete>, i: nat): Matrix
    requires i < |d|
  {
    if i == 0 then d[0].ad else MatMul(nx, nx, nx, d[i].ad, AexAt(nx, d, i - 1))
  }

  /** Block (i, j) of Bex: zero above the diagonal. */
  function BexAt(nx: nat, d: seq<Discrete>, i: nat, j: nat): Vec
    requires i < |d|
    decreases i
  {
    if j > i then Zero(nx)
    else if j == i then d[i].bd
    else MatVec(nx, nx, d[i].ad, BexAt(nx, d, i - 1, j))
  }

  /** Block i of Wex. */
  function WexAt(nx: nat, d: seq<Discrete>, i: nat): Vec
    requires i < |d|
  {
    if i == 0 then d[0].wd else Plus(nx, MatVec(nx, nx, d[i].ad, WexAt(nx, d, i - 1)), d[i].wd)
  }

  function BexRow(nx: nat, d: seq<Discrete>, i: nat, n: nat): (row: seq<Vec>)
    requires i < |d|
    ensures |row| == n
  {
    seq(n, j requires j >= 0 => BexAt(nx, d, i, j))
  }

  /** Block i of Aex x0 + Wex. */
  function Base(nx: nat, d: seq<Discrete>, x0: Vec, i: nat): (v: Vec)
    requires i < |d|
    ensures |v| == nx
  {
    Plus(nx, MatVec(nx, nx, AexAt(nx, d, i), x0), WexAt(nx, d, i))
  }

  /** Block i of Aex x0 + Bex u + Wex. */
  function Predicted(nx: nat, d: seq<Discrete>, x0: Vec, u: Vec, i: nat, n: nat): (v: Vec)
    requires i < |d|
    ensures |v| == nx
  {
    Plus(nx, Base(nx, d, x0, i), Combine(nx, u, BexRow(nx, d, i, n), n))
  }

  // ---- they predict the states ------------------------------------------------------------------

  lemma PlusNothing(n: nat, x: Vec, s: real)
    requires |x| == n
    ensures Plus(n, x, Scale(n, s, Zero(n))) == x
  {
    forall i | 0 <= i < n ensures Plus(n, x, Scale(n, s, Zero(n)))[i] == x[i] {
      assert Scale(n, s, Zero(n))[i] == 0.0;
    }
  }

  lemma {:induction false} CombineTail(n: nat, u: Vec, v: seq<Vec>, m: nat, count: nat)
    requires m <= count <= |v| && forall j :: m <= j < count ==> v[j] == Zero(n)
    ensures Combine(n, u, v, count) == Combine(n, u, v, m)
  {
    hide Plus, Scale, Zero;
    if m < count {
      CombineTail(n, u, v, m, count - 1);
      PlusNothing(n, Combine(n, u, v, count - 1), At(u, count - 1));
    }
  }

  lemma {:induction false} CombineEq(n: nat, u: Vec, v: seq<Vec>, w: seq<Vec>, count: nat)
    requires count <= |v| && count <= |w| && forall j :: 0 <= j < count ==> v[j] == w[j]
    ensures Combine(n, u, v, count) == Combine(n, u, w, count)
  {
    if count > 0 { CombineEq(n, u, v, w, count - 1); }
  }

  /** One step on: the earlier inputs' blocks are mapped by ad, the new input enters through bd. */
  lemma CombineNext(nx: nat, d: seq<Discrete>, u: Vec, i: nat, n: nat)
    requires 0 < i < n && i < |d|
    ensures Combine(nx, u, BexRow(nx, d, i, n), n)
         == Plus(nx, MatVec(nx, nx, d[i].ad, Combine(nx, u, BexRow(nx, d, i - 1, n), n)), Scale(nx, At(u, i), d[i].bd))
  {
    var row, prev := BexRow(nx, d, i, n), BexRow(nx, d, i - 1, n);
    CombineTail(nx, u, row, i + 1, n);
    CombineTail(nx, u, prev, i, n);
    MatVecCombine(nx, nx, d[i].ad, u, prev, row, i);
  }

  lemma Regroup(nx: nat, a: Vec, w: Vec, wd: Vec, c: Vec, s: Vec)
    ensures Plus(nx, Plus(nx, a, Plus(nx, w, wd)), Plus(nx, c, s))
      == Plus(nx, Plus(nx, Plus(nx, Plus(nx, a, w), c), s), wd)
  {
  }

  /** The condensed prediction is the state after i + 1 steps. */
  lemma {:induction false} Condensed(nx: nat, d: seq<Discrete>, x0: Vec, u: Vec, i: nat, n: nat)
    requires i < n <= |d| && forall k :: 0 <= k < |d| ==> Rectangular(d[k].ad, nx, nx)
    ensures Predicted(nx, d, x0, u, i, n) == StateAfter(nx, d, x0, u, i + 1)
  {
    hide Plus, Scale, MatVec, Combine, BexRow, Predicted, Next;
    if i == 0 {
      FirstStep(nx, d, x0, u, n);
      assert StateAfter(nx, d, x0, u, 1) == Next(nx, d[0], StateAfter(nx, d, x0, u, 0), At(u, 0));
    } else {
      Condensed(nx, d, x0, u, i - 1, n);
      CondensedStep(nx, d, x0, u, i, n);
    }
  }

  lemma FirstStep(nx: nat, d: seq<Discrete>, x0: Vec, u: Vec, n: nat)
    requires 0 < n <= |d|
    ensures Predicted(nx, d, x0, u, 0, n) == Next(nx, d[0], x0, At(u, 0))
  {
    hide MatVec;
    var row := BexRow(nx, d, 0, n);
    CombineTail(nx, u, row, 1, n);
    assert Combine(nx, u, row, 1) == Plus(nx, Combine(nx, u, row, 0), Scale(nx, At(u, 0), d[0].bd));
    var a, s := MatVec(nx, nx, d[0].ad, x0), Scale(nx, At(u, 0), d[0].bd);
    forall k | 0 <= k < nx ensures Predicted(nx, d, x0, u, 0, n)[k] == Next(nx, d[0], x0, At(u, 0))[k] {
      assert Combine(nx, u, row, 1)[k] == At(s, k);
    }
  }

  lemma CondensedStep(nx: nat, d: seq<Discrete>, x0: Vec, u: Vec, i: nat, n: nat)
    requires 0 < i < n <= |d|
    ensures Predicted(nx, d, x0, u, i, n) == Next(nx, d[i], Predicted(nx, d, x0, u, i - 1, n), At(u, i))
  {
    hide Plus, Scale, MatVec, Combine, BexRow, MatMul;
    var ad := d[i].ad;
    var base, inputs := Base(nx, d, x0, i - 1), Combine(nx, u, BexRow(nx, d, i - 1, n), n);
    MatVecPlus(nx, nx, ad, base, inputs);
    MatVecPlus(nx, nx, ad, MatVec(nx, nx, AexAt(nx, d, i - 1), x0), WexAt(nx, d, i - 1));
    MatMulVec(nx, nx, nx, ad, AexAt(nx, d, i - 1), x0);
    CombineNext(nx, d, u, i, n);
    Regroup(nx, MatVec(nx, nx, AexAt(nx, d, i), x0), MatVec(nx, nx, ad, WexAt(nx, d, i - 1)), d[i].wd,
            MatVec(nx, nx, ad, inputs), Scale(nx, At(u, i), d[i].bd));
  }
}
