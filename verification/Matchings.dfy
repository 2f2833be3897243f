/** Assignments of rows to distinct columns, and what they cost under a weight matrix. */
module Matchings {
  import opened Sums

  type Matrix = seq<seq<real>>

  predicate Rectangular<T>(m: seq<seq<T>>, rows: nat, cols: nat) {
    |m| == rows && forall i :: 0 <= i < rows ==> |m[i]| == cols
  }

  function Cell(w: Matrix, i: int, j: int): real {
    if 0 <= i < |w| && 0 <= j < |w[i]| then w[i][j] else 0.0
  }

  /** p sends each of its rows to a column below n, no column twice. */
  predicate Injective(p: seq<int>, n: nat) {
    && (forall i :: 0 <= i < |p| ==> 0 <= p[i] < n)
    && (forall i, k :: 0 <= i < k < |p| ==> p[i] != p[k])
  }

  predicate Permutation(p: seq<int>, n: nat) {
    |p| == n && Injective(p, n)
  }

  function At(v: seq<real>, i: int): real {
    if 0 <= i < |v| then v[i] else 0.0
  }

  function To(p: seq<int>, i: int): int {
    if 0 <= i < |p| then p[i] else -1
  }

  /** What the assignment p of the first `rows` rows costs. */
  function Cost(w: Matrix, p: seq<int>, rows: nat): real {
    Sum(i => Cell(w, i, To(p, i)), rows)
  }

  /** Distinct values below n, none of them equal to `missing`, number fewer than n. */
  lemma DistinctAvoiding(p: seq<int>, n: nat, missing: int)
    requires Injective(p, n)
    requires 0 <= missing < n && missing !in p
    ensures |p| < n
  {
    var image := set i | 0 <= i < |p| :: p[i];
    var all := Below(n);
    ImageSize(p, n);
    assert image <= all - {missing};
    SubsetSize(image, all - {missing});
  }

  function Below(n: nat): (all: set<int>)
    ensures forall i :: i in all <==> 0 <= i < n
    ensures |all| == n
  {
    if n == 0 then {} else Below(n - 1) + {n - 1}
  }

  lemma {:induction false} SubsetSize<T>(a: set<T>, b: set<T>)
    requires a <= b
    ensures |a| <= |b|
    ensures |a| == |b| ==> a == b
  {
    if a != {} {
      var x :| x in a;
      SubsetSize(a - {x}, b - {x});
    }
  }

  lemma {:induction false} ImageSize(p: seq<int>, n: nat)
    requires Injective(p, n)
    ensures |set i | 0 <= i < |p| :: p[i]| == |p|
  {
    if |p| > 0 {
      var last := |p| - 1;
      ImageSize(p[..last], n);
      var image := set i | 0 <= i < |p| :: p[i];
      var before := set i | 0 <= i < last :: p[..last][i];
      forall x | x in image ensures x in before + {p[last]} {
        var i :| 0 <= i < |p| && p[i] == x;
        if i < last { assert p[..last][i] == x; }
      }
      assert image == before + {p[last]};
      assert p[last] !in before;
    }
  }

  /** Pigeonhole: as many distinct columns as there are columns use every column. */
  lemma PermutationHits(p: seq<int>, n: nat, j: int)
    requires Permutation(p, n)
    requires 0 <= j < n
    ensures j in p
  {
    if j !in p { DistinctAvoiding(p, n, j); }
  }

  /** Rows assigned to distinct columns can always be completed to a permutation. */
  lemma {:induction false} Completion(p: seq<int>, n: nat) returns (q: seq<int>)
    requires Injective(p, n) && |p| <= n
    ensures Permutation(q, n) && p <= q
    decreases n - |p|
  {
    if |p| == n {
      q := p;
    } else {
      var image := set i | 0 <= i < |p| :: p[i];
      var all := Below(n);
      ImageSize(p, n);
      if forall j :: 0 <= j < n ==> j in image {
        assert all <= image;
        SubsetSize(all, image);
      }
      var j :| 0 <= j < n && j !in image;
      forall i | 0 <= i < |p| ensures p[i] != j { assert p[i] in image; }
      q := Completion(p + [j], n);
    }
  }

  /** Reindexing a sum along a permutation does not change it. */
  lemma PermutedSum(v: seq<real>, p: seq<int>, n: nat)
    requires Permutation(p, n)
    ensures Sum(i => At(v, To(p, i)), n) == Sum(j => At(v, j), n)
  {
    var f := (i: int, j: int) => if To(p, i) == j then At(v, j) else 0.0;
    SumSwap(f, n, n);
    forall i | 0 <= i < n ensures Sum(j => f(i, j), n) == At(v, To(p, i)) {
      SumSingle(j => f(i, j), n, To(p, i));
    }
    SumEq(i => Sum(j => f(i, j), n), i => At(v, To(p, i)), n);
    forall j | 0 <= j < n ensures Sum(i => f(i, j), n) == At(v, j) {
      PermutationHits(p, n, j);
      var k :| 0 <= k < n && p[k] == j;
      SumSingle(i => f(i, j), n, k);
    }
    SumEq(j => Sum(i => f(i, j), n), j => At(v, j), n);
  }

  /** w is `base` with a number taken off each row and each column. */
  ghost predicate Shifted(base: Matrix, w: Matrix, n: nat, u: seq<real>, v: seq<real>) {
    forall i, j :: 0 <= i < n && 0 <= j < n ==> Cell(w, i, j) == Cell(base, i, j) - At(u, i) - At(v, j)
  }

  ghost predicate Reduced(base: Matrix, w: Matrix, n: nat) {
    exists u, v :: Shifted(base, w, n, u, v)
  }

  ghost predicate NonNegative(w: Matrix, n: nat) {
    forall i, j :: 0 <= i < n && 0 <= j < n ==> Cell(w, i, j) >= 0.0
  }

  /** Row and column shifts move the cost of every permutation by one and the same amount. */
  lemma ShiftedCost(base: Matrix, w: Matrix, n: nat, u: seq<real>, v: seq<real>, p: seq<int>)
    requires Shifted(base, w, n, u, v)
    requires Permutation(p, n)
    ensures Cost(base, p, n) == Cost(w, p, n) + Sum(i => At(u, i), n) + Sum(j => At(v, j), n)
  {
    var a := (i: int) => Cell(w, i, To(p, i));
    var b := (i: int) => At(u, i);
    var c := (i: int) => At(v, To(p, i));
    SumAdd(a, b, n);
    SumAdd(i => a(i) + b(i), c, n);
    SumEq(i => Cell(base, i, To(p, i)), i => (i => a(i) + b(i))(i) + c(i), n);
    SumEq(i => Cell(w, i, To(p, i)), a, n);
    SumEq(i => At(v, To(p, i)), c, n);
    PermutedSum(v, p, n);
  }

  lemma SameGap(base: Matrix, w: Matrix, n: nat, p: seq<int>, q: seq<int>)
    requires Reduced(base, w, n)
    requires Permutation(p, n) && Permutation(q, n)
    ensures Cost(base, p, n) - Cost(base, q, n) == Cost(w, p, n) - Cost(w, q, n)
  {
    var u, v :| Shifted(base, w, n, u, v);
    ShiftedCost(base, w, n, u, v, p);
    ShiftedCost(base, w, n, u, v, q);
  }

  lemma CostNonNegative(w: Matrix, n: nat, p: seq<int>)
    requires NonNegative(w, n) && Permutation(p, n)
    ensures Cost(w, p, n) >= 0.0
  {
    SumNonNegative(i => Cell(w, i, To(p, i)), n);
  }

  // ---- matrix buffers --------------------------------------------------------------------------

  /** The top left n x n block of a matrix buffer. */
  function Block<T>(a: array2<T>, n: nat): (b: seq<seq<T>>)
    requires n <= a.Length0 && n <= a.Length1
    reads a
    ensures Rectangular(b, n, n)
    ensures forall i, j :: 0 <= i < n && 0 <= j < n ==> b[i][j] == a[i, j]
  {
    seq(n, i requires 0 <= i < n reads a => seq(n, j requires 0 <= j < n reads a => a[i, j]))
  }

  lemma SameBlock<T>(a: seq<seq<T>>, b: seq<seq<T>>, n: nat)
    requires Rectangular(a, n, n) && Rectangular(b, n, n)
    requires forall i, j :: 0 <= i < n && 0 <= j < n ==> a[i][j] == b[i][j]
    ensures a == b
  {
    forall i | 0 <= i < n ensures a[i] == b[i] {}
  }
}
