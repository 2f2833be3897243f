/**
 * The exact condition under which the result is optimal: no cyclic exchange of columns that takes
 * part in a row starred on a stale zero lowers the cost.
 */
module HungarianExchange {
  import opened Sums
  import opened Matchings
  import opened HungarianSteps
  import opened HungarianInvariants
  import opened HungarianPhase
  import opened HungarianSolve
  import opened HungarianGuard

  /** The place after t on the cycle. */
  function Next(k: int, t: int): int {
    if t + 1 < k then t + 1 else 0
  }

  /** What row c[t] pays for the column of the next row of the cycle, less what it pays for its own. */
  ghost function Move(w: Matrix, p: seq<int>, c: seq<int>, t: int): real {
    Cell(w, To(c, t), To(p, To(c, Next(|c|, t)))) - Cell(w, To(c, t), To(p, To(c, t)))
  }

  /** What it costs when the distinct rows c pass their columns on, each taking that of the next. */
  ghost function ExchangeCost(w: Matrix, p: seq<int>, c: seq<int>): real {
    Sum(t => Move(w, p, c, t), |c|)
  }

  // ---- a cycle of rows exchanging columns ----------------------------------------------------

  ghost function Own(w: Matrix, p: seq<int>, c: seq<int>, t: int): real {
    Cell(w, To(c, t), To(p, To(c, t)))
  }

  ghost function Rotate(v: seq<real>, c: seq<int>, t: int): real {
    At(v, To(c, Next(|c|, t))) - At(v, To(c, t))
  }

  /** Around a cycle the differences of neighbours cancel. */
  lemma {:induction false} Telescope(v: seq<real>, c: seq<int>, m: nat)
    requires 0 < m <= |c|
    ensures Sum(t => Rotate(v, c, t), m) == At(v, To(c, Next(|c|, m - 1))) - At(v, To(c, 0))
  {
    var f := (t: int) => Rotate(v, c, t);
    SumEq(t => Rotate(v, c, t), f, m);
    if m > 1 {
      Telescope(v, c, m - 1);
      SumEq(t => Rotate(v, c, t), f, m - 1);
      assert Next(|c|, m - 2) == m - 1;
    } else {
      assert Sum(f, 1) == Sum(f, 0) + f(0);
    }
    assert Sum(f, m) == Sum(f, m - 1) + f(m - 1);
  }

  /** Row and column potentials cancel on a cycle, so its cost is that of the reduced weights. */
  lemma ExchangeReduced(base: Matrix, w: Matrix, n: nat, p: seq<int>, c: seq<int>)
    requires Reduced(base, w, n) && Permutation(p, n) && Injective(c, n) && |c| > 0
    ensures ExchangeCost(base, p, c) == ExchangeCost(w, p, c)
  {
    var u, v :| Shifted(base, w, n, u, v);
    var vp := seq(n, i requires 0 <= i < n => At(v, p[i]));
    Telescope(vp, c, |c|);
    var f := (t: int) => Move(w, p, c, t);
    var g := (t: int) => Rotate(vp, c, t);
    forall t | 0 <= t < |c| ensures Move(base, p, c, t) == f(t) + g(t) {
      var i, k := c[t], c[Next(|c|, t)];
      assert Cell(w, i, p[k]) == Cell(base, i, p[k]) - At(u, i) - At(v, p[k]);
      assert Cell(w, i, p[i]) == Cell(base, i, p[i]) - At(u, i) - At(v, p[i]);
      assert At(vp, i) == At(v, p[i]) && At(vp, k) == At(v, p[k]);
    }
    SumEq(t => Move(base, p, c, t), t => f(t) + g(t), |c|);
    SumAdd(f, g, |c|);
    SumEq(t => Move(w, p, c, t), f, |c|);
    SumEq(t => Rotate(vp, c, t), g, |c|);
  }

  /** A sum over all rows of terms that vanish off the distinct rows c is the sum along c. */
  lemma SumAlong(f: int -> real, n: nat, c: seq<int>)
    requires Injective(c, n) && forall i :: 0 <= i < n && i !in c ==> f(i) == 0.0
    ensures Sum(f, n) == Sum(t => f(To(c, t)), |c|)
  {
    var g := (i: int, t: int) => if To(c, t) == i then f(i) else 0.0;
    SumSwap(g, n, |c|);
    forall i | 0 <= i < n ensures Sum(t => g(i, t), |c|) == f(i) {
      if i in c {
        var t :| 0 <= t < |c| && c[t] == i;
        SumSingle(t => g(i, t), |c|, t);
      } else {
        SumZero(t => g(i, t), |c|);
      }
    }
    SumEq(i => Sum(t => g(i, t), |c|), f, n);
    forall t | 0 <= t < |c| ensures Sum(i => g(i, t), n) == f(To(c, t)) {
      SumSingle(i => g(i, t), n, c[t]);
    }
    SumEq(t => Sum(i => g(i, t), n), t => f(To(c, t)), |c|);
  }

  /** On the cycle, q gives every row the column that p gives the next row. */
  ghost predicate Follows(p: seq<int>, q: seq<int>, c: seq<int>) {
    forall t :: 0 <= t < |c| ==> To(q, To(c, t)) == To(p, To(c, Next(|c|, t)))
  }

  ghost predicate AgreeOff(p: seq<int>, q: seq<int>, n: nat, c: seq<int>) {
    forall i :: 0 <= i < n && i !in c ==> To(q, i) == To(p, i)
  }

  /** Two permutations that differ by a cycle differ in cost by that of the exchange. */
  lemma CycleGap(w: Matrix, n: nat, p: seq<int>, q: seq<int>, q': seq<int>, c: seq<int>)
    requires Injective(c, n) && Follows(p, q, c) && AgreeOff(q, q', n, c)
    requires forall t :: 0 <= t < |c| ==> To(q', To(c, t)) == To(p, To(c, t))
    ensures Cost(w, q, n) == Cost(w, q', n) + ExchangeCost(w, p, c)
  {
    var f := (i: int) => Cell(w, i, To(q, i)) - Cell(w, i, To(q', i));
    var g := (i: int) => Cell(w, i, To(q', i));
    SumEq(i => Cell(w, i, To(q, i)), i => g(i) + f(i), n);
    SumAdd(g, f, n);
    SumEq(i => Cell(w, i, To(q', i)), g, n);
    SumAlong(f, n, c);
    SumEq(t => f(To(c, t)), t => Move(w, p, c, t), |c|);
  }

  // ---- a cheaper assignment from a cheaper exchange -------------------------------------------

  /** Where row i stands on the cycle, -1 when it does not. */
  ghost function Place(c: seq<int>, i: int): (t: int)
    ensures t == -1 || (0 <= t < |c| && c[t] == i)
    ensures t == -1 <==> i !in c
  {
    if i in c then (var t :| 0 <= t < |c| && c[t] == i; t) else -1
  }

  /** The row whose column row i takes. */
  ghost function Successor(c: seq<int>, i: int): (k: int)
    ensures i !in c ==> k == i
    ensures i in c ==> k in c
  {
    var t := Place(c, i);
    if t == -1 then i else (assert c[Next(|c|, t)] in c; c[Next(|c|, t)])
  }

  /** Distinct rows have distinct successors. */
  lemma SuccessorApart(c: seq<int>, n: nat, i: int, k: int)
    requires Injective(c, n) && i != k
    ensures Successor(c, i) != Successor(c, k)
  {
    var t, m := Place(c, i), Place(c, k);
    if t != -1 && m != -1 {
      var t', m' := Next(|c|, t), Next(|c|, m);
      assert t' != m';
      assert c[t'] != c[m'];
    }
  }

  lemma Rotated(p: seq<int>, n: nat, c: seq<int>) returns (q: seq<int>)
    requires Permutation(p, n) && Injective(c, n)
    ensures Permutation(q, n) && Follows(p, q, c) && AgreeOff(p, q, n, c)
  {
    forall i | 0 <= i < n ensures 0 <= Successor(c, i) < n {
      if i in c { var t :| 0 <= t < |c| && c[t] == Successor(c, i); }
    }
    q := seq(n, i requires 0 <= i < n => p[Successor(c, i)]);
    forall i, k | 0 <= i < k < n ensures q[i] != q[k] { SuccessorApart(c, n, i, k); }
    forall t | 0 <= t < |c| ensures To(q, To(c, t)) == To(p, To(c, Next(|c|, t))) {
      assert c[t] in c && c[Place(c, c[t])] == c[t];
    }
  }

  // ---- every other permutation is reached by exchanges -----------------------------------------

  /** From a row that q moves, the rows whose columns q takes in turn close a cycle. */
  lemma CycleFrom(p: seq<int>, q: seq<int>, n: nat, start: int) returns (c: seq<int>)
    requires Permutation(p, n) && Permutation(q, n) && 0 <= start < n
    ensures Injective(c, n) && |c| > 0 && c[0] == start && Follows(p, q, c)
  {
    c := [start];
    PermutationHits(p, n, q[start]);
    var j :| 0 <= j < n && p[j] == q[start];
    while j != start
      invariant Injective(c, n) && |c| > 0 && c[0] == start
      invariant 0 <= j < n && p[j] == q[c[|c| - 1]]
      invariant forall t :: 0 <= t < |c| - 1 ==> q[c[t]] == p[c[t + 1]]
      decreases n - |c|
    {
      forall t | 0 < t < |c| ensures c[t] != j {
        var before := t - 1;
        assert q[c[before]] == p[c[before + 1]];
      }
      DistinctAvoiding(c, n, j);
      c := c + [j];
      PermutationHits(p, n, q[j]);
      j :| 0 <= j < n && p[j] == q[c[|c| - 1]];
    }
  }

  /** Undoing the cycle leaves a permutation that agrees with p on one row more. */
  lemma Undone(p: seq<int>, q: seq<int>, n: nat, c: seq<int>) returns (q': seq<int>)
    requires Permutation(p, n) && Permutation(q, n) && Injective(c, n) && |c| > 0 && Follows(p, q, c)
    ensures Permutation(q', n) && AgreeOff(q, q', n, c)
    ensures forall t :: 0 <= t < |c| ==> To(q', To(c, t)) == To(p, To(c, t))
  {
    q' := seq(n, i requires 0 <= i < n => if i in c then p[i] else q[i]);
    forall i, k | 0 <= i < n && 0 <= k < n && i in c && k !in c ensures q'[i] != q'[k] {
      var t :| 0 <= t < |c| && c[t] == i;
      var before := if t == 0 then |c| - 1 else t - 1;
      assert Next(|c|, before) == t && c[before] in c;
    }
  }

  ghost function Moved(p: seq<int>, q: seq<int>, n: nat): set<int> {
    set i | 0 <= i < n && To(p, i) != To(q, i)
  }

  /** No exchange that takes in a row with weight on its star lowers the cost. */
  ghost predicate ExchangeProof(w: Matrix, n: nat, p: seq<int>) {
    forall c :: Injective(c, n) && HeavyCycle(w, p, c) ==> ExchangeCost(w, p, c) >= 0.0
  }

  ghost predicate HeavyCycle(w: Matrix, p: seq<int>, c: seq<int>) {
    exists t :: 0 <= t < |c| && Own(w, p, c, t) > 0.0
  }

  /** An exchange among rows whose stars weigh nothing never lowers the cost. */
  lemma LightCycle(w: Matrix, n: nat, p: seq<int>, c: seq<int>)
    requires NonNegative(w, n) && Permutation(p, n) && Injective(c, n) && !HeavyCycle(w, p, c)
    ensures ExchangeCost(w, p, c) >= 0.0
  {
    forall t | 0 <= t < |c| ensures Move(w, p, c, t) >= 0.0 {
      assert Own(w, p, c, t) <= 0.0;
      assert Cell(w, c[t], p[c[Next(|c|, t)]]) >= 0.0;
    }
    SumNonNegative(t => Move(w, p, c, t), |c|);
  }

  lemma {:induction false} ExchangesSuffice(w: Matrix, n: nat, p: seq<int>, q: seq<int>)
    requires NonNegative(w, n) && ExchangeProof(w, n, p)
    requires Permutation(p, n) && Permutation(q, n)
    ensures Cost(w, p, n) <= Cost(w, q, n)
    decreases Moved(p, q, n)
  {
    if Moved(p, q, n) == {} {
      forall i | 0 <= i < n ensures To(p, i) == To(q, i) { assert i !in Moved(p, q, n); }
      SumEq(i => Cell(w, i, To(p, i)), i => Cell(w, i, To(q, i)), n);
    } else {
      var start :| start in Moved(p, q, n);
      var c := CycleFrom(p, q, n, start);
      var q' := Undone(p, q, n, c);
      CycleGap(w, n, p, q, q', c);
      if !HeavyCycle(w, p, c) { LightCycle(w, n, p, c); }
      assert To(q', To(c, 0)) == To(p, To(c, 0));
      MovedLess(p, q, q', n, c);
      ExchangesSuffice(w, n, p, q');
    }
  }

  lemma MovedLess(p: seq<int>, q: seq<int>, q': seq<int>, n: nat, c: seq<int>)
    requires AgreeOff(q, q', n, c) && |c| > 0 && c[0] in Moved(p, q, n)
    requires forall t :: 0 <= t < |c| ==> To(q', To(c, t)) == To(p, To(c, t))
    ensures Moved(p, q', n) < Moved(p, q, n)
  {
    forall i | i in c ensures To(q', i) == To(p, i) {
      var t :| 0 <= t < |c| && c[t] == i;
      assert To(q', To(c, t)) == To(p, To(c, t));
    }
    assert To(q', To(c, 0)) == To(p, To(c, 0));
    assert c[0] !in Moved(p, q', n);
  }

  // ---- when the result is optimal --------------------------------------------------------------

  /** The cycle takes in a row whose star was a stale zero when it was primed. */
  ghost predicate StaleCycle(base: Matrix, mins: seq<int>, rows: nat, n: nat, r: State, c: seq<int>)
    requires Input(base, mins, rows, n)
  {
    exists t :: 0 <= t < |c| && StaleRow(base, mins, rows, n, r, c[t])
  }

  lemma StaleCycleIff(base: Matrix, mins: seq<int>, rows: nat, n: nat, r: State, c: seq<int>)
    requires Result(base, mins, rows, n, r) && Injective(c, n)
    ensures StaleCycle(base, mins, rows, n, r, c) <==> HeavyCycle(r.w, r.assignment, c)
  {
    hide Solved, StaleRow, Dual, Stars;
    forall t | 0 <= t < |c|
      ensures StaleRow(base, mins, rows, n, r, c[t]) <==> Own(r.w, r.assignment, c, t) > 0.0
    {
      StaleRowIff(base, mins, rows, n, r, c[t]);
    }
  }

  /**
   * The result is optimal exactly when no exchange that takes in a stale row lowers the cost of the
   * given weights. Padding rows stand for the columns no real row has.
   */
  lemma OptimalIff(base: Matrix, mins: seq<int>, rows: nat, n: nat, r: State)
    requires Result(base, mins, rows, n, r)
    ensures Optimal(base, rows, n, r.assignment) <==>
            forall c :: Injective(c, n) && StaleCycle(base, mins, rows, n, r, c) ==>
                          ExchangeCost(base, r.assignment, c) >= 0.0
  {
    ResultIsPermutation(base, mins, rows, n, r);
    var p := r.assignment;
    hide Result, StaleRow, StaleCycle, Input, Stars, Optimal, ExchangeCost, HeavyCycle;
    forall c | Injective(c, n) && |c| > 0 ensures ExchangeCost(base, p, c) == ExchangeCost(r.w, p, c) {
      ExchangeReduced(base, r.w, n, p, c);
    }
    forall c | Injective(c, n) ensures StaleCycle(base, mins, rows, n, r, c) <==> HeavyCycle(r.w, p, c) {
      StaleCycleIff(base, mins, rows, n, r, c);
    }
    OptimalInReducedWeights(base, mins, rows, n, r);
    if Optimal(base, rows, n, p) {
      forall c | Injective(c, n) && StaleCycle(base, mins, rows, n, r, c) ensures ExchangeCost(base, p, c) >= 0.0 {
        var q := Rotated(p, n, c);
        RotatedGap(r.w, n, p, q, c);
      }
    } else if forall c :: Injective(c, n) && StaleCycle(base, mins, rows, n, r, c) ==> ExchangeCost(base, p, c) >= 0.0 {
      forall q | Permutation(q, n) ensures Cost(r.w, p, n) <= Cost(r.w, q, n) {
        ExchangesSuffice(r.w, n, p, q);
      }
    }
  }

  lemma RotatedGap(w: Matrix, n: nat, p: seq<int>, q: seq<int>, c: seq<int>)
    requires Permutation(p, n) && Injective(c, n) && Follows(p, q, c) && AgreeOff(p, q, n, c)
    ensures Cost(w, q, n) == Cost(w, p, n) + ExchangeCost(w, p, c)
  {
    assert AgreeOff(q, p, n, c);
    CycleGap(w, n, p, q, p, c);
  }
}
