/**
 * Inputs on which no zero ever goes stale: those whose row minima can be taken in distinct columns.
 */
module HungarianOptimality {
  import opened Matchings
  import opened HungarianSteps
  import opened HungarianInvariants
  import opened HungarianPhase
  import opened HungarianSolve
  import opened HungarianGuard

  // ---- row minima in distinct columns: reached whenever they can be reached -----------------

  ghost predicate LeastInRow(base: Matrix, n: nat, i: int, c: int) {
    forall j :: 0 <= j < n ==> Cell(base, i, c) <= Cell(base, i, j)
  }

  /** Every real row is given a column of least weight. */
  ghost predicate AtRowMinima(base: Matrix, rows: nat, n: nat, q: seq<int>) {
    forall i :: 0 <= i < rows ==> LeastInRow(base, n, i, To(q, i))
  }

  ghost predicate ZeroPermutation(w: Matrix, n: nat, p: seq<int>) {
    Permutation(p, n) && forall i :: 0 <= i < n ==> Cell(w, i, p[i]) == 0.0
  }

  /** The starred row that stands for line k: row k itself when covered, else the row starring column p[k]. */
  ghost predicate Hides(s: State, n: nat, p: seq<int>, k: int, m: int)
    requires Shape(s, n) && |p| == n
  {
    && 0 <= k < n && 0 <= m < n
    && if s.rowCov[k] then m == k else s.assignment[m] == p[k] && !s.rowCov[m]
  }

  ghost predicate Hidden(s: State, n: nat, p: seq<int>, k: int)
    requires Shape(s, n) && |p| == n
  {
    exists m :: Hides(s, n, p, k, m)
  }

  lemma HiddenRow(s: State, n: nat, p: seq<int>, k: int)
    requires Stars(s, n) && Covers(s, n) && CoveredColumnsStarred(s, n) && Permutation(p, n)
    requires 0 <= k < n && (s.rowCov[k] || s.colCov[p[k]])
    ensures Hidden(s, n, p, k)
  {
    if s.rowCov[k] {
      assert Hides(s, n, p, k, k);
    } else {
      var m :| 0 <= m < n && s.assignment[m] == p[k];
      assert Hides(s, n, p, k, m);
    }
  }

  /** Distinct lines are hidden by distinct starred rows. */
  lemma HiddenApart(s: State, n: nat, p: seq<int>, a: int, b: int, ma: int, mb: int)
    requires Stars(s, n) && Permutation(p, n) && a != b
    requires Hides(s, n, p, a, ma) && Hides(s, n, p, b, mb)
    ensures ma != mb
  {
  }

  lemma HiddenPermutation(s: State, n: nat, p: seq<int>, hidden: seq<int>)
    requires Stars(s, n) && Permutation(p, n) && |hidden| == n
    requires forall k :: 0 <= k < n ==> Hides(s, n, p, k, hidden[k])
    ensures Permutation(hidden, n)
  {
    forall a, b | 0 <= a < b < n ensures hidden[a] != hidden[b] {
      HiddenApart(s, n, p, a, b, hidden[a], hidden[b]);
    }
  }

  /** Covers that hide a whole permutation leave no row without a star. */
  lemma AllHidden(s: State, n: nat, p: seq<int>)
    requires Stars(s, n) && Covers(s, n) && CoveredColumnsStarred(s, n) && Permutation(p, n)
    requires forall k :: 0 <= k < n ==> s.rowCov[k] || s.colCov[p[k]]
    ensures forall i :: 0 <= i < n ==> s.assignment[i] != UNASSIGNED
  {
    forall k | 0 <= k < n ensures Hidden(s, n, p, k) { HiddenRow(s, n, p, k); }
    var hidden := seq(n, k requires 0 <= k < n => assert Hidden(s, n, p, k); var m :| Hides(s, n, p, k, m); m);
    HiddenPermutation(s, n, p, hidden);
    forall i | 0 <= i < n ensures s.assignment[i] != UNASSIGNED {
      PermutationHits(hidden, n, i);
      var k :| 0 <= k < n && hidden[k] == i;
      assert Hides(s, n, p, k, i);
    }
  }

  /** So the covers of a priming phase hide no whole permutation. */
  lemma PermutationUncovered(s: State, n: nat, p: seq<int>) returns (i: int)
    requires Priming(s, n) && CoveredColumnsStarred(s, n) && Permutation(p, n)
    ensures 0 <= i < n && !s.rowCov[i] && !s.colCov[p[i]]
  {
    if forall k :: 0 <= k < n ==> s.rowCov[k] || s.colCov[p[k]] {
      AllHidden(s, n, p);
    }
    i :| 0 <= i < n && !s.rowCov[i] && !s.colCov[p[i]];
  }

  /** With a permutation of zero cells the minimum added is zero, so no weight ever moves. */
  lemma StepTight(s: State, n: nat, p: seq<int>, at: Loc)
    requires Priming(s, n) && CoveredColumnsStarred(s, n) && Picked(s, n, at)
    requires NonNegative(s.w, n) && ZeroMarks(s, n) && ZeroPermutation(s.w, n, p)
    ensures PrimeStep(s, n, at).w == s.w && ZeroMarks(PrimeStep(s, n, at), n)
    ensures CoveredColumnsStarred(PrimeStep(s, n, at), n)
  {
    if !HasOpenZero(s, n) {
      var i := PermutationUncovered(s, n, p);
      assert OpenLink(s, n, Loc(i, p[i]));
      assert Cell(s.w, at.row, at.col) >= 0.0 && Cell(s.w, i, p[i]) == 0.0;
      forall k | 0 <= k < n ensures AddZero(s, n, at).w[k] == s.w[k] {}
      assert AddZero(s, n, at).w == s.w;
    }
    StepFrame(s, n, at);
  }

  lemma {:induction false} PhaseTight(s: State, n: nat, p: seq<int>, r: State, last: Loc, steps: nat)
    requires Priming(s, n) && CoveredColumnsStarred(s, n) && Phase(s, n, r, last, steps)
    requires NonNegative(s.w, n) && ZeroMarks(s, n) && ZeroPermutation(s.w, n, p)
    ensures Shape(r, n) && r.w == s.w && ZeroMarks(r, n)
    decreases steps
  {
    hide Stars, PrimesListed, PrimesOrdered, Covers, Unfinished, Picked, CoveredColumnsStarred, ZeroMarks,
      ZeroPermutation, NonNegative;
    var at :| PhaseVia(s, n, at, r, last, steps);
    StepTight(s, n, p, at);
    if 0 <= s.assignment[at.row] < n {
      StepPrimes(s, n, at);
      PhaseTight(PrimeStep(s, n, at), n, p, r, last, steps - 1);
    }
  }

  lemma PassTight(s: State, n: nat, p: seq<int>, mid: State, last: Loc, steps: nat, next: State)
    requires Settled(s, n) && Priming(s, n) && !AllCovered(s, n) && Dual(s.w, s.w, n)
    requires Pass(s, n, mid, last, steps, next)
    requires ZeroMarks(s, n) && ZeroPermutation(s.w, n, p)
    ensures Settled(next, n) && next.w == s.w && ZeroMarks(next, n)
  {
    PhaseTight(s, n, p, mid, last, steps);
    PassAddsStar(s.w, s, n, mid, last, steps, next);
    hide Stars, Dual, PrimesListed, PrimesOrdered, Covers, Unfinished, ZeroPermutation, ZeroMarks, Phase;
    PhaseKeeps(s.w, s, n, mid, last, steps);
    FlipKeepsZeroMarks(mid, n);
  }

  lemma {:induction false} SolveTight(s: State, n: nat, p: seq<int>, r: State, passes: nat)
    requires Settled(s, n) && Dual(s.w, s.w, n) && Solved(s, n, r, passes)
    requires ZeroMarks(s, n) && ZeroPermutation(s.w, n, p)
    ensures Shape(r, n) && r.w == s.w && ZeroMarks(r, n)
    decreases passes
  {
    if !AllCovered(s, n) {
      var mid, last, steps, next :| SolvedVia(s, n, mid, last, steps, next, r, passes);
      SettledStarts(s, n);
      PassTight(s, n, p, mid, last, steps, next);
      hide Stars, Dual, ZeroPermutation, ZeroMarks;
      SolveTight(next, n, p, r, passes - 1);
    }
  }

  lemma ReducedRowZero(base: Matrix, mins: seq<int>, rows: nat, n: nat, q: seq<int>)
    requires Input(base, mins, rows, n) && Permutation(q, n)
    ensures AtRowMinima(base, rows, n, q) <==> ZeroPermutation(RowReduced(base, mins, rows, n), n, q)
  {
    var w := RowReduced(base, mins, rows, n);
    forall i | 0 <= i < rows
      ensures Cell(w, i, q[i]) == 0.0 <==> LeastInRow(base, n, i, To(q, i))
    {
      assert Cell(base, i, mins[i]) <= Cell(base, i, q[i]);
    }
    if AtRowMinima(base, rows, n, q) {
      forall i | 0 <= i < n ensures Cell(w, i, q[i]) == 0.0 {}
    }
  }

  lemma PrefixMinima(base: Matrix, rows: nat, n: nat, p: seq<int>, q: seq<int>)
    requires rows <= |p| && p <= q
    ensures AtRowMinima(base, rows, n, p) <==> AtRowMinima(base, rows, n, q)
  {
    forall i | 0 <= i < rows ensures To(p, i) == To(q, i) {}
  }

  /**
   * The result takes a least-weight column in every real row exactly when some choice of distinct
   * columns does; and then no zero went stale, and the result is optimal.
   */
  lemma RowMinimaIff(base: Matrix, mins: seq<int>, rows: nat, n: nat, r: State)
    requires Result(base, mins, rows, n, r)
    ensures AtRowMinima(base, rows, n, r.assignment) <==>
            exists q :: |q| == rows && Injective(q, n) && AtRowMinima(base, rows, n, q)
    ensures AtRowMinima(base, rows, n, r.assignment) ==>
              NeverStale(base, mins, rows, n, r) && Optimal(base, rows, n, r.assignment)
  {
    ResultIsPermutation(base, mins, rows, n, r);
    hide Result, Solved, NeverStale, Optimal, Dual, Stars;
    if AtRowMinima(base, rows, n, r.assignment) {
      var q := r.assignment[..rows];
      PrefixMinima(base, rows, n, q, r.assignment);
      assert Injective(q, n) && AtRowMinima(base, rows, n, q);
    }
    if q :| |q| == rows && Injective(q, n) && AtRowMinima(base, rows, n, q) {
      ReachesRowMinima(base, mins, rows, n, r, q);
      NeverStaleIsOptimal(base, mins, rows, n, r);
    }
  }

  lemma ReachesRowMinima(base: Matrix, mins: seq<int>, rows: nat, n: nat, r: State, q: seq<int>)
    requires Result(base, mins, rows, n, r)
    requires |q| == rows && Injective(q, n) && AtRowMinima(base, rows, n, q)
    ensures AtRowMinima(base, rows, n, r.assignment) && NeverStale(base, mins, rows, n, r)
  {
    var s := Initial(base, mins, rows, n);
    var full := Completion(q, n);
    PrefixMinima(base, rows, n, q, full);
    ReducedRowZero(base, mins, rows, n, full);
    InitialDual(base, mins, rows, n);
    RowsStarredSettled(base, mins, rows, n, n);
    var zero := seq(n, i => 0.0);
    assert Shifted(s.w, s.w, n, zero, zero);
    var passes :| Solved(s, n, r, passes);
    SolveTight(s, n, full, r, passes);
    ResultIsPermutation(base, mins, rows, n, r);
    ReducedRowZero(base, mins, rows, n, r.assignment);
    NeverStaleIff(base, mins, rows, n, r);
  }
}
