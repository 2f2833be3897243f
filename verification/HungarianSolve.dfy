/** The whole of `assign`: the initial reduction, the phases, and what the result costs. */
module HungarianSolve {
  import opened Sums
  import opened Matchings
  import opened HungarianSteps
  import opened HungarianInvariants
  import opened HungarianPhase
  import opened HungarianAugment

  // ---- the initial reduction ---------------------------------------------------------------

  /** c is the first column holding the least weight of the row. */
  ghost predicate RowMinimum(row: seq<real>, c: int) {
    && 0 <= c < |row|
    && (forall j :: 0 <= j < |row| ==> row[c] <= row[j])
    && (forall j :: 0 <= j < c ==> row[c] < row[j])
  }

  /** `rows` rows of weights above n - rows rows of padding zeros, with the minimum of each real row. */
  ghost predicate Input(base: Matrix, mins: seq<int>, rows: nat, n: nat) {
    && rows <= n && Rectangular(base, n, n) && |mins| == rows
    && (forall i :: 0 <= i < rows ==> RowMinimum(base[i], mins[i]))
    && (forall i, j :: rows <= i < n && 0 <= j < n ==> base[i][j] == 0.0)
  }

  lemma FirstMinimumUnique(row: seq<real>, c: int, d: int)
    requires RowMinimum(row, c) && RowMinimum(row, d)
    ensures c == d
  {
    assert row[c] <= row[d] <= row[c];
  }

  /** A matrix has one list of first minima. */
  lemma MinimaUnique(base: Matrix, mins: seq<int>, mins': seq<int>, rows: nat, n: nat)
    requires Input(base, mins, rows, n) && Input(base, mins', rows, n)
    ensures mins == mins'
  {
    forall i | 0 <= i < rows ensures mins[i] == mins'[i] {
      FirstMinimumUnique(base[i], mins[i], mins'[i]);
    }
  }

  ghost function RowReduced(base: Matrix, mins: seq<int>, rows: nat, n: nat): (w: Matrix)
    requires Input(base, mins, rows, n)
    ensures Rectangular(w, n, n)
  {
    seq(n, i requires 0 <= i < n => seq(n, j requires 0 <= j < n =>
      if i < rows then base[i][j] - base[i][mins[i]] else base[i][j]))
  }

  ghost function Unstarred(base: Matrix, mins: seq<int>, rows: nat, n: nat): (s: State)
    requires Input(base, mins, rows, n)
    ensures Shape(s, n)
  {
    State(RowReduced(base, mins, rows, n),
          seq(n, i => seq(n, j => if i < rows then Unmarked else Zero)),
          seq(n, i => UNASSIGNED), seq(n, i => false), seq(n, i => false), [])
  }

  /** A real row marks its minimum, and stars it when the column is still free. */
  ghost function StarMinimum(s: State, n: nat, i: int, c: int): (r: State)
    requires Shape(s, n) && 0 <= i < n && 0 <= c < n
    ensures Shape(r, n)
  {
    if s.colCov[c] then s.(mark := Put(s.mark, Loc(i, c), Zero))
    else s.(mark := Put(s.mark, Loc(i, c), Starred), colCov := s.colCov[c := true], assignment := s.assignment[i := c])
  }

  ghost function MinimaStarred(base: Matrix, mins: seq<int>, rows: nat, n: nat, k: nat): (s: State)
    requires Input(base, mins, rows, n) && k <= rows
    ensures Shape(s, n)
  {
    if k == 0 then Unstarred(base, mins, rows, n)
    else StarMinimum(MinimaStarred(base, mins, rows, n, k - 1), n, k - 1, mins[k - 1])
  }

  ghost predicate FirstFree(s: State, n: nat, j: int)
    requires Shape(s, n)
  {
    0 <= j < n && !s.colCov[j] && forall k :: 0 <= k < j ==> s.colCov[k]
  }

  /** A padding row stars the first free column. */
  ghost function StarFree(s: State, n: nat, i: int): (r: State)
    requires Shape(s, n) && 0 <= i < n
    ensures Shape(r, n)
  {
    if j :| FirstFree(s, n, j)
    then s.(mark := Put(s.mark, Loc(i, j), Starred), colCov := s.colCov[j := true], assignment := s.assignment[i := j])
    else s
  }

  ghost function RowsStarred(base: Matrix, mins: seq<int>, rows: nat, n: nat, k: nat): (s: State)
    requires Input(base, mins, rows, n) && rows <= k <= n
    ensures Shape(s, n)
    decreases k
  {
    if k == rows then MinimaStarred(base, mins, rows, n, rows)
    else StarFree(RowsStarred(base, mins, rows, n, k - 1), n, k - 1)
  }

  /** The state `assign` enters its loop with. */
  ghost function Initial(base: Matrix, mins: seq<int>, rows: nat, n: nat): (s: State)
    requires Input(base, mins, rows, n)
    ensures Shape(s, n)
  {
    RowsStarred(base, mins, rows, n, n)
  }

  ghost predicate StarredBelow(s: State, n: nat, k: nat) {
    Settled(s, n) && forall i :: k <= i < n ==> s.assignment[i] == UNASSIGNED
  }

  lemma StarKeepsSettled(s: State, n: nat, k: nat, c: int)
    requires StarredBelow(s, n, k) && k < n && 0 <= c < n
    ensures StarredBelow(StarMinimum(s, n, k, c), n, k + 1)
  {
    var r := StarMinimum(s, n, k, c);
    if !s.colCov[c] {
      forall j | 0 <= j < n ensures r.colCov[j] <==> j in r.assignment {
        if j == c {
          assert r.assignment[k] == c;
        } else if s.colCov[j] {
          var i :| 0 <= i < n && s.assignment[i] == j;
          assert r.assignment[i] == j;
        }
      }
    }
  }

  /** Every marked cell has reduced weight zero. */
  ghost predicate ZeroMarks(s: State, n: nat)
    requires Shape(s, n)
  {
    forall i, j :: 0 <= i < n && 0 <= j < n && s.mark[i][j] != Unmarked ==> s.w[i][j] == 0.0
  }

  ghost predicate Starring(s: State, w: Matrix, n: nat, k: nat) {
    StarredBelow(s, n, k) && s.w == w && ZeroMarks(s, n)
  }

  lemma StarMinimumKeeps(s: State, w: Matrix, n: nat, k: nat, c: int)
    requires Starring(s, w, n, k) && k < n && 0 <= c < n && w[k][c] == 0.0
    ensures Starring(StarMinimum(s, n, k, c), w, n, k + 1)
  {
    StarKeepsSettled(s, n, k, c);
  }

  lemma StarFreeKeeps(s: State, w: Matrix, n: nat, k: nat)
    requires Starring(s, w, n, k) && k < n && forall j :: 0 <= j < n ==> w[k][j] == 0.0
    ensures Starring(StarFree(s, n, k), w, n, k + 1)
  {
    if j :| FirstFree(s, n, j) {
      StarMinimumKeeps(s, w, n, k, j);
    }
  }

  lemma UnstarredSettled(base: Matrix, mins: seq<int>, rows: nat, n: nat)
    requires Input(base, mins, rows, n)
    ensures Starring(Unstarred(base, mins, rows, n), RowReduced(base, mins, rows, n), n, 0)
  {
  }

  lemma {:induction false} RowsStarredSettled(base: Matrix, mins: seq<int>, rows: nat, n: nat, k: nat)
    requires Input(base, mins, rows, n) && k <= n
    ensures var s := if k <= rows then MinimaStarred(base, mins, rows, n, k) else RowsStarred(base, mins, rows, n, k);
            Starring(s, RowReduced(base, mins, rows, n), n, k)
    decreases k
  {
    hide Starring, StarMinimum, StarFree;
    var w := RowReduced(base, mins, rows, n);
    if k == 0 {
      UnstarredSettled(base, mins, rows, n);
    } else {
      RowsStarredSettled(base, mins, rows, n, k - 1);
      if k <= rows {
        StarMinimumKeeps(MinimaStarred(base, mins, rows, n, k - 1), w, n, k - 1, mins[k - 1]);
      } else {
        StarFreeKeeps(RowsStarred(base, mins, rows, n, k - 1), w, n, k - 1);
      }
    }
  }

  /** Subtracting each row's minimum gives non-negative weights that are zero at every mark. */
  lemma InitialDual(base: Matrix, mins: seq<int>, rows: nat, n: nat)
    requires Input(base, mins, rows, n)
    ensures Settled(Initial(base, mins, rows, n), n)
    ensures Dual(base, Initial(base, mins, rows, n).w, n)
  {
    RowsStarredSettled(base, mins, rows, n, n);
    var w := Initial(base, mins, rows, n).w;
    var u := seq(n, i requires 0 <= i < n => if i < rows then base[i][mins[i]] else 0.0);
    var v := seq(n, j => 0.0);
    assert Shifted(base, w, n, u, v);
  }

  // ---- the phases --------------------------------------------------------------------------

  /** One pass of the loop: a priming phase, then the flip along the path it found. */
  ghost predicate Pass(s: State, n: nat, mid: State, last: Loc, steps: nat, r: State)
    requires Shape(s, n)
  {
    && Phase(s, n, mid, last, steps)
    && Shape(mid, n) && |mid.primes| > 0
    && r == Augmented(mid, n, FullPath(mid, n))
  }

  ghost predicate Solved(s: State, n: nat, r: State, passes: nat)
    requires Shape(s, n)
    decreases passes, 1
  {
    if AllCovered(s, n) then passes == 0 && r == s
    else passes > 0 && exists mid, last, steps, next :: SolvedVia(s, n, mid, last, steps, next, r, passes)
  }

  ghost predicate SolvedVia(s: State, n: nat, mid: State, last: Loc, steps: nat, next: State, r: State, passes: nat)
    requires Shape(s, n)
    decreases passes, 0
  {
    && Pass(s, n, mid, last, steps, next)
    && Shape(next, n) && passes > 0
    && Solved(next, n, r, passes - 1)
  }

  /** A pass stars exactly one more row and keeps the dual. */
  lemma PassAddsStar(base: Matrix, s: State, n: nat, mid: State, last: Loc, steps: nat, r: State)
    requires Settled(s, n) && !AllCovered(s, n) && Dual(base, s.w, n)
    requires Pass(s, n, mid, last, steps, r)
    ensures Settled(r, n) && Dual(base, r.w, n)
    ensures |StarredRows(r.assignment)| == |StarredRows(s.assignment)| + 1
    ensures steps <= n
  {
    SettledStarts(s, n);
    PhaseKeeps(base, s, n, mid, last, steps);
    AugmentSettles(mid, n);
    AugmentAddsOneRow(mid, n);
    PrimeCount(mid, n);
  }

  lemma PrimeCount(s: State, n: nat)
    requires PhaseDone(s, n)
    ensures |s.primes| <= n
  {
    var rows := seq(|s.primes|, t requires 0 <= t < |s.primes| => s.primes[t].row);
    ImageSize(rows, n);
    SubsetSize(set t | 0 <= t < |rows| :: rows[t], Below(n));
  }

  lemma StarredRowsBound(s: State, n: nat)
    requires Settled(s, n)
    ensures |StarredRows(s.assignment)| <= n
    ensures |StarredRows(s.assignment)| == n <==> AllCovered(s, n)
    ensures AllCovered(s, n) ==> Permutation(s.assignment, n)
  {
    var starred := StarredRows(s.assignment);
    SubsetSize(starred, Below(n));
    if |starred| == n {
      assert starred == Below(n);
      forall i | 0 <= i < n ensures s.assignment[i] != UNASSIGNED { assert i in starred; }
      forall j | 0 <= j < n ensures s.colCov[j] { PermutationHits(s.assignment, n, j); }
    }
    if AllCovered(s, n) { AllColumnsStarred(s, n); }
  }

  /** If every column is starred then so is every row. */
  lemma AllColumnsStarred(s: State, n: nat)
    requires Settled(s, n) && AllCovered(s, n)
    ensures forall i :: 0 <= i < n ==> s.assignment[i] != UNASSIGNED
    ensures |StarredRows(s.assignment)| == n
  {
    var rowOf := seq(n, j requires 0 <= j < n =>
      (assert j in s.assignment; var i :| 0 <= i < n && s.assignment[i] == j; i));
    forall i | 0 <= i < n ensures s.assignment[i] != UNASSIGNED { PermutationHits(rowOf, n, i); }
    assert StarredRows(s.assignment) == Below(n);
  }

  /** `assign` always succeeds: one pass per row that the reduction left without a star. */
  lemma {:induction false} SolveEnds(base: Matrix, s: State, n: nat) returns (r: State, passes: nat)
    requires Settled(s, n) && Dual(base, s.w, n)
    ensures Solved(s, n, r, passes)
    ensures |StarredRows(s.assignment)| + passes == n
    decreases n - |StarredRows(s.assignment)|
  {
    StarredRowsBound(s, n);
    if AllCovered(s, n) {
      r, passes := s, 0;
    } else {
      SettledStarts(s, n);
      var mid, last, steps := PhaseEnds(s, n);
      PhaseKeeps(base, s, n, mid, last, steps);
      var next := Augmented(mid, n, FullPath(mid, n));
      PassAddsStar(base, s, n, mid, last, steps, next);
      StarredRowsBound(next, n);
      r, passes := SolveEnds(base, next, n);
      passes := passes + 1;
      assert SolvedVia(s, n, mid, last, steps, next, r, passes);
    }
  }

  lemma {:induction false} SolveKeeps(base: Matrix, s: State, n: nat, r: State, passes: nat)
    requires Settled(s, n) && Dual(base, s.w, n) && Solved(s, n, r, passes)
    ensures Settled(r, n) && Dual(base, r.w, n) && Permutation(r.assignment, n)
    ensures |StarredRows(s.assignment)| + passes == n
    decreases passes
  {
    StarredRowsBound(s, n);
    if !AllCovered(s, n) {
      var mid, last, steps, next :| SolvedVia(s, n, mid, last, steps, next, r, passes);
      PassAddsStar(base, s, n, mid, last, steps, next);
      SolveKeeps(base, next, n, r, passes - 1);
    }
  }

  lemma {:induction false} SolveUnique(s: State, n: nat, r: State, k: nat, r': State, k': nat)
    requires Shape(s, n) && Solved(s, n, r, k) && Solved(s, n, r', k')
    ensures r == r' && k == k'
    decreases k
  {
    if !AllCovered(s, n) {
      var mid, last, steps, next :| SolvedVia(s, n, mid, last, steps, next, r, k);
      var mid', last', steps', next' :| SolvedVia(s, n, mid', last', steps', next', r', k');
      PhaseUnique(s, n, mid, last, steps, mid', last', steps');
      SolveUnique(next, n, r, k - 1, r', k' - 1);
    }
  }

  // ---- what the result costs ---------------------------------------------------------------

  /** `r` is what `assign` computes for these weights. */
  ghost predicate Result(base: Matrix, mins: seq<int>, rows: nat, n: nat, r: State) {
    Input(base, mins, rows, n) && exists passes :: Solved(Initial(base, mins, rows, n), n, r, passes)
  }

  /** The reduced weight left on the starred cells. */
  ghost function Excess(r: State, n: nat): real {
    Cost(r.w, r.assignment, n)
  }

  ghost predicate Optimal(base: Matrix, rows: nat, n: nat, p: seq<int>) {
    forall q :: |q| == rows && Injective(q, n) ==> Cost(base, p, rows) <= Cost(base, q, rows)
  }

  lemma ResultIsPermutation(base: Matrix, mins: seq<int>, rows: nat, n: nat, r: State)
    requires Result(base, mins, rows, n, r)
    ensures Settled(r, n) && Dual(base, r.w, n) && Permutation(r.assignment, n)
  {
    InitialDual(base, mins, rows, n);
    var passes :| Solved(Initial(base, mins, rows, n), n, r, passes);
    SolveKeeps(base, Initial(base, mins, rows, n), n, r, passes);
  }

  /** Padding rows cost nothing. */
  lemma PaddingIsFree(base: Matrix, mins: seq<int>, rows: nat, n: nat, p: seq<int>)
    requires Input(base, mins, rows, n) && Permutation(p, n)
    ensures Cost(base, p, n) == Cost(base, p, rows)
  {
    SumTruncate(i => Cell(base, i, To(p, i)), n, rows);
  }

  lemma PrefixCost(base: Matrix, p: seq<int>, q: seq<int>, rows: nat)
    requires rows <= |p| && p <= q
    ensures Cost(base, p, rows) == Cost(base, q, rows)
  {
    SumEq(i => Cell(base, i, To(p, i)), i => Cell(base, i, To(q, i)), rows);
  }

  /**
   * The certificate: against any assignment q of the real rows to distinct columns, completed to a
   * permutation, the result is dearer by exactly the difference of the reduced weights; so by no
   * more than the reduced weight left on its own stars.
   */
  lemma Certificate(base: Matrix, mins: seq<int>, rows: nat, n: nat, r: State, q: seq<int>)
    returns (full: seq<int>)
    requires Result(base, mins, rows, n, r)
    requires |q| == rows && Injective(q, n)
    ensures Permutation(full, n) && q <= full
    ensures Cost(base, r.assignment, rows) - Cost(base, q, rows) == Excess(r, n) - Cost(r.w, full, n)
    ensures Cost(base, r.assignment, rows) <= Cost(base, q, rows) + Excess(r, n)
  {
    ResultIsPermutation(base, mins, rows, n, r);
    full := Completion(q, n);
    SameGap(base, r.w, n, r.assignment, full);
    PaddingIsFree(base, mins, rows, n, r.assignment);
    PaddingIsFree(base, mins, rows, n, full);
    PrefixCost(base, q, full, rows);
    CostNonNegative(r.w, n, full);
  }

  /** The result is optimal exactly when no permutation has less reduced weight than its stars. */
  lemma OptimalInReducedWeights(base: Matrix, mins: seq<int>, rows: nat, n: nat, r: State)
    requires Result(base, mins, rows, n, r)
    ensures Optimal(base, rows, n, r.assignment) <==>
            forall p :: Permutation(p, n) ==> Excess(r, n) <= Cost(r.w, p, n)
    ensures Excess(r, n) == 0.0 ==> Optimal(base, rows, n, r.assignment)
  {
    if Optimal(base, rows, n, r.assignment) {
      forall p | Permutation(p, n) ensures Excess(r, n) <= Cost(r.w, p, n) {
        ResultIsPermutation(base, mins, rows, n, r);
        SameGap(base, r.w, n, r.assignment, p);
        PaddingIsFree(base, mins, rows, n, r.assignment);
        PaddingIsFree(base, mins, rows, n, p);
        PrefixCost(base, p[..rows], p, rows);
        assert Injective(p[..rows], n);
      }
    }
    forall q | |q| == rows && Injective(q, n)
      ensures (forall p :: Permutation(p, n) ==> Excess(r, n) <= Cost(r.w, p, n)) ==>
        Cost(base, r.assignment, rows) <= Cost(base, q, rows)
      ensures Excess(r, n) == 0.0 ==> Cost(base, r.assignment, rows) <= Cost(base, q, rows)
    {
      var full := Certificate(base, mins, rows, n, r, q);
    }
  }
}
