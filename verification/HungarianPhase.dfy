/** A whole priming phase: it always ends, within n primes, and keeps the reduced weights a dual. */
module HungarianPhase {
  import opened Matchings
  import opened HungarianSteps
  import opened HungarianInvariants

  /** The weights are a non-negative reduction of `base`. */
  ghost predicate Dual(base: Matrix, w: Matrix, n: nat) {
    NonNegative(w, n) && Reduced(base, w, n)
  }

  lemma AddZeroKeepsDual(base: Matrix, s: State, n: nat, at: Loc)
    requires Priming(s, n) && FirstMinimum(s, n, at)
    requires Dual(base, s.w, n)
    ensures Dual(base, AddZero(s, n, at).w, n)
  {
    var m := s.w[at.row][at.col];
    var r := AddZero(s, n, at);
    assert Cell(s.w, at.row, at.col) >= 0.0;
    forall i, j | 0 <= i < n && 0 <= j < n ensures Cell(r.w, i, j) >= 0.0 {
      assert Cell(s.w, i, j) >= 0.0;
      if !s.rowCov[i] && !s.colCov[j] { assert OpenLink(s, n, Loc(i, j)); }
    }
    var u, v :| Shifted(base, s.w, n, u, v);
    var u' := seq(n, i requires 0 <= i < n => At(u, i) - (if s.rowCov[i] then m else 0.0));
    var v' := seq(n, j requires 0 <= j < n => At(v, j) + (if s.colCov[j] then 0.0 else m));
    assert Shifted(base, r.w, n, u', v');
  }

  ghost predicate Marked(s: State, n: nat, i: int, j: int)
    requires Shape(s, n)
  {
    0 <= i < n && 0 <= j < n && s.mark[i][j] in {Starred, Primed}
  }

  lemma MarkedCoveredOnce(s: State, n: nat, i: int, j: int)
    requires Priming(s, n) && Marked(s, n, i, j)
    ensures s.rowCov[i] != s.colCov[j]
  {
    if s.mark[i][j] == Primed { assert PrimeAt(s, i, j); }
  }

  /** r has the weights of s wherever s has a star or a prime. */
  ghost predicate MarkedWeightsKept(s: State, r: State, n: nat)
    requires Shape(s, n) && Shape(r, n)
  {
    forall i, j :: Marked(s, n, i, j) ==> r.w[i][j] == s.w[i][j]
  }

  /** A star, and a prime already placed, is covered exactly once, so its weight stays put. */
  lemma StepWeights(base: Matrix, s: State, n: nat, at: Loc)
    requires Priming(s, n) && Picked(s, n, at)
    requires Dual(base, s.w, n)
    ensures Dual(base, PrimeStep(s, n, at).w, n)
    ensures MarkedWeightsKept(s, PrimeStep(s, n, at), n)
  {
    if !HasOpenZero(s, n) { AddZeroKeepsDual(base, s, n, at); }
    forall i, j | Marked(s, n, i, j) ensures PrimeStep(s, n, at).w[i][j] == s.w[i][j] {
      MarkedCoveredOnce(s, n, i, j);
    }
  }

  /** Everything one step keeps, as the induction over a phase uses it. */
  lemma StepKeeps(base: Matrix, s: State, n: nat, at: Loc)
    requires Priming(s, n) && Picked(s, n, at)
    requires Dual(base, s.w, n)
    ensures var r := PrimeStep(s, n, at);
            && (if 0 <= s.assignment[at.row] < n then Priming(r, n) else PhaseDone(r, n))
            && Dual(base, r.w, n)
            && MarkedWeightsKept(s, r, n)
            && (forall i, j :: Marked(s, n, i, j) ==> Marked(r, n, i, j))
            && r.assignment == s.assignment && r.primes == s.primes + [at]
  {
    StepPrimes(s, n, at);
    StepWeights(base, s, n, at);
    StepMarks(s, n, at);
    StepFrame(s, n, at);
  }

  lemma StepMarks(s: State, n: nat, at: Loc)
    requires Priming(s, n) && Picked(s, n, at)
    ensures forall i, j :: Marked(s, n, i, j) ==> Marked(PrimeStep(s, n, at), n, i, j)
  {
    StepFrame(s, n, at);
  }

  lemma {:induction false} FirstZeroExists(s: State, n: nat, c: Loc) returns (at: Loc)
    requires Shape(s, n) && OpenZero(s, n, c)
    ensures FirstZero(s, n, at)
    decreases c.row, c.col
  {
    if b :| OpenZero(s, n, b) && Before(b, c) {
      at := FirstZeroExists(s, n, b);
    } else {
      at := c;
    }
  }

  /** Scanning the first k cells in row-major order finds the first least open one among them. */
  ghost predicate LeastOf(s: State, n: nat, rows: nat, cols: nat, at: Loc)
    requires Shape(s, n)
  {
    && OpenLink(s, n, at) && Before(at, Loc(rows, cols))
    && forall c :: OpenLink(s, n, c) && Before(c, Loc(rows, cols)) ==>
                     s.w[at.row][at.col] < s.w[c.row][c.col]
                         || (s.w[at.row][at.col] == s.w[c.row][c.col] && !Before(c, at))
  }

  lemma {:induction false} FirstMinimumExists(s: State, n: nat, c: Loc) returns (at: Loc)
    requires Shape(s, n) && OpenLink(s, n, c)
    ensures FirstMinimum(s, n, at)
  {
    var i, j := 0, 0;
    at := c;
    while i < n
      invariant 0 <= i <= n && 0 <= j <= n
      invariant LeastOf(s, n, i, j, at) || forall b :: OpenLink(s, n, b) ==> !Before(b, Loc(i, j))
      decreases n - i, n - j
    {
      if j == n {
        assert forall b: Loc :: OpenLink(s, n, b) ==> (Before(b, Loc(i, n)) <==> Before(b, Loc(i + 1, 0)));
        i, j := i + 1, 0;
      } else {
        assert forall b: Loc :: Before(b, Loc(i, j + 1)) <==> Before(b, Loc(i, j)) || b == Loc(i, j);
        if OpenLink(s, n, Loc(i, j)) && !(LeastOf(s, n, i, j, at) && s.w[at.row][at.col] <= s.w[i][j]) {
          at := Loc(i, j);
        }
        j := j + 1;
      }
    }
    assert Before(c, Loc(i, j));
  }

  lemma PickExists(s: State, n: nat) returns (at: Loc)
    requires Priming(s, n)
    ensures Picked(s, n, at)
  {
    if HasOpenZero(s, n) {
      var c :| OpenZero(s, n, c);
      at := FirstZeroExists(s, n, c);
    } else {
      var c := OpenCell(s, n);
      at := FirstMinimumExists(s, n, c);
    }
  }

  /** The primed rows are distinct starred rows, and some row has no star. */
  lemma PrimesBound(s: State, n: nat)
    requires Priming(s, n)
    ensures |s.primes| < n
  {
    var rows := seq(|s.primes|, t requires 0 <= t < |s.primes| => s.primes[t].row);
    var i :| 0 <= i < n && s.assignment[i] == UNASSIGNED;
    DistinctAvoiding(rows, n, i);
  }

  /** Every phase ends in a star-free row, after at most n primes in all. */
  lemma {:induction false} PhaseEnds(s: State, n: nat) returns (r: State, last: Loc, steps: nat)
    requires Priming(s, n)
    ensures Phase(s, n, r, last, steps)
    ensures |s.primes| + steps <= n
    decreases n - |s.primes|
  {
    var at := PickExists(s, n);
    PrimesBound(s, n);
    StepPrimes(s, n, at);
    StepFrame(s, n, at);
    var next := PrimeStep(s, n, at);
    if 0 <= s.assignment[at.row] < n {
      PrimesBound(next, n);
      r, last, steps := PhaseEnds(next, n);
      steps := steps + 1;
    } else {
      r, last, steps := next, at, 1;
    }
    assert PhaseVia(s, n, at, r, last, steps);
  }

  lemma KeptThrough(s: State, next: State, r: State, n: nat)
    requires Shape(s, n) && Shape(next, n) && Shape(r, n)
    requires MarkedWeightsKept(s, next, n) && (next == r || MarkedWeightsKept(next, r, n))
    requires forall i, j :: Marked(s, n, i, j) ==> Marked(next, n, i, j)
    ensures MarkedWeightsKept(s, r, n)
  {
  }

  /**
   * What a phase keeps, whatever it primes: assignment and stars, the dual, the weights of the
   * stars; and it returns the last prime, which lies in a star-free row.
   */
  lemma {:induction false} PhaseKeeps(base: Matrix, s: State, n: nat, r: State, last: Loc, steps: nat)
    requires Priming(s, n) && Dual(base, s.w, n)
    requires Phase(s, n, r, last, steps)
    ensures PhaseDone(r, n) && Dual(base, r.w, n)
    ensures |r.primes| == |s.primes| + steps && last == r.primes[|r.primes| - 1]
    ensures r.assignment == s.assignment
    ensures MarkedWeightsKept(s, r, n)
    decreases steps
  {
    hide Dual, MarkedWeightsKept, Stars, PrimesListed, PrimesOrdered, Covers, Unfinished, Picked;
    var at :| PhaseVia(s, n, at, r, last, steps);
    StepKeeps(base, s, n, at);
    if 0 <= s.assignment[at.row] < n {
      PhaseKeeps(base, PrimeStep(s, n, at), n, r, last, steps - 1);
    }
    KeptThrough(s, PrimeStep(s, n, at), r, n);
  }

  /** A phase is determined by the state it starts from. */
  lemma {:induction false} PhaseUnique(s: State, n: nat, r: State, last: Loc, k: nat, r': State, last': Loc, k': nat)
    requires Shape(s, n) && Phase(s, n, r, last, k) && Phase(s, n, r', last', k')
    ensures r == r' && last == last' && k == k'
    decreases k
  {
    var at :| PhaseVia(s, n, at, r, last, k);
    var at' :| PhaseVia(s, n, at', r', last', k');
    PickUnique(s, n, at, at');
    if 0 <= s.assignment[at.row] < n {
      PhaseUnique(PrimeStep(s, n, at), n, r, last, k - 1, r', last', k' - 1);
    }
  }
}
