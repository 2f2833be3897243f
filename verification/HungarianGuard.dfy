/**
 * Why the assigner can miss the optimum. When the least uncovered weight is added, a cell in a
 * covered row and a covered column keeps its zero mark although its weight rises; that stale zero
 * may be primed and starred later. This module follows the guard of that step through whole runs.
 */
module HungarianGuard {
  import opened Sums
  import opened Matchings
  import opened HungarianSteps
  import opened HungarianInvariants
  import opened HungarianPhase
  import opened HungarianAugment
  import opened HungarianSolve

  // ---- one step ----------------------------------------------------------------------------

  /** No mark goes stale: nothing is added, or nothing marked lies under two covers. */
  ghost predicate StaleFree(s: State, n: nat, at: Loc)
    requires Shape(s, n) && In(n, at)
  {
    || HasOpenZero(s, n)
    || s.w[at.row][at.col] == 0.0
    || forall i, j :: 0 <= i < n && 0 <= j < n && s.rowCov[i] && s.colCov[j] ==> s.mark[i][j] == Unmarked
  }

  /** The marked cells of s are marked in r, at weights no smaller. */
  ghost predicate KeptUp(s: State, r: State, n: nat)
    requires Shape(s, n) && Shape(r, n)
  {
    forall i, j :: 0 <= i < n && 0 <= j < n && s.mark[i][j] != Unmarked ==>
                     r.mark[i][j] != Unmarked && r.w[i][j] >= s.w[i][j]
  }

  /** When the minimum is added, a marked cell is covered, and gains it just when it is covered twice. */
  lemma MarkedGains(s: State, n: nat, at: Loc, i: int, j: int)
    requires Priming(s, n) && In(n, at) && !HasOpenZero(s, n) && In(n, Loc(i, j)) && s.mark[i][j] != Unmarked
    ensures s.rowCov[i] || s.colCov[j]
    ensures PrimeStep(s, n, at).w[i][j] == s.w[i][j] + if s.rowCov[i] && s.colCov[j] then s.w[at.row][at.col] else 0.0
  {
    MarkedCovered(s, n, i, j);
  }

  lemma MarkedCovered(s: State, n: nat, i: int, j: int)
    requires Priming(s, n) && !HasOpenZero(s, n) && In(n, Loc(i, j)) && s.mark[i][j] != Unmarked
    ensures s.rowCov[i] || s.colCov[j]
  {
    hide Stars, PrimesListed, PrimesOrdered, Covers, Unfinished;
    assert !OpenZero(s, n, Loc(i, j));
    if !s.rowCov[i] && !s.colCov[j] { OpenCellMarks(s, n, Loc(i, j)); }
  }

  /** The least uncovered weight is not negative. */
  lemma PickedWeight(s: State, n: nat, at: Loc)
    requires Shape(s, n) && In(n, at) && NonNegative(s.w, n)
    ensures s.w[at.row][at.col] >= 0.0
  {
    assert Cell(s.w, at.row, at.col) >= 0.0;
  }

  /** Only unmarked cells ever lose weight. */
  lemma StepKeptUp(s: State, n: nat, at: Loc)
    requires Priming(s, n) && Picked(s, n, at) && In(n, at) && NonNegative(s.w, n)
    ensures KeptUp(s, PrimeStep(s, n, at), n)
  {
    hide Stars, PrimesListed, PrimesOrdered, Covers, Unfinished, NonNegative;
    StepFrame(s, n, at);
    PickedWeight(s, n, at);
    forall i, j | 0 <= i < n && 0 <= j < n && s.mark[i][j] != Unmarked
      ensures PrimeStep(s, n, at).w[i][j] >= s.w[i][j]
    {
      if !HasOpenZero(s, n) { MarkedGains(s, n, at, i, j); }
    }
  }

  /** A picked zero lies at weight zero while all marks do, and a picked minimum is made zero. */
  lemma PickedEndsZero(s: State, n: nat, at: Loc)
    requires Shape(s, n) && Picked(s, n, at) && ZeroMarks(s, n)
    ensures In(n, at) && PrimeStep(s, n, at).w[at.row][at.col] == 0.0
    ensures HasOpenZero(s, n) ==> PrimeStep(s, n, at).w == s.w
  {
    var r := Prepared(s, n, at);
    assert PrimeStep(s, n, at).w == r.w && Uncovered(s, n, at);
    if HasOpenZero(s, n) {
      assert s.mark[at.row][at.col] != Unmarked;
    } else {
      assert r.w[at.row][at.col] == s.w[at.row][at.col] - s.w[at.row][at.col];
    }
  }

  /** What a step leaves on a marked cell while all marks are zero: the minimum under two covers, else nothing. */
  lemma MarkedCell(s: State, n: nat, at: Loc, i: int, j: int)
    requires Priming(s, n) && Picked(s, n, at) && In(n, at) && ZeroMarks(s, n) && 0 <= i < n && 0 <= j < n
    ensures var r := PrimeStep(s, n, at);
            && !s.rowCov[at.row]
            && (r.mark[i][j] != Unmarked <==> s.mark[i][j] != Unmarked || Loc(i, j) == at)
            && (r.mark[i][j] != Unmarked ==>
                  r.w[i][j] == if !HasOpenZero(s, n) && s.rowCov[i] && s.colCov[j] then s.w[at.row][at.col] else 0.0)
  {
    hide Stars, PrimesListed, PrimesOrdered, Covers, Unfinished, HasOpenZero, PrimeStep;
    StepFrame(s, n, at);
    PickedEndsZero(s, n, at);
    if Loc(i, j) != at && s.mark[i][j] != Unmarked && !HasOpenZero(s, n) { MarkedGains(s, n, at, i, j); }
  }

  /** The guard is exact: a step leaves a marked cell at positive weight just when it fails. */
  lemma StaleFreeIff(s: State, n: nat, at: Loc)
    requires Priming(s, n) && Picked(s, n, at) && In(n, at) && ZeroMarks(s, n)
    ensures StaleFree(s, n, at) <==> ZeroMarks(PrimeStep(s, n, at), n)
  {
    hide Stars, PrimesListed, PrimesOrdered, Covers, Unfinished, Picked, HasOpenZero, PrimeStep;
    var r := PrimeStep(s, n, at);
    if StaleFree(s, n, at) {
      forall i, j | 0 <= i < n && 0 <= j < n && r.mark[i][j] != Unmarked ensures r.w[i][j] == 0.0 {
        MarkedCell(s, n, at, i, j);
      }
    } else {
      var i, j :| 0 <= i < n && 0 <= j < n && s.rowCov[i] && s.colCov[j] && s.mark[i][j] != Unmarked;
      MarkedCell(s, n, at, i, j);
    }
  }

  // ---- a phase -----------------------------------------------------------------------------

  lemma KeptUpThrough(s: State, next: State, r: State, n: nat)
    requires Shape(s, n) && Shape(next, n) && Shape(r, n)
    requires KeptUp(s, next, n) && KeptUp(next, r, n)
    ensures KeptUp(s, r, n)
  {
  }

  /** A cell once marked stays marked and its weight never falls; so a stale zero stays stale. */
  lemma StaleStays(base: Matrix, s: State, r: State, n: nat)
    requires Shape(s, n) && Shape(r, n) && KeptUp(s, r, n)
    requires Dual(base, s.w, n) && ZeroMarks(r, n)
    ensures ZeroMarks(s, n)
  {
    forall i, j | 0 <= i < n && 0 <= j < n && s.mark[i][j] != Unmarked ensures s.w[i][j] == 0.0 {
      assert Cell(s.w, i, j) >= 0.0;
    }
  }

  /** The guard holds at each of the next `steps` steps. */
  ghost predicate PhaseFree(s: State, n: nat, steps: nat)
    requires Shape(s, n)
    decreases steps
  {
    steps == 0 || forall at :: Picked(s, n, at) && In(n, at) ==>
                                 StaleFree(s, n, at) && PhaseFree(PrimeStep(s, n, at), n, steps - 1)
  }

  lemma {:induction false} PhaseKeptUp(base: Matrix, s: State, n: nat, r: State, last: Loc, steps: nat)
    requires Priming(s, n) && Dual(base, s.w, n) && Phase(s, n, r, last, steps)
    ensures Shape(r, n) && KeptUp(s, r, n)
    decreases steps
  {
    hide KeptUp, Stars, PrimesListed, PrimesOrdered, Covers, Unfinished, Picked, Reduced, NonNegative;
    var at :| PhaseVia(s, n, at, r, last, steps);
    StepKeptUp(s, n, at);
    if 0 <= s.assignment[at.row] < n {
      StepKeeps(base, s, n, at);
      PhaseKeptUp(base, PrimeStep(s, n, at), n, r, last, steps - 1);
      KeptUpThrough(s, PrimeStep(s, n, at), r, n);
    }
  }

  /** Unfolding the guard at the one cell a step can pick. */
  lemma PhaseFreeAt(s: State, n: nat, at: Loc, steps: nat)
    requires Shape(s, n) && Picked(s, n, at) && In(n, at) && steps > 0
    ensures PhaseFree(s, n, steps) <==> StaleFree(s, n, at) && PhaseFree(PrimeStep(s, n, at), n, steps - 1)
    ensures PhaseFree(PrimeStep(s, n, at), n, 0)
  {
    forall b | Picked(s, n, b) && In(n, b) ensures b == at { PickUnique(s, n, at, b); }
  }

  lemma {:induction false} PhaseFreeIff(base: Matrix, s: State, n: nat, r: State, last: Loc, steps: nat)
    requires Priming(s, n) && Dual(base, s.w, n) && Phase(s, n, r, last, steps)
    requires ZeroMarks(s, n)
    ensures Shape(r, n) && (PhaseFree(s, n, steps) <==> ZeroMarks(r, n))
    decreases steps
  {
    hide KeptUp, StaleFree, ZeroMarks, Stars, PrimesListed, PrimesOrdered, Covers, Unfinished, Picked, Reduced,
      NonNegative,
      PhaseFree, PrimeStep, MarkedWeightsKept, Marked;
    var at :| PhaseVia(s, n, at, r, last, steps);
    var next := PrimeStep(s, n, at);
    StaleFreeIff(s, n, at);
    PhaseFreeAt(s, n, at, steps);
    if 0 <= s.assignment[at.row] < n {
      StepKeeps(base, s, n, at);
      PhaseKeptUp(base, next, n, r, last, steps - 1);
      if ZeroMarks(r, n) { StaleStays(base, next, r, n); }
      if ZeroMarks(next, n) { PhaseFreeIff(base, next, n, r, last, steps - 1); }
    }
  }

  // ---- a run -------------------------------------------------------------------------------

  /** The flip marks no cell that was unmarked and unmarks none. */
  lemma FlipKeepsMarks(s: State, n: nat)
    requires PhaseDone(s, n)
    ensures var r := Augmented(s, n, FullPath(s, n));
            && KeptUp(s, r, n) && r.w == s.w
            && forall i, j :: 0 <= i < n && 0 <= j < n && s.mark[i][j] == Unmarked ==> r.mark[i][j] == Unmarked
  {
    hide Alternating, Stars, PrimesListed, PrimesOrdered, PathFrom;
    forall i, j | 0 <= i < n && 0 <= j < n && s.mark[i][j] == Unmarked ensures Loc(i, j) !in FullPath(s, n) {
      if Loc(i, j) in FullPath(s, n) { CellOnPath(s, n, Loc(i, j)); }
    }
  }

  lemma FlipKeepsZeroMarks(s: State, n: nat)
    requires PhaseDone(s, n)
    ensures ZeroMarks(s, n) <==> ZeroMarks(Augmented(s, n, FullPath(s, n)), n)
  {
    FlipKeepsMarks(s, n);
  }

  /** The guard holds at every step of the next `passes` passes. */
  ghost predicate RunFree(s: State, n: nat, passes: nat)
    requires Shape(s, n)
    decreases passes
  {
    passes == 0 || forall mid, last, steps, next :: Pass(s, n, mid, last, steps, next) ==>
                                                      PhaseFree(s, n, steps) && RunFree(next, n, passes - 1)
  }

  lemma RunFreeAt(s: State, n: nat, mid: State, last: Loc, steps: nat, next: State, passes: nat)
    requires Shape(s, n) && Pass(s, n, mid, last, steps, next) && passes > 0
    ensures Shape(next, n)
    ensures RunFree(s, n, passes) <==> PhaseFree(s, n, steps) && RunFree(next, n, passes - 1)
  {
    forall mid', last', steps', next' | Pass(s, n, mid', last', steps', next')
      ensures steps' == steps && next' == next
    {
      PhaseUnique(s, n, mid, last, steps, mid', last', steps');
    }
  }

  lemma PassKeptUp(base: Matrix, s: State, n: nat, mid: State, last: Loc, steps: nat, next: State)
    requires Settled(s, n) && !AllCovered(s, n) && Dual(base, s.w, n)
    requires Pass(s, n, mid, last, steps, next)
    ensures Shape(next, n) && KeptUp(s, next, n)
  {
    hide KeptUp, Dual, Stars;
    SettledStarts(s, n);
    PhaseKeptUp(base, s, n, mid, last, steps);
    PhaseKeeps(base, s, n, mid, last, steps);
    FlipKeepsMarks(mid, n);
    KeptUpThrough(s, mid, next, n);
  }

  lemma PassFreeIff(base: Matrix, s: State, n: nat, mid: State, last: Loc, steps: nat, next: State)
    requires Settled(s, n) && !AllCovered(s, n) && Dual(base, s.w, n)
    requires Pass(s, n, mid, last, steps, next) && ZeroMarks(s, n)
    ensures Shape(next, n) && (PhaseFree(s, n, steps) <==> ZeroMarks(next, n))
  {
    hide Dual, Stars, ZeroMarks, PhaseFree;
    SettledStarts(s, n);
    PhaseKeeps(base, s, n, mid, last, steps);
    PhaseFreeIff(base, s, n, mid, last, steps);
    FlipKeepsZeroMarks(mid, n);
  }

  lemma {:induction false} RunKeptUp(base: Matrix, s: State, n: nat, r: State, passes: nat)
    requires Settled(s, n) && Dual(base, s.w, n) && Solved(s, n, r, passes)
    ensures Shape(r, n) && KeptUp(s, r, n)
    decreases passes
  {
    hide KeptUp, Dual, Stars;
    if AllCovered(s, n) {
      KeptUpSelf(s, n);
    } else {
      var mid, last, steps, next :| SolvedVia(s, n, mid, last, steps, next, r, passes);
      PassAddsStar(base, s, n, mid, last, steps, next);
      PassKeptUp(base, s, n, mid, last, steps, next);
      RunKeptUp(base, next, n, r, passes - 1);
      KeptUpThrough(s, next, r, n);
    }
  }

  lemma KeptUpSelf(s: State, n: nat)
    requires Shape(s, n)
    ensures KeptUp(s, s, n)
  {
  }

  /** Over a whole run: every mark ends at weight zero exactly when the guard held at every step. */
  lemma {:induction false} RunFreeIff(base: Matrix, s: State, n: nat, r: State, passes: nat)
    requires Settled(s, n) && Dual(base, s.w, n) && Solved(s, n, r, passes) && ZeroMarks(s, n)
    ensures Shape(r, n) && (RunFree(s, n, passes) <==> ZeroMarks(r, n))
    decreases passes
  {
    hide KeptUp, Dual, Stars, ZeroMarks, PhaseFree;
    if !AllCovered(s, n) {
      var mid, last, steps, next :| SolvedVia(s, n, mid, last, steps, next, r, passes);
      PassAddsStar(base, s, n, mid, last, steps, next);
      PassFreeIff(base, s, n, mid, last, steps, next);
      RunFreeAt(s, n, mid, last, steps, next, passes);
      RunKeptUp(base, next, n, r, passes - 1);
      if ZeroMarks(r, n) { StaleStays(base, next, r, n); }
      if ZeroMarks(next, n) { RunFreeIff(base, next, n, r, passes - 1); }
    }
  }

  // ---- which stars end at positive weight ----------------------------------------------------

  /** One of the next `steps` steps primes the cell while it is a stale zero. */
  ghost predicate StalePrimed(s: State, n: nat, c: Loc, steps: nat)
    requires Shape(s, n)
    decreases steps, 1
  {
    steps > 0 && exists at :: StalePrimedVia(s, n, at, c, steps)
  }

  ghost predicate StalePrimedVia(s: State, n: nat, at: Loc, c: Loc, steps: nat)
    requires Shape(s, n) && steps > 0
    decreases steps, 0
  {
    && Picked(s, n, at) && In(n, at)
    && ((at == c && HasOpenZero(s, n) && s.w[at.row][at.col] > 0.0)
        || StalePrimed(PrimeStep(s, n, at), n, c, steps - 1))
  }

  lemma StaleStep(s: State, n: nat, at: Loc)
    requires Priming(s, n) && Picked(s, n, at)
    ensures PrimeStep(s, n, at).w[at.row][at.col] == if HasOpenZero(s, n) then s.w[at.row][at.col] else 0.0
    ensures PrimeStep(s, n, at).mark[at.row][at.col] == Primed
  {
    StepFrame(s, n, at);
  }

  /** A stale zero once primed is still marked, at positive weight, when the phase ends. */
  lemma {:induction false} StalePrimedUp(base: Matrix, s: State, n: nat, r: State, last: Loc, steps: nat, c: Loc)
    requires Priming(s, n) && Dual(base, s.w, n) && Phase(s, n, r, last, steps)
    requires StalePrimed(s, n, c, steps)
    ensures Shape(r, n) && In(n, c) && r.mark[c.row][c.col] != Unmarked && r.w[c.row][c.col] > 0.0
    decreases steps
  {
    hide Stars, PrimesListed, PrimesOrdered, Covers, Unfinished, Picked, Reduced, NonNegative;
    var at :| PhaseVia(s, n, at, r, last, steps);
    var at' :| StalePrimedVia(s, n, at', c, steps);
    PickUnique(s, n, at, at');
    StaleStep(s, n, at);
    if 0 <= s.assignment[at.row] < n {
      StepKeeps(base, s, n, at);
      PhaseKeptUp(base, PrimeStep(s, n, at), n, r, last, steps - 1);
      if StalePrimed(PrimeStep(s, n, at), n, c, steps - 1) {
        StalePrimedUp(base, PrimeStep(s, n, at), n, r, last, steps - 1, c);
      }
    }
  }

  /** A cell first primed in this phase that ends it at positive weight was a stale zero when primed. */
  lemma {:induction false} HighPrimeWasStale(base: Matrix, s: State, n: nat, r: State, last: Loc, steps: nat, c: Loc)
    requires Priming(s, n) && Dual(base, s.w, n) && Phase(s, n, r, last, steps)
    requires In(n, c) && s.mark[c.row][c.col] != Primed
    requires Shape(r, n) && r.mark[c.row][c.col] == Primed && r.w[c.row][c.col] > 0.0
    ensures StalePrimed(s, n, c, steps)
    decreases steps
  {
    hide Stars, PrimesListed, PrimesOrdered, Covers, Unfinished, Picked, Reduced, NonNegative;
    var at :| PhaseVia(s, n, at, r, last, steps);
    StaleStep(s, n, at);
    StepFrame(s, n, at);
    var next := PrimeStep(s, n, at);
    if 0 <= s.assignment[at.row] < n {
      StepKeeps(base, s, n, at);
      PhaseKeeps(base, next, n, r, last, steps - 1);
      if at == c {
        assert Marked(next, n, c.row, c.col);
      } else {
        HighPrimeWasStale(base, next, n, r, last, steps - 1, c);
      }
    }
    assert StalePrimedVia(s, n, at, c, steps);
  }

  /** One of the next `passes` passes primes the cell while it is a stale zero. */
  ghost predicate RunPrimesStale(s: State, n: nat, c: Loc, passes: nat)
    requires Shape(s, n)
    decreases passes, 1
  {
    passes > 0 && exists mid, last, steps, next :: PassPrimesStale(s, n, mid, last, steps, next, c, passes)
  }

  ghost predicate PassPrimesStale(s: State, n: nat, mid: State, last: Loc, steps: nat, next: State, c: Loc, passes: nat)
    requires Shape(s, n) && passes > 0
    decreases passes, 0
  {
    && Pass(s, n, mid, last, steps, next)
    && (StalePrimed(s, n, c, steps) || RunPrimesStale(next, n, c, passes - 1))
  }

  lemma {:induction false} RunPrimesStaleUp(base: Matrix, s: State, n: nat, r: State, passes: nat, c: Loc)
    requires Settled(s, n) && Dual(base, s.w, n) && Solved(s, n, r, passes)
    requires RunPrimesStale(s, n, c, passes)
    ensures Shape(r, n) && In(n, c) && r.w[c.row][c.col] > 0.0
    decreases passes
  {
    hide Dual, Stars;
    var mid, last, steps, next :| SolvedVia(s, n, mid, last, steps, next, r, passes);
    var mid', last', steps', next' :| PassPrimesStale(s, n, mid', last', steps', next', c, passes);
    PhaseUnique(s, n, mid, last, steps, mid', last', steps');
    PassAddsStar(base, s, n, mid, last, steps, next);
    RunKeptUp(base, next, n, r, passes - 1);
    if StalePrimed(s, n, c, steps) {
      SettledStarts(s, n);
      PhaseKeeps(base, s, n, mid, last, steps);
      StalePrimedUp(base, s, n, mid, last, steps, c);
      FlipKeepsMarks(mid, n);
    } else {
      RunPrimesStaleUp(base, next, n, r, passes - 1, c);
    }
  }

  /** A star of the augmented state was a star before or a prime of the phase. */
  lemma FlipStars(s: State, n: nat, i: int, j: int)
    requires PhaseDone(s, n) && 0 <= i < n && 0 <= j < n
    requires Augmented(s, n, FullPath(s, n)).mark[i][j] == Starred
    ensures Marked(s, n, i, j)
  {
    var path := FullPath(s, n);
    PathAlternates(s, n, LastPrime(s));
    if Loc(i, j) in path { CellOnPath(s, n, Loc(i, j)); }
  }

  /** A star of a pass's outcome that was none before, or weighed nothing, weighs something only as a stale zero. */
  lemma HighNewStar(base: Matrix, s: State, n: nat, mid: State, last: Loc, steps: nat, next: State, c: Loc)
    requires Settled(s, n) && !AllCovered(s, n) && Dual(base, s.w, n) && Pass(s, n, mid, last, steps, next)
    requires In(n, c) && (s.mark[c.row][c.col] == Starred ==> s.w[c.row][c.col] == 0.0)
    requires Shape(next, n) && next.mark[c.row][c.col] == Starred && next.w[c.row][c.col] > 0.0
    ensures StalePrimed(s, n, c, steps)
  {
    hide Dual, KeptUp, StalePrimed;
    SettledStarts(s, n);
    PhaseKeeps(base, s, n, mid, last, steps);
    FlipKeepsMarks(mid, n);
    FlipStars(mid, n, c.row, c.col);
    StarsKept(s, mid, n, c);
    HighPrimeWasStale(base, s, n, mid, last, steps, c);
  }

  lemma {:induction false} HighStarWasStale(base: Matrix, s: State, n: nat, r: State, passes: nat, c: Loc)
    requires Settled(s, n) && Dual(base, s.w, n) && Solved(s, n, r, passes)
    requires In(n, c) && (s.mark[c.row][c.col] == Starred ==> s.w[c.row][c.col] == 0.0)
    requires Shape(r, n) && r.mark[c.row][c.col] == Starred && r.w[c.row][c.col] > 0.0
    ensures RunPrimesStale(s, n, c, passes)
    decreases passes
  {
    hide Dual, Stars, Pass, StalePrimed;
    if !AllCovered(s, n) {
      var mid, last, steps, next :| SolvedVia(s, n, mid, last, steps, next, r, passes);
      PassAddsStar(base, s, n, mid, last, steps, next);
      DualCell(base, next, n, c);
      if next.mark[c.row][c.col] == Starred && next.w[c.row][c.col] > 0.0 {
        HighNewStar(base, s, n, mid, last, steps, next, c);
      } else {
        HighStarWasStale(base, next, n, r, passes - 1, c);
      }
      assert PassPrimesStale(s, n, mid, last, steps, next, c, passes);
    }
  }

  lemma DualCell(base: Matrix, s: State, n: nat, c: Loc)
    requires Shape(s, n) && Dual(base, s.w, n) && In(n, c)
    ensures s.w[c.row][c.col] >= 0.0
  {
    assert Cell(s.w, c.row, c.col) >= 0.0;
  }

  /** A phase leaves the stars where they are and their weights as they are. */
  lemma StarsKept(s: State, mid: State, n: nat, c: Loc)
    requires Shape(s, n) && Shape(mid, n) && Stars(s, n) && Stars(mid, n) && mid.assignment == s.assignment
    requires MarkedWeightsKept(s, mid, n) && In(n, c)
    ensures mid.mark[c.row][c.col] == Starred <==> s.mark[c.row][c.col] == Starred
    ensures s.mark[c.row][c.col] == Starred ==> mid.w[c.row][c.col] == s.w[c.row][c.col]
  {
    assert s.mark[c.row][c.col] == Starred ==> Marked(s, n, c.row, c.col);
  }

  // ---- what the guard decides for `assign` ---------------------------------------------------

  /** Row i of the result took a cell that was a stale zero when it was primed. */
  ghost predicate StaleRow(base: Matrix, mins: seq<int>, rows: nat, n: nat, r: State, i: int)
    requires Input(base, mins, rows, n)
  {
    && 0 <= i < n && |r.assignment| == n
    && exists passes :: && Solved(Initial(base, mins, rows, n), n, r, passes)
                        && RunPrimesStale(Initial(base, mins, rows, n), n, Loc(i, r.assignment[i]), passes)
  }

  /** `assign` never raised the weight of a marked cell. */
  ghost predicate NeverStale(base: Matrix, mins: seq<int>, rows: nat, n: nat, r: State)
    requires Input(base, mins, rows, n)
  {
    exists passes :: && Solved(Initial(base, mins, rows, n), n, r, passes)
                     && RunFree(Initial(base, mins, rows, n), n, passes)
  }

  /** A row keeps reduced weight on its star exactly when that star was a stale zero when primed. */
  lemma StaleRowIff(base: Matrix, mins: seq<int>, rows: nat, n: nat, r: State, i: int)
    requires Result(base, mins, rows, n, r) && 0 <= i < n
    ensures Cell(r.w, i, To(r.assignment, i)) >= 0.0
    ensures Cell(r.w, i, To(r.assignment, i)) > 0.0 <==> StaleRow(base, mins, rows, n, r, i)
  {
    ResultIsPermutation(base, mins, rows, n, r);
    InitialDual(base, mins, rows, n);
    RowsStarredSettled(base, mins, rows, n, n);
    var s := Initial(base, mins, rows, n);
    var c := Loc(i, r.assignment[i]);
    var passes :| Solved(s, n, r, passes);
    DualCell(base, r, n, c);
    if r.w[c.row][c.col] > 0.0 {
      HighStarWasStale(base, s, n, r, passes, c);
    }
    if StaleRow(base, mins, rows, n, r, i) {
      var k :| Solved(s, n, r, k) && RunPrimesStale(s, n, c, k);
      RunPrimesStaleUp(base, s, n, r, k, c);
    }
  }

  /** All marks end at reduced weight zero exactly when the guard held throughout. */
  lemma NeverStaleIff(base: Matrix, mins: seq<int>, rows: nat, n: nat, r: State)
    requires Result(base, mins, rows, n, r)
    ensures Shape(r, n) && (NeverStale(base, mins, rows, n, r) <==> ZeroMarks(r, n))
  {
    ResultIsPermutation(base, mins, rows, n, r);
    InitialDual(base, mins, rows, n);
    RowsStarredSettled(base, mins, rows, n, n);
    var s := Initial(base, mins, rows, n);
    var passes :| Solved(s, n, r, passes);
    RunFreeIff(base, s, n, r, passes);
    if NeverStale(base, mins, rows, n, r) {
      var k :| Solved(s, n, r, k) && RunFree(s, n, k);
      RunFreeIff(base, s, n, r, k);
    }
  }

  /** The excess that separates the result from its dual bound comes from stale rows and from nothing else. */
  lemma ExcessIff(base: Matrix, mins: seq<int>, rows: nat, n: nat, r: State)
    requires Result(base, mins, rows, n, r)
    ensures Excess(r, n) == 0.0 <==> forall i :: 0 <= i < n ==> !StaleRow(base, mins, rows, n, r, i)
  {
    var f := (i: int) => Cell(r.w, i, To(r.assignment, i));
    SumEq(i => Cell(r.w, i, To(r.assignment, i)), f, n);
    hide Result, StaleRow, Input;
    forall i | 0 <= i < n ensures f(i) >= 0.0 && (f(i) > 0.0 <==> StaleRow(base, mins, rows, n, r, i)) {
      StaleRowIff(base, mins, rows, n, r, i);
    }
    if Excess(r, n) == 0.0 {
      SumZeroTerms(f, n);
      forall i | 0 <= i < n ensures !StaleRow(base, mins, rows, n, r, i) { assert f(i) == 0.0; }
    } else if forall i :: 0 <= i < n ==> !StaleRow(base, mins, rows, n, r, i) {
      SumZero(f, n);
      assert false;
    }
  }

  /** While the guard holds no star gains reduced weight, and the result is optimal. */
  lemma NeverStaleIsOptimal(base: Matrix, mins: seq<int>, rows: nat, n: nat, r: State)
    requires Result(base, mins, rows, n, r) && NeverStale(base, mins, rows, n, r)
    ensures Excess(r, n) == 0.0 && Optimal(base, rows, n, r.assignment)
  {
    NeverStaleIff(base, mins, rows, n, r);
    ResultIsPermutation(base, mins, rows, n, r);
    SumZero(i => Cell(r.w, i, To(r.assignment, i)), n);
    OptimalInReducedWeights(base, mins, rows, n, r);
  }
}
