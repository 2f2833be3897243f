/** What every step of the assigner keeps. */
module HungarianInvariants {
  import opened Matchings
  import opened HungarianSteps

  /** The starred cells are exactly the assigned ones, and no two share a row or a column. */
  ghost predicate Stars(s: State, n: nat) {
    && Shape(s, n)
    && (forall i :: 0 <= i < n ==> s.assignment[i] == UNASSIGNED || 0 <= s.assignment[i] < n)
    && (forall i, j :: 0 <= i < n && 0 <= j < n ==> (s.mark[i][j] == Starred <==> s.assignment[i] == j))
    && (forall i, k :: 0 <= i < k < n ==> s.assignment[i] != s.assignment[k] || s.assignment[i] == UNASSIGNED)
    && (forall i, j :: 0 <= i < n && 0 <= j < n ==> s.mark[i][j] != NoLink)
  }

  ghost predicate PrimeAt(s: State, i: int, j: int) {
    Loc(i, j) in s.primes
  }

  /** Primes lie in distinct rows and uncovered columns, and are exactly the primed cells. */
  ghost predicate PrimesListed(s: State, n: nat)
    requires Shape(s, n)
  {
    && (forall t :: 0 <= t < |s.primes| ==> In(n, s.primes[t]) && !s.colCov[s.primes[t].col])
    && (forall t, q :: 0 <= t < q < |s.primes| ==> s.primes[t].row != s.primes[q].row)
    && (forall i, j :: 0 <= i < n && 0 <= j < n ==> (s.mark[i][j] == Primed <==> PrimeAt(s, i, j)))
  }

  ghost predicate EarlierPrime(s: State, t: int, i: int) {
    exists q :: 0 <= q < t && PrimeOfRow(s, i, q)
  }

  /** A star sharing a prime's column lies in the row of an earlier prime. */
  ghost predicate PrimesOrdered(s: State, n: nat)
    requires Shape(s, n)
  {
    forall t, i :: 0 <= t < |s.primes| && 0 <= i < n && s.assignment[i] == s.primes[t].col ==> EarlierPrime(s, t, i)
  }

  /** Every star is covered once: by its row if that row is primed, else by its column. */
  ghost predicate Covers(s: State, n: nat)
    requires Shape(s, n)
  {
    && (forall i :: 0 <= i < n && 0 <= s.assignment[i] < n ==> s.rowCov[i] != s.colCov[s.assignment[i]])
    && (forall i :: 0 <= i < n && s.rowCov[i] ==> s.assignment[i] != UNASSIGNED && EarlierPrime(s, |s.primes|, i))
    && (forall t :: 0 <= t < |s.primes| && 0 <= s.primes[t].row < n ==> s.rowCov[s.primes[t].row])
  }

  ghost predicate Unfinished(s: State, n: nat)
    requires Shape(s, n)
  {
    && (exists i :: 0 <= i < n && s.assignment[i] == UNASSIGNED)
    && (exists j :: 0 <= j < n && !s.colCov[j])
  }

  ghost predicate Priming(s: State, n: nat) {
    && Shape(s, n) && Stars(s, n) && PrimesListed(s, n) && PrimesOrdered(s, n) && Covers(s, n)
    && Unfinished(s, n)
    && (forall t :: 0 <= t < |s.primes| && 0 <= s.primes[t].row < n ==> s.assignment[s.primes[t].row] != UNASSIGNED)
  }

  /** The state a phase leaves: the last prime lies in a star-free row, all others in starred rows. */
  ghost predicate PhaseDone(s: State, n: nat) {
    && Shape(s, n) && Stars(s, n) && PrimesListed(s, n) && PrimesOrdered(s, n)
    && |s.primes| > 0
    && (forall t :: 0 <= t < |s.primes| && 0 <= s.primes[t].row < n ==>
                      (s.assignment[s.primes[t].row] == UNASSIGNED <==> t == |s.primes| - 1))
  }

  /** Between phases: column covers are the starred columns, nothing else is covered or primed. */
  ghost predicate Settled(s: State, n: nat) {
    && Shape(s, n) && Stars(s, n)
    && (forall j :: 0 <= j < n ==> (s.colCov[j] <==> j in s.assignment))
    && (forall i :: 0 <= i < n ==> !s.rowCov[i])
    && (forall i, j :: 0 <= i < n && 0 <= j < n ==> s.mark[i][j] != Primed)
    && s.primes == []
  }

  ghost predicate AllCovered(s: State, n: nat)
    requires Shape(s, n)
  {
    forall j :: 0 <= j < n ==> s.colCov[j]
  }

  ghost predicate CoveredColumnsStarred(s: State, n: nat)
    requires Shape(s, n)
  {
    forall j :: 0 <= j < n && s.colCov[j] ==> j in s.assignment
  }

  // ---- entering a phase --------------------------------------------------------------------

  lemma SettledStarts(s: State, n: nat)
    requires Settled(s, n) && !AllCovered(s, n)
    ensures Priming(s, n)
  {
    var j :| 0 <= j < n && !s.colCov[j];
    if forall i :: 0 <= i < n ==> s.assignment[i] != UNASSIGNED {
      PermutationHits(s.assignment, n, j);
    }
  }

  // ---- a next prime always exists ----------------------------------------------------------

  lemma OpenCell(s: State, n: nat) returns (at: Loc)
    requires Priming(s, n)
    ensures OpenLink(s, n, at)
  {
    var i :| 0 <= i < n && s.assignment[i] == UNASSIGNED;
    var j :| 0 <= j < n && !s.colCov[j];
    at := Loc(i, j);
  }

  /** In an uncovered row nothing is primed and no uncovered cell is starred. */
  lemma OpenCellMarks(s: State, n: nat, at: Loc)
    requires Priming(s, n) && Uncovered(s, n, at)
    ensures s.mark[at.row][at.col] in {Unmarked, Zero}
  {
  }

  // ---- one priming step --------------------------------------------------------------------

  lemma StepFrame(s: State, n: nat, at: Loc)
    requires Priming(s, n) && Picked(s, n, at)
    ensures var r := PrimeStep(s, n, at);
            && r.assignment == s.assignment
            && r.primes == s.primes + [at]
            && !s.rowCov[at.row] && !s.colCov[at.col]
            && (forall i, j :: 0 <= i < n && 0 <= j < n ==>
                                 r.mark[i][j] == if Loc(i, j) == at then Primed else s.mark[i][j])
            && var c := s.assignment[at.row];
            && r.rowCov == (if 0 <= c < n then s.rowCov[at.row := true] else s.rowCov)
            && r.colCov == (if 0 <= c < n then s.colCov[c := false] else s.colCov)
  {
    var p := Prepared(s, n, at);
    assert forall i, j :: 0 <= i < n && 0 <= j < n && Loc(i, j) != at ==> p.mark[i][j] == s.mark[i][j];
  }

  lemma StepStars(s: State, n: nat, at: Loc)
    requires Priming(s, n) && Picked(s, n, at)
    ensures Stars(PrimeStep(s, n, at), n)
  {
    OpenCellMarks(s, n, at);
    StepFrame(s, n, at);
  }

  lemma StepListed(s: State, n: nat, at: Loc)
    requires Priming(s, n) && Picked(s, n, at)
    ensures PrimesListed(PrimeStep(s, n, at), n)
  {
    StepFrame(s, n, at);
    var r := PrimeStep(s, n, at);
    forall t, q | 0 <= t < q < |r.primes| ensures r.primes[t].row != r.primes[q].row {
      if q == |s.primes| { assert s.rowCov[s.primes[t].row]; }
    }
    forall i, j | 0 <= i < n && 0 <= j < n ensures r.mark[i][j] == Primed <==> PrimeAt(r, i, j) {
      assert PrimeAt(r, i, j) <==> PrimeAt(s, i, j) || Loc(i, j) == at;
    }
  }

  lemma StepOrdered(s: State, n: nat, at: Loc)
    requires Priming(s, n) && Picked(s, n, at)
    ensures PrimesOrdered(PrimeStep(s, n, at), n)
  {
    StepFrame(s, n, at);
    var r := PrimeStep(s, n, at);
    forall t, i | 0 <= t < |r.primes| && 0 <= i < n && r.assignment[i] == r.primes[t].col
      ensures EarlierPrime(r, t, i)
    {
      assert EarlierPrime(s, t, i) by {
        if t == |s.primes| { assert s.rowCov[i]; }
      }
      var q :| 0 <= q < t && PrimeOfRow(s, i, q);
      assert PrimeOfRow(r, i, q);
    }
  }

  lemma EarlierKept(s: State, r: State, t: int, i: int)
    requires s.primes <= r.primes && t <= |s.primes| && EarlierPrime(s, t, i)
    ensures EarlierPrime(r, |r.primes|, i)
  {
    var q :| 0 <= q < t && PrimeOfRow(s, i, q);
    assert PrimeOfRow(r, i, q);
  }

  lemma StepCovers(s: State, n: nat, at: Loc)
    requires Priming(s, n) && Picked(s, n, at) && s.assignment[at.row] != UNASSIGNED
    ensures Covers(PrimeStep(s, n, at), n) && Unfinished(PrimeStep(s, n, at), n)
  {
    hide PrimeStep, PrimesListed, PrimesOrdered, EarlierPrime;
    StepFrame(s, n, at);
    var r := PrimeStep(s, n, at);
    forall i | 0 <= i < n && r.rowCov[i] ensures EarlierPrime(r, |r.primes|, i) {
      if i == at.row {
        LastIsEarlier(r, i);
      } else {
        EarlierKept(s, r, |s.primes|, i);
      }
    }
    assert !r.colCov[s.assignment[at.row]];
  }

  lemma LastIsEarlier(r: State, i: int)
    requires |r.primes| > 0 && r.primes[|r.primes| - 1].row == i
    ensures EarlierPrime(r, |r.primes|, i)
  {
    assert PrimeOfRow(r, i, |r.primes| - 1);
  }

  /** Priming a cell of a starred row keeps the phase going; priming one of a star-free row ends it. */
  lemma StepPrimes(s: State, n: nat, at: Loc)
    requires Priming(s, n) && Picked(s, n, at)
    ensures var r := PrimeStep(s, n, at);
            if s.assignment[at.row] != UNASSIGNED then Priming(r, n) else PhaseDone(r, n)
  {
    StepFrame(s, n, at);
    StepStars(s, n, at);
    StepListed(s, n, at);
    StepOrdered(s, n, at);
    if s.assignment[at.row] != UNASSIGNED { StepCovers(s, n, at); }
  }
}
