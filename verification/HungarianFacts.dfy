/** The steps of the assigner in plain terms: which cell is taken, and what every entry is afterwards. */
module HungarianFacts {
  import opened Matchings
  import opened HungarianSteps
  import opened HungarianSolve

  // ---- the cell that is taken -------------------------------------------------------------------

  /** With a marked zero uncovered at (i, j), a marked zero is taken, and none before it in row-major order. */
  lemma TakenZero(s: State, n: nat, at: Loc, i: nat, j: nat)
    requires Shape(s, n) && Picked(s, n, at) && i < n && j < n
    requires !s.rowCov[i] && !s.colCov[j] && (s.mark[i][j] == Zero || s.mark[i][j] == Primed)
    ensures 0 <= at.row < n && 0 <= at.col < n && !s.rowCov[at.row] && !s.colCov[at.col]
    ensures s.mark[at.row][at.col] == Zero || s.mark[at.row][at.col] == Primed
    ensures at.row < i || (at.row == i && at.col <= j)
  {
    assert OpenZero(s, n, Loc(i, j));
  }

  /** Without one, the least uncovered weight is taken, of equal ones the first. */
  lemma TakenMinimum(s: State, n: nat, at: Loc, i: nat, j: nat)
    requires Shape(s, n) && Picked(s, n, at) && i < n && j < n
    requires forall k, l :: 0 <= k < n && 0 <= l < n && !s.rowCov[k] && !s.colCov[l] ==>
      s.mark[k][l] != Zero && s.mark[k][l] != Primed
    requires !s.rowCov[i] && !s.colCov[j] && s.mark[i][j] != NoLink
    ensures 0 <= at.row < n && 0 <= at.col < n && !s.rowCov[at.row] && !s.colCov[at.col]
    ensures s.mark[at.row][at.col] != NoLink && s.w[at.row][at.col] <= s.w[i][j]
    ensures i < at.row || (i == at.row && j < at.col) ==> s.w[at.row][at.col] < s.w[i][j]
  {
    assert OpenLink(s, n, Loc(i, j));
  }

  // ---- one step ---------------------------------------------------------------------------------

  /** The weight at the new zero moves from the uncovered cells to those covered twice. */
  lemma ShiftedEntry(s: State, n: nat, at: Loc, i: nat, j: nat)
    requires Shape(s, n) && 0 <= at.row < n && 0 <= at.col < n && i < n && j < n
    ensures var r, m := AddZero(s, n, at), s.w[at.row][at.col];
      && Shape(r, n) && r.w[i][j] == (if s.rowCov[i] && s.colCov[j] then s.w[i][j] + m
                                      else if s.rowCov[i] || s.colCov[j] then s.w[i][j] else s.w[i][j] - m)
      && r.mark[i][j] == (if i == at.row && j == at.col then Zero else s.mark[i][j])
      && r.assignment == s.assignment && r.rowCov == s.rowCov && r.colCov == s.colCov && r.primes == s.primes
  {
  }

  /** The taken cell is primed and remembered; a starred row is covered and the column of its star uncovered. */
  lemma PrimedEntry(s: State, n: nat, at: Loc, i: nat, j: nat)
    requires Shape(s, n) && 0 <= at.row < n && 0 <= at.col < n && i < n && j < n
    ensures var r, c := PrimeStep(s, n, at), s.assignment[at.row];
      && Shape(r, n) && r.primes == s.primes + [at] && r.assignment == s.assignment
      && r.mark[i][j] == (if i == at.row && j == at.col then Primed else s.mark[i][j])
      && r.rowCov[i] == (s.rowCov[i] || (i == at.row && 0 <= c < n))
      && r.colCov[j] == (s.colCov[j] && j != c)
    ensures var r := PrimeStep(s, n, at);
      (exists k, l :: 0 <= k < n && 0 <= l < n && !s.rowCov[k] && !s.colCov[l]
                      && (s.mark[k][l] == Zero || s.mark[k][l] == Primed)) ==> r.w == s.w
  {
    if k, l :| 0 <= k < n && 0 <= l < n && !s.rowCov[k] && !s.colCov[l]
               && (s.mark[k][l] == Zero || s.mark[k][l] == Primed) {
      assert OpenZero(s, n, Loc(k, l));
    }
  }

  // ---- the flip ---------------------------------------------------------------------------------

  /** On the path stars become zeros and all else stars; off it a prime becomes a zero. */
  lemma FlippedEntry(s: State, n: nat, path: seq<Loc>, i: nat, j: nat)
    requires Shape(s, n) && i < n && j < n
    ensures var r := Augmented(s, n, path);
      && Shape(r, n) && r.w == s.w && r.primes == [] && !r.rowCov[i] && r.colCov[j] == (j in r.assignment)
      && r.mark[i][j] == (if Loc(i, j) in path then (if s.mark[i][j] == Starred then Zero else Starred)
                          else if s.mark[i][j] == Primed then Zero else s.mark[i][j])
  {
  }

  // ---- before the first phase -------------------------------------------------------------------

  /** A row's minimum is the first of its least weights. */
  lemma MinimumExact(row: seq<real>, c: int, j: nat)
    requires RowMinimum(row, c) && j < |row|
    ensures 0 <= c < |row| && row[c] <= row[j] && (j < c ==> row[c] < row[j])
  {
  }

  /** Real rows lose their minimum, padding rows are zeros, and nothing is starred or covered. */
  lemma ReducedEntry(base: Matrix, mins: seq<int>, rows: nat, n: nat, i: nat, j: nat)
    requires Input(base, mins, rows, n) && i < n && j < n
    ensures var s := Unstarred(base, mins, rows, n);
      && Shape(s, n) && s.w[i][j] == (if i < rows then base[i][j] - base[i][mins[i]] else 0.0)
      && s.mark[i][j] == (if i < rows then Unmarked else Zero)
      && s.assignment[i] == -1 && !s.rowCov[i] && !s.colCov[j] && s.primes == []
  {
  }

  /** A minimum is starred in a free column, which is then covered, and is a mere zero in a taken one. */
  lemma StarredMinimum(s: State, n: nat, i: nat, c: nat, k: nat, l: nat)
    requires Shape(s, n) && i < n && c < n && k < n && l < n
    ensures var r := StarMinimum(s, n, i, c);
      && Shape(r, n) && r.w == s.w && r.rowCov == s.rowCov && r.primes == s.primes
      && r.mark[k][l] == (if k == i && l == c then (if s.colCov[c] then Zero else Starred) else s.mark[k][l])
      && r.assignment[k] == (if k == i && !s.colCov[c] then c else s.assignment[k])
      && r.colCov[l] == (s.colCov[l] || l == c)
  {
  }

  /** A padding row stars the first column that is free. */
  lemma StarredFree(s: State, n: nat, i: nat, c: nat, k: nat, l: nat)
    requires Shape(s, n) && i < n && c < n && k < n && l < n
    requires !s.colCov[c] && forall j :: 0 <= j < c ==> s.colCov[j]
    ensures var r := StarFree(s, n, i);
      && Shape(r, n) && r.w == s.w && r.rowCov == s.rowCov && r.primes == s.primes
      && r.mark[k][l] == (if k == i && l == c then Starred else s.mark[k][l])
      && r.assignment[k] == (if k == i then c else s.assignment[k])
      && r.colCov[l] == (s.colCov[l] || l == c)
  {
    assert FirstFree(s, n, c);
    forall j | FirstFree(s, n, j) ensures j == c {}
  }
}
