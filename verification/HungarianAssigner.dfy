/**
 * The assigner itself: fixed-capacity buffers updated in place. Every method is proved against the
 * value-level steps, so the theorems about those hold of what the buffers contain.
 */
module HungarianAssigner {
  import opened Matchings
  import opened HungarianSteps
  import opened HungarianInvariants
  import opened HungarianPhase
  import opened HungarianAugment
  import opened HungarianSolve

  datatype Status = Ok | LengthError | DomainError | OutOfRange

  datatype Answer = Column(index: int) | RangeError

  /** `list` holds, in increasing order, exactly the indices below n at which `covered` is false. */
  ghost predicate Uncovers(list: seq<int>, covered: seq<bool>, n: nat) {
    && n <= |covered|
    && (forall k :: 0 <= k < |list| ==> 0 <= list[k] < n && !covered[list[k]])
    && (forall k, m :: 0 <= k < m < |list| ==> list[k] < list[m])
    && (forall i :: 0 <= i < n && !covered[i] ==> i in list)
  }

  lemma NothingUncovered(covered: seq<bool>)
    ensures Uncovers([], covered, 0)
  {
  }

  lemma UncoversNext(list: seq<int>, covered: seq<bool>, n: nat)
    requires Uncovers(list, covered, n) && n < |covered|
    ensures Uncovers(if covered[n] then list else list + [n], covered, n + 1)
  {
    var next := if covered[n] then list else list + [n];
    forall i | 0 <= i < n + 1 && !covered[i] ensures i in next {
      if i < n { assert i in list; } else { assert next[|list|] == n; }
    }
  }

  /** The cells a nested scan over the uncovered rows and columns has passed at position (idx, jdx). */
  ghost predicate Scanned(rows: seq<int>, cols: seq<int>, idx: int, jdx: int, c: Loc)
    requires 0 <= idx <= |rows| && 0 <= jdx <= |cols|
  {
    c.row in rows[..idx] || (idx < |rows| && c.row == rows[idx] && c.col in cols[..jdx])
  }

  lemma ListedBefore(list: seq<int>, covered: seq<bool>, n: nat, k: int, i: int)
    requires Uncovers(list, covered, n) && 0 <= k < |list|
    requires 0 <= i < list[k] && !covered[i]
    ensures i in list[..k]
  {
    var m :| 0 <= m < |list| && list[m] == i;
    assert list[..k][m] == i;
  }

  /** The scan is row-major: an uncovered cell before the current one has been passed. */
  lemma ScanOrder(s: State, n: nat, rows: seq<int>, cols: seq<int>, idx: int, jdx: int, c: Loc)
    requires Shape(s, n) && Uncovers(rows, s.rowCov, n) && Uncovers(cols, s.colCov, n)
    requires 0 <= idx < |rows| && 0 <= jdx < |cols|
    requires Uncovered(s, n, c) && Before(c, Loc(rows[idx], cols[jdx]))
    ensures Scanned(rows, cols, idx, jdx, c)
  {
    if c.row < rows[idx] {
      ListedBefore(rows, s.rowCov, n, idx, c.row);
    } else {
      ListedBefore(cols, s.colCov, n, jdx, c.col);
    }
  }

  lemma ScanNext(rows: seq<int>, cols: seq<int>, idx: int, jdx: int)
    requires 0 <= idx < |rows| && 0 <= jdx < |cols|
    ensures forall c :: Scanned(rows, cols, idx, jdx + 1, c) ==>
              Scanned(rows, cols, idx, jdx, c) || c == Loc(rows[idx], cols[jdx])
  {
    assert cols[..jdx + 1] == cols[..jdx] + [cols[jdx]];
  }

  lemma ScanAll(s: State, n: nat, rows: seq<int>, cols: seq<int>)
    requires Shape(s, n) && Uncovers(rows, s.rowCov, n)
    ensures forall c :: Uncovered(s, n, c) ==> Scanned(rows, cols, |rows|, 0, c)
  {
    assert rows[..|rows|] == rows;
  }

  lemma ScanNextRow(s: State, n: nat, rows: seq<int>, cols: seq<int>, idx: int)
    requires Shape(s, n) && Uncovers(rows, s.rowCov, n) && Uncovers(cols, s.colCov, n)
    requires 0 <= idx < |rows|
    ensures forall c :: Uncovered(s, n, c) && Scanned(rows, cols, idx + 1, 0, c) ==> Scanned(rows, cols, idx, |cols|, c)
  {
    assert cols[..0] == [];
    assert rows[..idx + 1] == rows[..idx] + [rows[idx]];
    assert cols[..|cols|] == cols;
    forall c | Uncovered(s, n, c) && Scanned(rows, cols, idx + 1, 0, c)
      ensures Scanned(rows, cols, idx, |cols|, c)
    {
      if c.row !in rows[..idx] { assert c.row == rows[idx] && c.col in cols; }
    }
  }

  /** Among the linked cells passed so far, `at` is the first of least weight. */
  ghost predicate LeastScanned(s: State, n: nat, rows: seq<int>, cols: seq<int>, idx: int, jdx: int, at: Loc)
    requires Shape(s, n) && 0 <= idx <= |rows| && 0 <= jdx <= |cols|
  {
    && OpenLink(s, n, at) && Scanned(rows, cols, idx, jdx, at)
    && forall c :: OpenLink(s, n, c) && Scanned(rows, cols, idx, jdx, c) ==>
                     s.w[at.row][at.col] < s.w[c.row][c.col]
                         || (s.w[at.row][at.col] == s.w[c.row][c.col] && !Before(c, at))
  }

  lemma StillLeast(s: State, n: nat, rows: seq<int>, cols: seq<int>, idx: int, jdx: int, at: Loc)
    requires Shape(s, n) && Uncovers(rows, s.rowCov, n) && Uncovers(cols, s.colCov, n)
    requires 0 <= idx < |rows| && 0 <= jdx < |cols|
    requires LeastScanned(s, n, rows, cols, idx, jdx, at)
    requires s.w[at.row][at.col] <= s.w[rows[idx]][cols[jdx]]
    ensures LeastScanned(s, n, rows, cols, idx, jdx + 1, at)
  {
    ScanNext(rows, cols, idx, jdx);
    assert cols[..jdx] <= cols[..jdx + 1];
    assert !Before(Loc(rows[idx], cols[jdx]), at);
  }

  /** What the scan for the least weight knows at position (idx, jdx). */
  ghost predicate MinimumScan(s: State, n: nat, rows: seq<int>, cols: seq<int>, idx: int, jdx: int,
                              found: bool, at: Loc, minVal: real)
    requires Shape(s, n) && 0 <= idx <= |rows| && 0 <= jdx <= |cols|
  {
    if found then LeastScanned(s, n, rows, cols, idx, jdx, at) && minVal == s.w[at.row][at.col]
    else forall c :: OpenLink(s, n, c) ==> !Scanned(rows, cols, idx, jdx, c)
  }

  lemma MinimumScanStart(s: State, n: nat, rows: seq<int>, cols: seq<int>, at: Loc, minVal: real)
    requires Shape(s, n)
    ensures MinimumScan(s, n, rows, cols, 0, 0, false, at, minVal)
  {
  }

  lemma MinimumScanCell(s: State, n: nat, rows: seq<int>, cols: seq<int>, idx: int, jdx: int,
                        found: bool, at: Loc, minVal: real)
    requires Shape(s, n) && Uncovers(rows, s.rowCov, n) && Uncovers(cols, s.colCov, n)
    requires 0 <= idx < |rows| && 0 <= jdx < |cols|
    requires MinimumScan(s, n, rows, cols, idx, jdx, found, at, minVal)
    ensures var here := Loc(rows[idx], cols[jdx]);
            var take := s.mark[here.row][here.col] != NoLink && (!found || s.w[here.row][here.col] < minVal);
            MinimumScan(s, n, rows, cols, idx, jdx + 1, found || take, if take then here else at,
                        if take then s.w[here.row][here.col] else minVal)
  {
    ScanNext(rows, cols, idx, jdx);
    var here := Loc(rows[idx], cols[jdx]);
    assert Scanned(rows, cols, idx, jdx + 1, here) by {
      assert cols[..jdx + 1][jdx] == cols[jdx];
    }
    if found && !(s.w[here.row][here.col] < minVal) {
      StillLeast(s, n, rows, cols, idx, jdx, at);
    } else if found && s.mark[here.row][here.col] == NoLink {
      assert cols[..jdx] <= cols[..jdx + 1];
    }
  }

  lemma MinimumScanRow(s: State, n: nat, rows: seq<int>, cols: seq<int>, idx: int, found: bool, at: Loc, minVal: real)
    requires Shape(s, n) && Uncovers(rows, s.rowCov, n) && Uncovers(cols, s.colCov, n)
    requires 0 <= idx < |rows|
    requires MinimumScan(s, n, rows, cols, idx, |cols|, found, at, minVal)
    ensures MinimumScan(s, n, rows, cols, idx + 1, 0, found, at, minVal)
  {
    ScanNextRow(s, n, rows, cols, idx);
    assert rows[..idx + 1] == rows[..idx] + [rows[idx]];
  }

  lemma MinimumScanEnd(s: State, n: nat, rows: seq<int>, cols: seq<int>, found: bool, at: Loc, minVal: real)
    requires Shape(s, n) && Uncovers(rows, s.rowCov, n)
    requires MinimumScan(s, n, rows, cols, |rows|, 0, found, at, minVal)
    ensures found <==> HasOpenLink(s, n)
    ensures found ==> FirstMinimum(s, n, at) && In(n, at) && minVal == s.w[at.row][at.col]
  {
    ScanAll(s, n, rows, cols);
  }

  lemma IsAddZero(s: State, n: nat, at: Loc, w: Matrix)
    requires Shape(s, n) && In(n, at) && Rectangular(w, n, n)
    requires forall i, j :: 0 <= i < n && 0 <= j < n ==>
               w[i][j] == s.w[i][j] + (if s.rowCov[i] then s.w[at.row][at.col] else 0.0)
                          - (if s.colCov[j] then 0.0 else s.w[at.row][at.col])
    ensures AddZero(s, n, at) == s.(w := w, mark := Put(s.mark, at, Zero))
  {
    SameBlock(w, AddZero(s, n, at).w, n);
  }

  /** Whatever phase runs on from s after `done` primes is a phase from `start`. */
  ghost predicate Continues(start: State, s: State, n: nat, done: nat)
    requires Shape(start, n) && Shape(s, n)
  {
    forall r, last, k: nat :: Phase(s, n, r, last, k) ==> Phase(start, n, r, last, k + done)
  }

  lemma ContinuesAtStart(start: State, n: nat)
    requires Shape(start, n)
    ensures Continues(start, start, n, 0)
  {
  }

  lemma ContinuesStep(start: State, s: State, n: nat, done: nat, at: Loc)
    requires Shape(start, n) && Priming(s, n) && Continues(start, s, n, done)
    requires Picked(s, n, at) && In(n, at)
    ensures var r := PrimeStep(s, n, at);
            if 0 <= s.assignment[at.row] < n then Priming(r, n) && Continues(start, r, n, done + 1)
            else PhaseDone(r, n) && Phase(start, n, r, at, done + 1)
    ensures PrimeStep(s, n, at).primes == s.primes + [at]
  {
    hide Stars, PrimesListed, PrimesOrdered, Covers, Unfinished, Picked;
    var next := PrimeStep(s, n, at);
    StepPrimes(s, n, at);
    AssignmentRange(s, n, at.row);
    if 0 <= s.assignment[at.row] < n {
      forall r, last, k: nat | Phase(next, n, r, last, k) ensures Phase(start, n, r, last, k + (done + 1)) {
        assert PhaseVia(s, n, at, r, last, k + 1);
        assert Phase(s, n, r, last, k + 1);
      }
    } else {
      assert PhaseVia(s, n, at, next, at, 1);
      assert Phase(s, n, next, at, 1);
    }
  }

  lemma AssignmentRange(s: State, n: nat, i: int)
    requires Priming(s, n) && 0 <= i < n
    ensures s.assignment[i] == UNASSIGNED || 0 <= s.assignment[i] < n
  {
  }

  lemma PrimedStars(s: State, n: nat, at: Loc)
    requires Priming(s, n) && Picked(s, n, at)
    ensures Stars(WithPrime(Prepared(s, n, at), n, at), n)
  {
    OpenCellMarks(s, n, at);
  }

  lemma PhaseDoneWalkable(s: State, n: nat)
    requires PhaseDone(s, n)
    ensures Walkable(s, n)
  {
  }

  /** `prefix` has been walked up to prime t. */
  ghost predicate OnWalk(s: State, n: nat, prefix: seq<Loc>, t: int)
    requires |s.assignment| == n
  {
    && 0 <= t < |s.primes| && |prefix| > 0 && prefix[|prefix| - 1] == s.primes[t]
    && |PathFrom(s, n, t)| > 0
    && prefix + PathFrom(s, n, t)[1..] == FullPath(s, n)
  }

  lemma WalkStart(s: State, n: nat)
    requires Walkable(s, n) && |s.primes| > 0
    ensures OnWalk(s, n, [s.primes[LastPrime(s)]], LastPrime(s))
  {
    assert FullPath(s, n) == [s.primes[LastPrime(s)]] + FullPath(s, n)[1..];
  }

  lemma WalkStep(s: State, n: nat, prefix: seq<Loc>, t: int, row: int) returns (q: nat)
    requires Walkable(s, n) && OnWalk(s, n, prefix, t)
    requires StarInColumn(s, n, s.primes[t].col, row)
    ensures q < t && s.primes[q].row == row
    ensures OnWalk(s, n, prefix + [Loc(row, s.primes[t].col), s.primes[q]], q)
  {
    hide Stars, PrimesListed, PrimesOrdered;
    q := NextOnPath(s, n, t, row);
    var rest := PathFrom(s, n, q);
    assert rest == [s.primes[q]] + rest[1..];
    assert PathFrom(s, n, t)[1..] == [Loc(row, s.primes[t].col)] + rest;
    assert prefix + ([Loc(row, s.primes[t].col)] + rest) == prefix + [Loc(row, s.primes[t].col), s.primes[q]]
        + rest[1..];
  }

  lemma WalkEnd(s: State, n: nat, prefix: seq<Loc>, t: int)
    requires Walkable(s, n) && OnWalk(s, n, prefix, t)
    requires !StarredColumn(s, n, s.primes[t].col)
    ensures prefix == FullPath(s, n)
  {
    PathEnd(s, n, t);
    assert prefix + [] == prefix;
  }

  ghost predicate StarredColumn(s: State, n: nat, c: int)
    requires |s.assignment| == n
  {
    exists i :: StarInColumn(s, n, c, i)
  }

  lemma PathEnd(s: State, n: nat, t: nat)
    requires Walkable(s, n) && t < |s.primes|
    requires !StarredColumn(s, n, s.primes[t].col)
    ensures PathFrom(s, n, t) == [s.primes[t]]
  {
  }

  lemma PrimeColumn(s: State, n: nat, t: nat)
    requires Walkable(s, n) && t < |s.primes|
    ensures Stars(s, n) && In(n, s.primes[t])
  {
  }

  // ---- the path flip, cell by cell -----------------------------------------------------------

  /** Exactly the cells of `part` have been flipped. */
  ghost predicate FlippedSoFar(s: State, n: nat, part: seq<Loc>, marks: seq<seq<Mark>>)
    requires Shape(s, n)
  {
    && Rectangular(marks, n, n)
    && forall i, j :: 0 <= i < n && 0 <= j < n ==>
                        marks[i][j] == if Loc(i, j) !in part then s.mark[i][j]
                            else if s.mark[i][j] == Starred then Zero else Starred
  }

  /** Rows with a new star in `part` are assigned to its column, all others as before. */
  ghost predicate AssignedSoFar(s: State, n: nat, part: seq<Loc>, a: seq<int>)
    requires Shape(s, n)
  {
    && |a| == n
    && (forall i, j :: NewStar(s, n, part, i, j) ==> a[i] == j)
    && (forall i :: 0 <= i < n ==> a[i] == s.assignment[i] || NewStar(s, n, part, i, a[i]))
  }

  ghost predicate Halfway(s: State, n: nat, path: seq<Loc>, marks: seq<seq<Mark>>, a: seq<int>)
    requires Shape(s, n)
  {
    FlippedSoFar(s, n, path, marks) && AssignedSoFar(s, n, path, a)
  }

  lemma PathDistinct(s: State, n: nat)
    requires PhaseDone(s, n)
    ensures forall c :: c in FullPath(s, n) ==> In(n, c)
    ensures forall a, b :: 0 <= a < b < |FullPath(s, n)| ==> FullPath(s, n)[a] != FullPath(s, n)[b]
    ensures forall i, j, k :: NewStar(s, n, FullPath(s, n), i, j) && NewStar(s, n, FullPath(s, n), i, k) ==> j == k
  {
    PathAlternates(s, n, LastPrime(s));
    forall i, j, k | NewStar(s, n, FullPath(s, n), i, j) && NewStar(s, n, FullPath(s, n), i, k) ensures j == k {
      CellOnPath(s, n, Loc(i, j));
      CellOnPath(s, n, Loc(i, k));
      PathPrimeRow(s, n, FullPath(s, n), Loc(i, j), Loc(i, k));
    }
  }

  lemma NothingFlipped(s: State, n: nat)
    requires Shape(s, n)
    ensures Halfway(s, n, [], s.mark, s.assignment)
  {
  }

  lemma FlipOne(s: State, n: nat, path: seq<Loc>, idx: int, marks: seq<seq<Mark>>, a: seq<int>)
    requires Shape(s, n) && 0 <= idx < |path| && In(n, path[idx])
    requires forall a, b :: 0 <= a < b < |path| ==> path[a] != path[b]
    requires forall i, j, k :: NewStar(s, n, path, i, j) && NewStar(s, n, path, i, k) ==> j == k
    requires Halfway(s, n, path[..idx], marks, a)
    ensures var at := path[idx];
            && marks[at.row][at.col] == s.mark[at.row][at.col]
            && if s.mark[at.row][at.col] == Starred then Halfway(s, n, path[..idx + 1], Put(marks, at, Zero), a)
               else Halfway(s, n, path[..idx + 1], Put(marks, at, Starred), a[at.row := at.col])
  {
    var at := path[idx];
    assert path[..idx + 1] == path[..idx] + [at];
    forall c | c in path[..idx] ensures c != at && c in path {
      var k :| 0 <= k < idx && path[k] == c;
    }
    assert at in path;
    assert forall i, j :: NewStar(s, n, path[..idx + 1], i, j) <==>
                            NewStar(s, n, path[..idx], i, j) || (at == Loc(i, j) && s.mark[at.row][at.col] != Starred);
    forall i, j | NewStar(s, n, path[..idx], i, j) ensures i != at.row || s.mark[at.row][at.col] == Starred {
      assert NewStar(s, n, path, i, j);
      if i == at.row && s.mark[at.row][at.col] != Starred { assert NewStar(s, n, path, at.row, at.col); }
    }
  }

  lemma ReassignedAll(s: State, n: nat, path: seq<Loc>, a: seq<int>)
    requires PhaseDone(s, n) && path == FullPath(s, n)
    requires |a| == n && exists marks :: Halfway(s, n, path, marks, a)
    ensures a == Reassigned(s, n, path)
    ensures forall i :: 0 <= i < n ==> a[i] == UNASSIGNED || 0 <= a[i] < n
  {
    forall i | 0 <= i < n ensures a[i] == Reassigned(s, n, path)[i] {}
    AugmentSettles(s, n);
  }

  lemma PrimesInside(s: State, n: nat)
    requires PhaseDone(s, n)
    ensures forall t :: 0 <= t < |s.primes| ==> In(n, s.primes[t])
  {
  }

  lemma AllErased(s: State, n: nat, path: seq<Loc>, before: seq<seq<Mark>>)
    requires PhaseDone(s, n) && path == FullPath(s, n) && FlippedSoFar(s, n, path, before)
    ensures forall i, j :: 0 <= i < n && 0 <= j < n ==>
              Flipped(s, n, path)[i][j] == if before[i][j] == Primed && Loc(i, j) in s.primes then Zero
                  else before[i][j]
  {
    forall i, j | 0 <= i < n && 0 <= j < n && s.mark[i][j] == Primed ensures Loc(i, j) in s.primes {
      assert PrimeAt(s, i, j);
    }
  }

  /** The first `rows` rows of w over rows of zeros. */
  ghost function PaddedBelow(w: Matrix, rows: nat, n: nat): (base: Matrix)
    requires Rectangular(w, n, n)
    ensures Rectangular(base, n, n)
  {
    seq(n, i requires 0 <= i < n => seq(n, j requires 0 <= j < n => if i < rows then w[i][j] else 0.0))
  }

  lemma InitialRowsUncovered(base: Matrix, mins: seq<int>, rows: nat, n: nat)
    requires Input(base, mins, rows, n)
    ensures Initial(base, mins, rows, n) == RowsStarred(base, mins, rows, n, n)
    ensures forall i :: 0 <= i < n ==> !Initial(base, mins, rows, n).rowCov[i]
  {
    RowsStarredSettled(base, mins, rows, n, n);
  }

  lemma IsUnstarred(base: Matrix, mins: seq<int>, rows: nat, n: nat, s: State)
    requires Input(base, mins, rows, n) && Shape(s, n)
    requires forall i, j :: 0 <= i < n && 0 <= j < n ==>
      s.w[i][j] == base[i][j] - (if i < rows then base[i][mins[i]] else 0.0)
    requires forall i, j :: 0 <= i < n && 0 <= j < n ==> s.mark[i][j] == if i < rows then Unmarked else Zero
    requires forall i :: 0 <= i < n ==> s.assignment[i] == UNASSIGNED && !s.rowCov[i] && !s.colCov[i]
    requires s.primes == []
    ensures s == Unstarred(base, mins, rows, n)
  {
    var u := Unstarred(base, mins, rows, n);
    SameBlock(s.w, u.w, n);
    SameBlock(s.mark, u.mark, n);
    assert s.assignment == u.assignment && s.rowCov == u.rowCov && s.colCov == u.colCov;
  }

  // ---- the passes ----------------------------------------------------------------------------

  /** Whatever solution runs on from s after `done` passes is a solution from `start`. */
  ghost predicate SolvesFrom(start: State, s: State, n: nat, done: nat)
    requires Shape(start, n) && Shape(s, n)
  {
    forall r, k: nat :: Solved(s, n, r, k) ==> Solved(start, n, r, k + done)
  }

  lemma SolvesFromStart(start: State, n: nat)
    requires Shape(start, n)
    ensures SolvesFrom(start, start, n, 0)
  {
  }

  lemma SolvesFromEnd(start: State, s: State, n: nat, done: nat)
    requires Shape(start, n) && Shape(s, n) && SolvesFrom(start, s, n, done) && AllCovered(s, n)
    ensures Solved(start, n, s, done)
  {
    assert Solved(s, n, s, 0);
  }

  lemma SolvedAlready(s: State, n: nat)
    requires Shape(s, n) && AllCovered(s, n)
    ensures Solved(s, n, s, 0)
  {
  }

  lemma PhaseLast(base: Matrix, s: State, n: nat, mid: State, last: Loc, steps: nat)
    requires Priming(s, n) && Dual(base, s.w, n) && Phase(s, n, mid, last, steps)
    ensures PhaseDone(mid, n) && last == mid.primes[LastPrime(mid)]
  {
    PhaseKeeps(base, s, n, mid, last, steps);
  }

  lemma PassHappened(base: Matrix, start: State, s: State, n: nat, mid: State, last: Loc, steps: nat, r: State,
      done: nat)
    requires Shape(start, n) && Settled(s, n) && !AllCovered(s, n) && Dual(base, s.w, n)
    requires SolvesFrom(start, s, n, done)
    requires Phase(s, n, mid, last, steps) && PhaseDone(mid, n) && r == Augmented(mid, n, FullPath(mid, n))
    ensures Settled(r, n) && Dual(base, r.w, n)
    ensures SolvesFrom(start, r, n, done + 1)
    ensures |StarredRows(r.assignment)| == |StarredRows(s.assignment)| + 1
  {
    assert Pass(s, n, mid, last, steps, r);
    PassAddsStar(base, s, n, mid, last, steps, r);
    hide Stars, PrimesListed, PrimesOrdered, Dual, Phase, PathFrom, Augmented, StarredRows;
    forall q, k: nat | Solved(r, n, q, k) ensures Solved(start, n, q, k + (done + 1)) {
      assert SolvedVia(s, n, mid, last, steps, r, q, k + 1);
      assert Solved(s, n, q, k + 1);
    }
  }

  class Assigner {
    const capacity: nat
    var numRows: nat
    var numCols: nat
    const weight: array2<real>
    const mark: array2<Mark>
    const isMax: array2<bool>
    const rowMinIdx: array<int>
    const rowMinWeights: array<real>
    const assignments: array<int>
    const colCovered: array<bool>
    const rowCovered: array<bool>
    var numUncoveredRows: nat
    var numUncoveredCols: nat
    const uncoveredRows: array<int>
    const uncoveredCols: array<int>
    const augmentPath: array<Loc>
    const primedZeroLocs: array<Loc>
    var numPrimedZeros: nat

    ghost predicate Sized() {
      && weight.Length0 == weight.Length1 == capacity
      && mark.Length0 == mark.Length1 == capacity
      && isMax.Length0 == isMax.Length1 == capacity
      && rowMinIdx.Length == rowMinWeights.Length == assignments.Length == capacity
      && colCovered.Length == rowCovered.Length == capacity
      && uncoveredRows.Length == uncoveredCols.Length == primedZeroLocs.Length == capacity
      && augmentPath.Length == 2 * capacity
      && colCovered != rowCovered && augmentPath != primedZeroLocs
      && rowMinIdx != assignments && rowMinIdx != uncoveredRows && rowMinIdx != uncoveredCols
      && assignments != uncoveredRows && assignments != uncoveredCols && uncoveredRows != uncoveredCols
    }

    ghost predicate Valid()
      reads this
    {
      Sized() && numRows <= numCols <= capacity && numPrimedZeros <= capacity
    }

    /** The n x n problem the buffers hold. */
    ghost function Model(): (s: State)
      requires Valid()
      reads this, weight, mark, assignments, rowCovered, colCovered, primedZeroLocs
      ensures Shape(s, numCols)
    {
      State(Block(weight, numCols), Block(mark, numCols), assignments[..numCols],
            rowCovered[..numCols], colCovered[..numCols], primedZeroLocs[..numPrimedZeros])
    }

    // ---- scanning ------------------------------------------------------------------------

    ghost predicate Listed()
      requires Valid()
      reads this, uncoveredRows, uncoveredCols, rowCovered, colCovered
    {
      && numUncoveredRows <= capacity && numUncoveredCols <= capacity
      && Uncovers(uncoveredRows[..numUncoveredRows], rowCovered[..numCols], numCols)
      && Uncovers(uncoveredCols[..numUncoveredCols], colCovered[..numCols], numCols)
    }

    method AreAllColumnsCovered() returns (ret: bool)
      requires Valid()
      ensures ret <==> AllCovered(Model(), numCols)
    {
      ret := true;
      for idx := 0 to numCols
        invariant ret <==> forall j :: 0 <= j < idx ==> colCovered[j]
      {
        ret := colCovered[idx] && ret;
      }
    }

    method FindUncoveredZero() returns (found: bool, loc: Loc)
      requires Valid() && Listed()
      ensures found <==> HasOpenZero(Model(), numCols)
      ensures found ==> FirstZero(Model(), numCols, loc)
    {
      ghost var s, n := Model(), numCols;
      ghost var rows, cols := uncoveredRows[..numUncoveredRows], uncoveredCols[..numUncoveredCols];
      found, loc := false, Loc(0, 0);
      for idx := 0 to numUncoveredRows
        invariant !found
        invariant forall c :: OpenZero(s, n, c) ==> !Scanned(rows, cols, idx, 0, c)
      {
        for jdx := 0 to numUncoveredCols
          invariant !found
          invariant forall c :: OpenZero(s, n, c) ==> !Scanned(rows, cols, idx, jdx, c)
        {
          var row, col := uncoveredRows[idx], uncoveredCols[jdx];
          assert row == rows[idx] && col == cols[jdx];
          var m := mark[row, col];
          if m != NoLink && (m == Zero || m == Primed) {
            found := true;
            loc := Loc(row, col);
            assert OpenZero(s, n, loc);
            forall c | OpenZero(s, n, c) ensures !Before(c, loc) {
              if Before(c, loc) { ScanOrder(s, n, rows, cols, idx, jdx, c); }
            }
            break;
          }
          ScanNext(rows, cols, idx, jdx);
        }
        if found { break; }
        ScanNextRow(s, n, rows, cols, idx);
      }
      ScanAll(s, n, rows, cols);
    }

    /** The first least weight among the linked uncovered cells; the initial bound is above every weight. */
    method FindMinimumUncoveredValue() returns (found: bool, loc: Loc, minVal: real)
      requires Valid() && Listed()
      ensures found <==> HasOpenLink(Model(), numCols)
      ensures found ==> FirstMinimum(Model(), numCols, loc) && In(numCols, loc) && minVal == Model().w[loc.row][loc.col]
    {
      hide MinimumScan, LeastScanned, FirstMinimum, HasOpenLink, OpenLink;
      ghost var s, n := Model(), numCols;
      ghost var rows, cols := uncoveredRows[..numUncoveredRows], uncoveredCols[..numUncoveredCols];
      found, loc, minVal := false, Loc(0, 0), 0.0;
      MinimumScanStart(s, n, rows, cols, loc, minVal);
      for idx := 0 to numUncoveredRows
        invariant MinimumScan(s, n, rows, cols, idx, 0, found, loc, minVal)
      {
        for jdx := 0 to numUncoveredCols
          invariant MinimumScan(s, n, rows, cols, idx, jdx, found, loc, minVal)
        {
          var row, col := uncoveredRows[idx], uncoveredCols[jdx];
          assert row == rows[idx] && col == cols[jdx];
          MinimumScanCell(s, n, rows, cols, idx, jdx, found, loc, minVal);
          if mark[row, col] != NoLink {
            var val := weight[row, col];
            if !found || val < minVal {
              found, minVal, loc := true, val, Loc(row, col);
            }
          }
        }
        MinimumScanRow(s, n, rows, cols, idx, found, loc, minVal);
      }
      MinimumScanEnd(s, n, rows, cols, found, loc, minVal);
    }

    // ---- priming -------------------------------------------------------------------------

    /** Writes the indices below numCols at which `covered` is false into `list`. */
    method ListUncovered(list: array<int>, covered: array<bool>) returns (count: nat)
      requires Valid() && list.Length == covered.Length == capacity
      modifies list
      ensures count <= capacity && Uncovers(list[..count], covered[..numCols], numCols)
    {
      hide Uncovers;
      count := 0;
      NothingUncovered(covered[..numCols]);
      for idx := 0 to numCols
        invariant count <= idx
        invariant Uncovers(list[..count], covered[..numCols], idx)
      {
        UncoversNext(list[..count], covered[..numCols], idx);
        if !covered[idx] {
          ghost var before := list[..count];
          list[count] := idx;
          count := count + 1;
          assert list[..count] == before + [idx];
        }
      }
    }

    method UpdateUncoveredRowsAndCols()
      requires Valid()
      modifies this`numUncoveredRows, this`numUncoveredCols, uncoveredRows, uncoveredCols
      ensures Valid() && Listed()
      ensures Model() == old(Model())
    {
      hide Uncovers, Block;
      numUncoveredRows := ListUncovered(uncoveredRows, rowCovered);
      numUncoveredCols := ListUncovered(uncoveredCols, colCovered);
    }

    method SetMark(at: Loc, m: Mark)
      requires Valid() && In(numCols, at)
      modifies mark
      ensures Block(mark, numCols) == Put(old(Block(mark, numCols)), at, m)
    {
      mark[at.row, at.col] := m;
      SameBlock(Block(mark, numCols), Put(old(Block(mark, numCols)), at, m), numCols);
    }

    method AddToCoveredRows(minVal: real)
      requires Valid()
      modifies weight
      ensures forall i, j :: 0 <= i < numCols && 0 <= j < numCols ==>
                weight[i, j] == old(weight[i, j]) + (if rowCovered[i] then minVal else 0.0)
    {
      for idx := 0 to numCols
        invariant forall i, j :: 0 <= i < numCols && 0 <= j < numCols ==>
                    weight[i, j] == old(weight[i, j]) + (if i < idx && rowCovered[i] then minVal else 0.0)
      {
        if rowCovered[idx] {
          forall j | 0 <= j < numCols {
            weight[idx, j] := weight[idx, j] + minVal;
          }
        }
      }
    }

    method SubtractFromUncoveredColumns(minVal: real)
      requires Valid()
      modifies weight
      ensures forall i, j :: 0 <= i < numCols && 0 <= j < numCols ==>
                weight[i, j] == old(weight[i, j]) - (if colCovered[j] then 0.0 else minVal)
    {
      for idx := 0 to numCols
        invariant forall i, j :: 0 <= i < numCols && 0 <= j < numCols ==>
                    weight[i, j] == old(weight[i, j]) - (if j < idx && !colCovered[j] then minVal else 0.0)
      {
        if !colCovered[idx] {
          forall i | 0 <= i < numCols {
            weight[i, idx] := weight[i, idx] - minVal;
          }
        }
      }
    }

    /** Step 6: shift the weights by the least uncovered one and mark its cell. */
    method AddNewZero() returns (ret: bool, loc: Loc)
      requires Valid() && Listed()
      modifies weight, mark
      ensures ret <==> HasOpenLink(old(Model()), numCols)
      ensures ret ==> FirstMinimum(old(Model()), numCols, loc) && In(numCols, loc)
                      && Model() == AddZero(old(Model()), numCols, loc)
      ensures !ret ==> Model() == old(Model())
    {
      hide Uncovers, HasOpenLink, FirstMinimum, AddZero, Put;
      ghost var s, n := Model(), numCols;
      var minVal;
      ret, loc, minVal := FindMinimumUncoveredValue();
      if ret {
        AddToCoveredRows(minVal);
        SubtractFromUncoveredColumns(minVal);
        IsAddZero(s, n, loc, Block(weight, n));
        SetMark(loc, Zero);
      }
    }

    /** The picked cell: an uncovered marked zero, or the one AddNewZero makes. */
    method PickZero() returns (loc: Loc)
      requires Valid() && Priming(Model(), numCols)
      modifies this`numUncoveredRows, this`numUncoveredCols, uncoveredRows, uncoveredCols, weight, mark
      ensures Valid() && In(numCols, loc)
      ensures Picked(old(Model()), numCols, loc)
      ensures Model() == Prepared(old(Model()), numCols, loc)
    {
      hide Stars, PrimesListed, PrimesOrdered, Covers, Unfinished, FirstMinimum, Uncovers, AddZero, Block;
      UpdateUncoveredRowsAndCols();
      ghost var s := Model();
      var found;
      found, loc := FindUncoveredZero();
      if !found {
        var added;
        added, loc := AddNewZero();
        if !added {
          // the source throws no_uncovered_values_c here
          var c := OpenCell(s, numCols);
          assert false;
        }
      }
    }

    /** The first starred column of a row, if any. */
    method StarInRow(row: int) returns (found: bool, starCol: int)
      requires Valid() && Stars(Model(), numCols) && 0 <= row < numCols
      ensures found <==> 0 <= assignments[row] < numCols
      ensures found ==> starCol == assignments[row]
    {
      ghost var s := Model();
      assert 0 <= s.assignment[row] < numCols ==> s.mark[row][s.assignment[row]] == Starred;
      found, starCol := false, 0;
      for jdx := 0 to numCols
        invariant !found && forall j :: 0 <= j < jdx ==> s.mark[row][j] != Starred
      {
        if mark[row, jdx] == Starred {
          assert s.mark[row][jdx] == Starred;
          found, starCol := true, jdx;
          break;
        }
      }
    }

    method PushPrime(loc: Loc)
      requires Valid() && In(numCols, loc) && numPrimedZeros < capacity
      modifies this`numPrimedZeros, mark, primedZeroLocs
      ensures Valid() && Model() == WithPrime(old(Model()), numCols, loc)
    {
      hide Block, Put;
      ghost var s := Model();
      SetMark(loc, Primed);
      primedZeroLocs[numPrimedZeros] := loc;
      numPrimedZeros := numPrimedZeros + 1;
      assert primedZeroLocs[..numPrimedZeros] == s.primes + [loc];
    }

    method SwapCover(row: int, starCol: int)
      requires Valid() && 0 <= row < numCols && 0 <= starCol < numCols
      modifies rowCovered, colCovered
      ensures Model() == var s := old(Model());
                         s.(rowCov := s.rowCov[row := true], colCov := s.colCov[starCol := false])
    {
      ghost var s := Model();
      rowCovered[row] := true;
      colCovered[starCol] := false;
      assert rowCovered[..numCols] == s.rowCov[row := true];
      assert colCovered[..numCols] == s.colCov[starCol := false];
    }

    /** Prime the next cell and swap covers when its row has a star. */
    method PrimeOnce() returns (loc: Loc, found: bool)
      requires Valid() && Priming(Model(), numCols)
      modifies this`numUncoveredRows, this`numUncoveredCols, this`numPrimedZeros
      modifies uncoveredRows, uncoveredCols, weight, mark, primedZeroLocs, rowCovered, colCovered
      ensures Valid() && In(numCols, loc)
      ensures Picked(old(Model()), numCols, loc)
      ensures Model() == PrimeStep(old(Model()), numCols, loc)
      ensures found <==> 0 <= old(Model()).assignment[loc.row] < numCols
    {
      hide Stars, PrimesListed, PrimesOrdered, Covers, Unfinished, Picked, Block, HasOpenZero, AddZero;
      ghost var s := Model();
      PrimesBound(s, numCols);
      loc := PickZero();
      PushPrime(loc);
      PrimedStars(s, numCols, loc);
      var starCol;
      found, starCol := StarInRow(loc.row);
      if found { SwapCover(loc.row, starCol); }
    }

    /** Steps 4 and 6: prime uncovered zeros until one lies in a star-free row. */
    method PrimeUncoveredZero() returns (loc: Loc, ghost steps: nat)
      requires Valid() && Priming(Model(), numCols) && numPrimedZeros == 0
      modifies this`numUncoveredRows, this`numUncoveredCols, this`numPrimedZeros
      modifies uncoveredRows, uncoveredCols, weight, mark, primedZeroLocs, rowCovered, colCovered
      ensures Valid()
      ensures Phase(old(Model()), numCols, Model(), loc, steps)
      ensures PhaseDone(Model(), numCols) && |Model().primes| == steps <= numCols
    {
      hide Stars, PrimesListed, PrimesOrdered, Covers, Unfinished, Picked, Block, Phase, PrimeStep, Continues;
      ghost var start, n := Model(), numCols;
      loc, steps := Loc(0, 0), 0;
      var done := false;
      var idx := 0;
      ContinuesAtStart(start, n);
      while idx < numCols && !done
        invariant idx <= numCols && Valid() && numCols == n
        invariant |Model().primes| == idx
        invariant !done ==> Priming(Model(), n) && Continues(start, Model(), n, idx)
        invariant done ==> PhaseDone(Model(), n) && Phase(start, n, Model(), loc, idx)
        decreases numCols - idx
      {
        ghost var s := Model();
        var found;
        loc, found := PrimeOnce();
        ContinuesStep(start, s, n, idx, loc);
        done := !found;
        idx := idx + 1;
      }
      if !done { PrimesBound(Model(), n); }
      steps := idx;
    }

    // ---- augmenting ----------------------------------------------------------------------

    method FindStarInColumn(col: int) returns (found: bool, row: int)
      requires Valid() && Stars(Model(), numCols) && 0 <= col < numCols
      ensures found <==> StarredColumn(Model(), numCols, col)
      ensures found ==> StarInColumn(Model(), numCols, col, row)
    {
      ghost var s := Model();
      assert forall i :: StarInColumn(s, numCols, col, i) ==> s.mark[i][col] == Starred;
      found, row := false, 0;
      for jdx := 0 to numCols
        invariant !found && forall i :: 0 <= i < jdx ==> s.mark[i][col] != Starred
      {
        if mark[jdx, col] == Starred {
          assert s.mark[jdx][col] == Starred && StarInColumn(s, numCols, col, jdx);
          found, row := true, jdx;
          break;
        }
      }
    }

    method FindPrimeInRow(row: int, ghost q: int) returns (col: int)
      requires Valid() && Walkable(Model(), numCols)
      requires PrimeOfRow(Model(), row, q)
      ensures Model().primes[q] == Loc(row, col)
    {
      ghost var s := Model();
      ghost var p := s.primes[q];
      assert PrimeAt(s, p.row, p.col);
      col := 0;
      var found := false;
      for jdx := 0 to numCols
        invariant !found && forall j :: 0 <= j < jdx ==> s.mark[row][j] != Primed
      {
        if mark[row, jdx] == Primed {
          assert s.mark[row][jdx] == Primed && PrimeAt(s, row, jdx);
          assert exists k :: 0 <= k < |s.primes| && s.primes[k] == Loc(row, jdx);
          found, col := true, jdx;
          break;
        }
      }
      if !found {
        // the source throws "Guaranteed to find prime in row!" here
        assert false;
      }
    }

    /** Records the alternating path from the last prime into the path buffer. */
    method BuildPath(start: Loc) returns (pathSize: nat)
      requires Valid() && PhaseDone(Model(), numCols) && |Model().primes| <= numCols
      requires start == Model().primes[LastPrime(Model())]
      modifies augmentPath
      ensures pathSize <= 2 * capacity && augmentPath[..pathSize] == FullPath(old(Model()), numCols)
    {
      hide Stars, PrimesListed, PrimesOrdered, Block, OnWalk, PathFrom, StarredColumn;
      ghost var s, n, t := Model(), numCols, LastPrime(Model());
      var loc := start;
      PhaseDoneWalkable(s, n);
      WalkStart(s, n);
      augmentPath[0] := loc;
      pathSize := 1;
      assert augmentPath[..1] == [loc];
      var done := false;
      var idx := 0;
      while idx < numCols && !done
        invariant idx <= n && 0 <= t && t + idx <= LastPrime(s) && Model() == s
        invariant pathSize == 2 * idx + 1
        invariant loc == s.primes[t]
        invariant OnWalk(s, n, augmentPath[..pathSize], t)
        invariant done ==> augmentPath[..pathSize] == FullPath(s, n)
        decreases n - idx, !done
      {
        PrimeColumn(s, n, t);
        var found, row := FindStarInColumn(loc.col);
        if !found {
          done := true;
          WalkEnd(s, n, augmentPath[..pathSize], t);
        } else {
          ghost var before := augmentPath[..pathSize];
          ghost var q := WalkStep(s, n, before, t, row);
          augmentPath[pathSize] := Loc(row, loc.col);
          var col := FindPrimeInRow(row, q);
          loc := Loc(row, col);
          augmentPath[pathSize + 1] := loc;
          pathSize := pathSize + 2;
          assert augmentPath[..pathSize] == before + [Loc(row, s.primes[t].col), loc];
          t := q;
          idx := idx + 1;
        }
      }
    }

    /** Flips stars and primes along the path, and records the new stars. */
    method FlipPath(pathSize: nat, ghost path: seq<Loc>)
      requires Valid() && PhaseDone(Model(), numCols)
      requires pathSize <= 2 * capacity && path == augmentPath[..pathSize] && path == FullPath(Model(), numCols)
      modifies mark, assignments
      ensures Halfway(old(Model()), numCols, path, Block(mark, numCols), assignments[..numCols])
    {
      hide PhaseDone, Walkable, FullPath, Alternating, Block, Halfway, Put, NewStar;
      ghost var s, n := Model(), numCols;
      PathDistinct(s, n);
      NothingFlipped(s, n);
      assert path[..0] == [];
      for idx := 0 to pathSize
        invariant Halfway(s, n, path[..idx], Block(mark, n), assignments[..n])
      {
        var at := augmentPath[idx];
        assert at == path[idx] && path[..idx + 1] == path[..idx] + [at];
        ghost var marks, before := Block(mark, n), assignments[..n];
        FlipOne(s, n, path, idx, marks, before);
        if mark[at.row, at.col] == Starred {
          SetMark(at, Zero);
        } else {
          SetMark(at, Starred);
          assignments[at.row] := at.col;
          assert assignments[..n] == before[at.row := at.col];
        }
      }
      assert path[..pathSize] == path;
    }

    /** A column is covered exactly when some row is assigned to it. */
    method CoverAssignedColumns()
      requires Valid() && forall i :: 0 <= i < numCols ==> assignments[i] == UNASSIGNED || 0 <= assignments[i] < numCols
      modifies colCovered
      ensures colCovered[..numCols] == ColumnsOf(assignments[..numCols], numCols)
    {
      forall j | 0 <= j < capacity { colCovered[j] := false; }
      for idx := 0 to numCols
        invariant forall j :: 0 <= j < numCols ==> (colCovered[j] <==> j in assignments[..idx])
      {
        var assignment := assignments[idx];
        assert assignments[..idx + 1] == assignments[..idx] + [assignment];
        if assignment != UNASSIGNED { colCovered[assignment] := true; }
      }
    }

    method ErasePrimes(ghost s: State, ghost path: seq<Loc>)
      requires Valid() && Shape(s, numCols) && PhaseDone(s, numCols) && path == FullPath(s, numCols)
      requires numPrimedZeros == |s.primes| && primedZeroLocs[..numPrimedZeros] == s.primes
      requires FlippedSoFar(s, numCols, path, Block(mark, numCols))
      modifies mark, this`numPrimedZeros
      ensures Valid() && Block(mark, numCols) == Flipped(s, numCols, path)
      ensures numPrimedZeros == 0
    {
      hide PhaseDone, Flipped, FlippedSoFar, FullPath, Stars, PrimesListed, PrimesOrdered;
      ghost var n, before := numCols, Block(mark, numCols);
      PrimesInside(s, n);
      for idx := 0 to numPrimedZeros
        invariant numPrimedZeros == |s.primes|
        invariant forall i, j :: 0 <= i < n && 0 <= j < n ==>
                    mark[i, j] == if before[i][j] == Primed && Loc(i, j) in s.primes[..idx] then Zero else before[i][j]
      {
        var loc := primedZeroLocs[idx];
        assert loc == s.primes[idx] && s.primes[..idx + 1] == s.primes[..idx] + [loc];
        if mark[loc.row, loc.col] == Primed {
          mark[loc.row, loc.col] := Zero;
        }
      }
      assert s.primes[..|s.primes|] == s.primes;
      AllErased(s, n, path, before);
      SameBlock(Block(mark, n), Flipped(s, n, path), n);
      numPrimedZeros := 0;
    }

    /** Steps 5 and 3: flip the path, redraw the covers, erase the primes. */
    method IncrementStarredZeroesAndCheckResult(loc: Loc) returns (ret: bool)
      requires Valid() && PhaseDone(Model(), numCols) && |Model().primes| <= numCols
      requires loc == Model().primes[LastPrime(Model())]
      modifies this`numPrimedZeros, augmentPath, mark, assignments, colCovered, rowCovered
      ensures Valid() && numPrimedZeros == 0
      ensures Model() == Augmented(old(Model()), numCols, FullPath(old(Model()), numCols))
      ensures ret <==> AllCovered(Model(), numCols)
    {
      hide PhaseDone, Settled, Block, FullPath, Flipped, Reassigned, ColumnsOf, FlippedSoFar, AssignedSoFar, AllCovered;
      ghost var s, n := Model(), numCols;
      var pathSize := BuildPath(loc);
      ghost var path := augmentPath[..pathSize];
      FlipPath(pathSize, path);
      ReassignedAll(s, n, path, assignments[..n]);
      CoverAssignedColumns();
      forall i | 0 <= i < capacity { rowCovered[i] := false; }
      assert rowCovered[..n] == seq(n, i => false);
      ErasePrimes(s, path);
      assert primedZeroLocs[..0] == [];
      ret := AreAllColumnsCovered();
    }

    // ---- steps 1 to 3 --------------------------------------------------------------------

    /** The first least weight of a buffer row, over all `capacity` columns. */
    method MinCoeff(row: int) returns (idx: int)
      requires Valid() && 0 <= row < capacity
      ensures 0 <= idx < capacity
      ensures forall j :: 0 <= j < capacity ==> weight[row, idx] <= weight[row, j]
      ensures forall j :: 0 <= j < idx ==> weight[row, idx] < weight[row, j]
    {
      idx := 0;
      for j := 1 to capacity
        invariant 0 <= idx < j
        invariant forall k :: 0 <= k < j ==> weight[row, idx] <= weight[row, k]
        invariant forall k :: 0 <= k < idx ==> weight[row, idx] < weight[row, k]
      {
        if weight[row, j] < weight[row, idx] { idx := j; }
      }
    }

    /** x is the least weight of buffer row i, first met in column idx. */
    ghost predicate MinimumOf(i: int, idx: int, x: real)
      requires Sized() && 0 <= i < capacity
      reads weight
    {
      && 0 <= idx < capacity && x == weight[i, idx]
      && (forall j :: 0 <= j < capacity ==> x <= weight[i, j])
      && (forall j :: 0 <= j < idx ==> x < weight[i, j])
    }

    method FindMinimums()
      requires Valid()
      modifies rowMinIdx, rowMinWeights
      ensures forall i :: 0 <= i < capacity ==> MinimumOf(i, rowMinIdx[i], rowMinWeights[i])
    {
      for i := 0 to capacity
        invariant forall k :: 0 <= k < i ==> MinimumOf(k, rowMinIdx[k], rowMinWeights[k])
      {
        var idx := MinCoeff(i);
        rowMinIdx[i] := idx;
        rowMinWeights[i] := weight[i, idx];
      }
    }

    /** The weights as given, over rows of padding zeros. */
    ghost function Given(): (base: Matrix)
      requires Valid()
      reads this, weight
      ensures Rectangular(base, numCols, numCols)
    {
      PaddedBelow(Block(weight, numCols), numRows, numCols)
    }

    /** No weight above the maximum, the maximum exactly in the cells nobody set, nothing marked or covered. */
    ghost predicate Clean()
      requires Sized()
      reads weight, mark, isMax, colCovered, rowCovered
    {
      && (forall i, j :: 0 <= i < capacity && 0 <= j < capacity ==> weight[i, j] <= MAX_WEIGHT)
      && (forall i, j :: 0 <= i < capacity && 0 <= j < capacity ==> (isMax[i, j] <==> weight[i, j] == MAX_WEIGHT))
      && (forall i, j :: 0 <= i < capacity && 0 <= j < capacity ==> mark[i, j] == Unmarked)
      && (forall i :: 0 <= i < capacity ==> !colCovered[i] && !rowCovered[i])
    }

    ghost predicate Unset()
      requires Sized()
      reads isMax
    {
      forall i, j :: 0 <= i < capacity && 0 <= j < capacity ==> isMax[i, j]
    }

    /** As `reset`, `set_size` and any `set_weight` calls leave it. */
    ghost predicate Ready()
      reads this, weight, mark, isMax, assignments, colCovered, rowCovered
    {
      && Valid() && numPrimedZeros == 0 && Clean()
      && (forall i, j :: 0 <= i < capacity && 0 <= j < capacity && (numRows <= i || numCols <= j) ==> isMax[i, j])
      && (forall i :: 0 <= i < numCols ==> assignments[i] == UNASSIGNED)
    }

    /** Stars the column when it is free, else leaves a plain zero. */
    method StarIfFree(row: int, col: int)
      requires Valid() && 0 <= row < numCols && 0 <= col < numCols
      modifies mark, colCovered, assignments
      ensures Model() == StarMinimum(old(Model()), numCols, row, col)
    {
      ghost var s := Model();
      SetMark(Loc(row, col), Zero);
      if !colCovered[col] {
        colCovered[col] := true;
        SetMark(Loc(row, col), Starred);
        assignments[row] := col;
        SameBlock(Block(mark, numCols), Put(s.mark, Loc(row, col), Starred), numCols);
        assert colCovered[..numCols] == s.colCov[col := true];
        assert assignments[..numCols] == s.assignment[row := col];
      }
    }

    /** A padding row takes the first free column. */
    method StarFirstFree(row: int)
      requires Valid() && 0 <= row < numCols
      modifies mark, colCovered, assignments
      ensures Model() == StarFree(old(Model()), numCols, row)
    {
      ghost var s := Model();
      for jdx := 0 to numCols
        invariant Model() == s
        invariant forall k :: 0 <= k < jdx ==> s.colCov[k]
      {
        if !colCovered[jdx] {
          assert FirstFree(s, numCols, jdx);
          colCovered[jdx] := true;
          assignments[row] := jdx;
          SetMark(Loc(row, jdx), Starred);
          assert colCovered[..numCols] == s.colCov[jdx := true];
          assert assignments[..numCols] == s.assignment[row := jdx];
          return;
        }
      }
      assert forall j :: !FirstFree(s, numCols, j);
    }

    ghost predicate Padded(base: Matrix, mins: seq<int>)
      reads this, weight, mark, assignments, colCovered, rowCovered, rowMinIdx, rowMinWeights
    {
      && Valid() && Input(base, mins, numRows, numCols) && numPrimedZeros == 0
      && Block(weight, numCols) == base && mins == rowMinIdx[..numRows]
      && (forall i :: 0 <= i < numRows ==> rowMinWeights[i] == base[i][mins[i]])
      && (forall i, j :: 0 <= i < numCols && 0 <= j < numCols ==> mark[i, j] == if i < numRows then Unmarked else Zero)
      && (forall i :: 0 <= i < numCols ==> assignments[i] == UNASSIGNED)
      && (forall i :: 0 <= i < capacity ==> !colCovered[i] && !rowCovered[i])
    }

    method SubtractMinimums()
      requires Valid()
      modifies weight
      ensures forall i, j :: 0 <= i < numCols && 0 <= j < numCols ==>
                weight[i, j] == old(weight[i, j]) - (if i < numRows then rowMinWeights[i] else 0.0)
    {
      forall i, j | 0 <= i < numRows && 0 <= j < numCols {
        weight[i, j] := weight[i, j] - rowMinWeights[i];
      }
    }

    method ReduceRows(ghost base: Matrix, ghost mins: seq<int>)
      requires Padded(base, mins)
      modifies weight
      ensures Valid() && Model() == Unstarred(base, mins, numRows, numCols)
    {
      hide Unstarred, RowReduced;
      SubtractMinimums();
      assert primedZeroLocs[..0] == [];
      IsUnstarred(base, mins, numRows, numCols, Model());
    }

    method ReduceRowsAndInitZerosAndCheckResult(ghost base: Matrix, ghost mins: seq<int>) returns (ret: bool)
      requires Padded(base, mins)
      modifies weight, mark, colCovered, rowCovered, assignments
      ensures Valid() && Model() == Initial(base, mins, numRows, numCols)
      ensures ret <==> AllCovered(Model(), numCols)
    {
      hide Block, StarMinimum, StarFree, Unstarred, RowReduced, AllCovered, Initial;
      ReduceRows(base, mins);
      for rowIdx := 0 to numRows
        invariant Model() == MinimaStarred(base, mins, numRows, numCols, rowIdx)
      {
        var colIdx := rowMinIdx[rowIdx];
        assert colIdx == mins[rowIdx] && RowMinimum(base[rowIdx], colIdx);
        if colIdx != UNASSIGNED { StarIfFree(rowIdx, colIdx); }
      }
      for idx := numRows to numCols
        invariant Model() == RowsStarred(base, mins, numRows, numCols, idx)
      {
        StarFirstFree(idx);
      }
      ret := FinishReduction(base, mins);
    }

    method FinishReduction(ghost base: Matrix, ghost mins: seq<int>) returns (ret: bool)
      requires Valid() && Input(base, mins, numRows, numCols)
      requires Model() == RowsStarred(base, mins, numRows, numCols, numCols)
      modifies rowCovered
      ensures Model() == Initial(base, mins, numRows, numCols)
      ensures ret <==> AllCovered(Model(), numCols)
    {
      hide Block, RowsStarred, AllCovered, Input;
      InitialRowsUncovered(base, mins, numRows, numCols);
      ghost var s := Model();
      assert s == RowsStarred(base, mins, numRows, numCols, numCols);
      forall i | 0 <= i < capacity { rowCovered[i] := false; }
      assert rowCovered[..numCols] == s.rowCov;
      ret := AreAllColumnsCovered();
    }

    // ---- the public methods --------------------------------------------------------------

    constructor (cap: nat)
      requires cap > 0
      ensures Ready() && capacity == cap && numRows == numCols == 0
      ensures fresh(weight) && fresh(mark) && fresh(isMax) && fresh(rowMinIdx) && fresh(rowMinWeights)
      ensures fresh(assignments) && fresh(colCovered) && fresh(rowCovered) && fresh(uncoveredRows)
      ensures fresh(uncoveredCols) && fresh(augmentPath) && fresh(primedZeroLocs)
    {
      hide Clean;
      capacity := cap;
      numRows, numCols := 0, 0;
      weight := new real[cap, cap]((i, j) => MAX_WEIGHT);
      mark := new Mark[cap, cap]((i, j) => NoLink);
      isMax := new bool[cap, cap]((i, j) => false);
      rowMinIdx := new int[cap](i => UNASSIGNED);
      rowMinWeights := new real[cap](i => MAX_WEIGHT);
      assignments := new int[cap](i => 0);
      colCovered := new bool[cap](i => false);
      rowCovered := new bool[cap](i => false);
      numUncoveredRows, numUncoveredCols, numPrimedZeros := 0, 0, 0;
      uncoveredRows := new int[cap](i => 0);
      uncoveredCols := new int[cap](i => 0);
      augmentPath := new Loc[2 * cap](i => Loc(0, 0));
      primedZeroLocs := new Loc[cap](i => Loc(0, 0));
      new;
      Reset();
    }

    method Reset()
      requires Sized() && capacity > 0
      modifies this`numRows, this`numCols, this`numPrimedZeros
      modifies weight, rowMinWeights, mark, colCovered, rowCovered, rowMinIdx, isMax
      ensures Ready() && numRows == numCols == 0
    {
      forall i, j | 0 <= i < capacity && 0 <= j < capacity { weight[i, j] := MAX_WEIGHT; }
      forall i | 0 <= i < capacity { rowMinWeights[i] := MAX_WEIGHT; }
      forall i, j | 0 <= i < capacity && 0 <= j < capacity { mark[i, j] := Unmarked; }
      numCols := 0;
      numRows := 0;
      numPrimedZeros := 0;
      forall i | 0 <= i < capacity { colCovered[i] := false; }
      forall i | 0 <= i < capacity { rowCovered[i] := false; }
      forall i | 0 <= i < capacity { rowMinIdx[i] := UNASSIGNED; }
      forall i, j | 0 <= i < capacity && 0 <= j < capacity { isMax[i, j] := true; }
    }

    /** Fixes the problem's size, which readies a blank assigner; an oversized or skinny one is refused. */
    method SetSize(rows: nat, cols: nat) returns (status: Status)
      requires Sized()
      modifies this`numRows, this`numCols, assignments
      ensures status == if rows > capacity || cols > capacity then LengthError
                        else if rows > cols then DomainError
                        else Ok
      ensures status == Ok ==> numRows == rows && numCols == cols
      ensures status != Ok ==> numRows == old(numRows) && numCols == old(numCols)
      ensures forall i :: 0 <= i < capacity ==>
                assignments[i] == if status == Ok && i < cols then UNASSIGNED else old(assignments[i])
      ensures old(Valid()) ==> Valid()
      ensures status == Ok && old(Ready()) && Unset() ==> Ready()
    {
      hide Clean;
      if rows > capacity || cols > capacity { return LengthError; }
      if rows > cols { return DomainError; }
      numRows := rows;
      numCols := cols;
      var maxAssignments := if rows > cols then rows else cols;
      for idx := 0 to maxAssignments
        invariant numRows == rows && numCols == cols
        invariant forall i :: 0 <= i < capacity ==>
          assignments[i] == if i < idx then UNASSIGNED else old(assignments[i])
      {
        assignments[idx] := UNASSIGNED;
      }
      if old(Ready()) && Unset() {
        assert Clean();
        assert forall i :: 0 <= i < numCols ==> assignments[i] == UNASSIGNED;
        assert Ready();
      }
      return Ok;
    }

    method SetWeight(w: real, idx: nat, jdx: nat) returns (status: Status)
      requires Valid()
      modifies weight, mark, isMax
      ensures old(Ready()) ==> Ready()
      ensures status == if idx >= numRows || jdx >= numCols || w >= 10000.0 then OutOfRange else Ok
      ensures forall i, j :: 0 <= i < capacity && 0 <= j < capacity ==>
                weight[i, j] == if status == Ok && i == idx && j == jdx then w else old(weight[i, j])
      ensures forall i, j :: 0 <= i < capacity && 0 <= j < capacity ==>
                if status == Ok && i == idx && j == jdx then mark[i, j] == Unmarked && !isMax[i, j]
                else mark[i, j] == old(mark[i, j]) && isMax[i, j] == old(isMax[i, j])
    {
      if idx >= numRows || jdx >= numCols { return OutOfRange; }
      if w >= MAX_WEIGHT { return OutOfRange; }
      weight[idx, jdx] := w;
      mark[idx, jdx] := Unmarked;
      isMax[idx, jdx] := false;
      return Ok;
    }

    /** Columns beyond numCols hold MAX_WEIGHT, so a row's first minimum lies among the real columns. */
    lemma MinimumsAreColumns()
      requires Ready() && forall i :: 0 <= i < capacity ==> MinimumOf(i, rowMinIdx[i], rowMinWeights[i])
      ensures Input(Given(), rowMinIdx[..numRows], numRows, numCols)
    {
      var base := Given();
      forall i | 0 <= i < numRows ensures RowMinimum(base[i], rowMinIdx[i]) {
        assert MinimumOf(i, rowMinIdx[i], rowMinWeights[i]);
        assert weight[i, 0] <= MAX_WEIGHT;
        assert forall j :: numCols <= j < capacity ==> weight[i, j] == MAX_WEIGHT;
      }
    }

    method PadBuffers()
      requires Valid()
      modifies weight, rowMinWeights, mark
      ensures forall i, j :: 0 <= i < numCols && 0 <= j < numCols ==>
                weight[i, j] == if i < numRows then old(weight[i, j]) else 0.0
      ensures forall i, j :: 0 <= i < numCols && 0 <= j < numCols ==>
                mark[i, j] == if i < numRows then old(mark[i, j]) else Zero
      ensures forall i :: 0 <= i < numRows ==> rowMinWeights[i] == old(rowMinWeights[i])
    {
      forall i, j | numRows <= i < numCols && 0 <= j < numCols { weight[i, j] := 0.0; }
      forall i | numRows <= i < numCols { rowMinWeights[i] := 0.0; }
      forall i, j | numRows <= i < numCols && 0 <= j < numCols { mark[i, j] := Zero; }
    }

    /** Zero weights and zero marks in the rows below the real ones. */
    method PadRows()
      requires Ready() && forall i :: 0 <= i < capacity ==> MinimumOf(i, rowMinIdx[i], rowMinWeights[i])
      modifies weight, rowMinWeights, mark
      ensures Padded(old(Given()), rowMinIdx[..numRows])
    {
      ghost var base, mins := Given(), rowMinIdx[..numRows];
      MinimumsAreColumns();
      forall i | 0 <= i < numRows ensures rowMinWeights[i] == base[i][mins[i]] {
        assert MinimumOf(i, rowMinIdx[i], rowMinWeights[i]);
      }
      hide MinimumOf, Input;
      if numRows < numCols { PadBuffers(); }
      SameBlock(Block(weight, numCols), base, numCols);
    }

    /**
     * `assign` succeeds whatever weights are set, unset cells counting as MAX_WEIGHT, and leaves the
     * assignment the value-level algorithm computes: every row gets a column of its own.
     */
    method Assign() returns (ret: bool)
      requires Ready()
      modifies this`numUncoveredRows, this`numUncoveredCols, this`numPrimedZeros
      modifies weight, mark, rowMinIdx, rowMinWeights, assignments, colCovered, rowCovered
      modifies uncoveredRows, uncoveredCols, augmentPath, primedZeroLocs
      ensures Valid() && ret
      ensures exists mins :: Result(old(Given()), mins, numRows, numCols, Model())
      ensures Permutation(assignments[..numCols], numCols)
    {
      hide MinimumOf, Block, Given, Settled, Dual, AllCovered, Initial, Solved, Input;
      ret := false;
      if numRows <= numCols {
        ghost var base := Given();
        FindMinimums();
        PadRows();
        ghost var mins := rowMinIdx[..numRows];
        var done := ReduceRowsAndInitZerosAndCheckResult(base, mins);
        ghost var start := Model();
        InitialDual(base, mins, numRows, numCols);
        if !done {
          ret := RunPasses(base);
        } else {
          SolvedAlready(start, numCols);
          ret := true;
        }
        ResultIsPermutation(base, mins, numRows, numCols, Model());
      }
    }

    /** At most numCols passes, each a priming phase and a path flip, until every column is starred. */
    method RunPasses(ghost base: Matrix) returns (ret: bool)
      requires Valid() && Settled(Model(), numCols) && Dual(base, Model().w, numCols)
      requires !AllCovered(Model(), numCols) && numPrimedZeros == 0
      modifies this`numUncoveredRows, this`numUncoveredCols, this`numPrimedZeros
      modifies weight, mark, assignments, colCovered, rowCovered
      modifies uncoveredRows, uncoveredCols, augmentPath, primedZeroLocs
      ensures Valid() && ret
      ensures exists passes :: Solved(old(Model()), numCols, Model(), passes)
    {
      hide Settled, Dual, AllCovered, Block, Priming, PhaseDone, Phase, Solved, SolvesFrom, Pass, Augmented,
        StarredRows, Listed, Model, Sized;
      ghost var start, n := Model(), numCols;
      SolvesFromStart(start, n);
      ret := false;
      var idx := 0;
      while idx < numCols && !ret
        invariant Valid() && numCols == n && idx <= n && numPrimedZeros == 0
        invariant Settled(Model(), n) && Dual(base, Model().w, n)
        invariant SolvesFrom(start, Model(), n, idx)
        invariant |StarredRows(Model().assignment)| == |StarredRows(start.assignment)| + idx
        invariant ret <==> AllCovered(Model(), n)
        decreases n - idx, !ret
      {
        ghost var s := Model();
        SettledStarts(s, n);
        ghost var steps;
        var loc;
        loc, steps := PrimeUncoveredZero();
        ghost var mid := Model();
        PhaseLast(base, s, n, mid, loc, steps);
        ret := IncrementStarredZeroesAndCheckResult(loc);
        PassHappened(base, start, s, n, mid, loc, steps, Model(), idx);
        idx := idx + 1;
      }
      StarredRowsBound(Model(), n);
      SolvesFromEnd(start, Model(), n, idx);
    }

    ghost predicate InRange()
      requires Valid()
      reads this, assignments
    {
      forall i :: 0 <= i < numCols ==> assignments[i] == UNASSIGNED || 0 <= assignments[i] < numCols
    }

    /**
     * The column of a real row, one whose weight was set; a row without a column, or left with a cell nobody set,
     * counts as unassigned. Once rows have columns of their own no other row is given the same one.
     */
    method GetAssignment(idx: nat) returns (answer: Answer)
      requires Valid() && InRange()
      ensures answer.RangeError? <==> idx >= numRows
      ensures answer.Column? ==>
                (answer.index == UNASSIGNED <==>
                 assignments[idx] == UNASSIGNED || isMax[idx, assignments[idx]])
      ensures answer.Column? && answer.index != UNASSIGNED ==>
                0 <= answer.index < numCols && answer.index == assignments[idx] && !isMax[idx, answer.index]
      ensures answer.Column? && answer.index != UNASSIGNED && Permutation(assignments[..numCols], numCols) ==>
                forall k :: 0 <= k < numCols && k != idx ==> assignments[k] != answer.index
    {
      ghost var p := assignments[..numCols];
      assert forall k :: 0 <= k < numCols ==> assignments[k] == p[k];
      if idx >= numRows || idx >= capacity { return RangeError; }
      var ret := assignments[idx];
      if ret != UNASSIGNED && isMax[idx, ret] { return Column(UNASSIGNED); }
      return Column(ret);
    }

    /** Once rows have columns of their own: a column that no real row has, another one for every idx. */
    method GetUnassigned(idx: nat) returns (answer: Answer)
      requires Valid()
      ensures answer.RangeError? <==> idx + numRows >= numCols
      ensures answer.Column? ==> answer.index == assignments[idx + numRows]
      ensures answer.Column? && Permutation(assignments[..numCols], numCols) ==>
                FreeColumn(assignments[..numCols], numRows, numCols, answer.index)
    {
      var jdx := idx + numRows;
      if jdx >= numCols { return RangeError; }
      ghost var p := assignments[..numCols];
      if Permutation(p, numCols) {
        assert PaddingColumn(p, numRows, numCols, p[jdx], jdx);
        FreeColumns(p, numRows, numCols, p[jdx]);
      }
      return Column(assignments[jdx]);
    }
  }

  /** No real row has this column. */
  predicate FreeColumn(p: seq<int>, rows: nat, n: nat, c: int)
    requires rows <= |p|
  {
    0 <= c < n && c !in p[..rows]
  }

  predicate PaddingColumn(p: seq<int>, rows: nat, n: nat, c: int, k: int)
    requires |p| == n
  {
    rows <= k < n && p[k] == c
  }

  /** The free columns are exactly those of the padding rows, one each. */
  lemma FreeColumns(p: seq<int>, rows: nat, n: nat, c: int)
    requires Permutation(p, n) && rows <= n
    ensures FreeColumn(p, rows, n, c) <==> exists k :: PaddingColumn(p, rows, n, c, k)
    ensures forall k, m :: PaddingColumn(p, rows, n, c, k) && PaddingColumn(p, rows, n, c, m) ==> k == m
  {
    forall i | 0 <= i < rows ensures p[i] in p[..rows] { assert p[..rows][i] == p[i]; }
    if FreeColumn(p, rows, n, c) {
      PermutationHits(p, n, c);
      var k :| 0 <= k < n && p[k] == c;
      assert PaddingColumn(p, rows, n, c, k);
    }
    if k :| PaddingColumn(p, rows, n, c, k) {
      forall i | 0 <= i < rows ensures p[..rows][i] != c {}
    }
  }

  /** The columns of the real rows and those of the padding rows split the columns between them. */
  lemma ColumnsPartition(p: seq<int>, rows: nat, n: nat)
    requires Permutation(p, n) && rows <= n
    ensures (set c | c in p[..rows]) !! (set c | c in p[rows..])
    ensures (set c | c in p[..rows]) + (set c | c in p[rows..]) == Below(n)
  {
    forall j | j in Below(n) ensures j in p[..rows] || j in p[rows..] {
      PermutationHits(p, n, j);
      var i :| 0 <= i < n && p[i] == j;
      if i < rows { assert p[..rows][i] == j; } else { assert p[rows..][i - rows] == j; }
    }
  }
}
