/** The augmenting path a phase leads to, and the larger matching it leaves behind. */
module HungarianAugment {
  import opened HungarianSteps
  import opened HungarianInvariants

  /** The stars and primes a walk can follow. */
  ghost predicate Walkable(s: State, n: nat) {
    Shape(s, n) && Stars(s, n) && PrimesListed(s, n) && PrimesOrdered(s, n)
  }

  ghost predicate PrimeOnPath(s: State, n: nat, path: seq<Loc>, c: Loc)
    requires Shape(s, n)
  {
    In(n, c) && c in path && s.mark[c.row][c.col] == Primed
  }

  ghost predicate StarOnPath(s: State, n: nat, path: seq<Loc>, c: Loc)
    requires Shape(s, n)
  {
    In(n, c) && c in path && s.mark[c.row][c.col] == Starred
  }

  ghost predicate PrimeUpTo(s: State, t: int, c: Loc) {
    exists q :: 0 <= q <= t && q < |s.primes| && s.primes[q] == c
  }

  /** A path from prime t alternates between listed primes and stars, follows every star of its columns
      and visits no cell and no column of a prime twice. */
  ghost predicate Alternating(s: State, n: nat, path: seq<Loc>, t: int)
    requires Shape(s, n)
  {
    && (forall c :: c in path ==> PrimeOnPath(s, n, path, c) || StarOnPath(s, n, path, c))
    && (forall c :: PrimeOnPath(s, n, path, c) ==> PrimeUpTo(s, t, c))
    && (forall c :: StarOnPath(s, n, path, c) ==> exists p :: PrimeOnPath(s, n, path, p) && p.row == c.row)
    && (forall c :: StarOnPath(s, n, path, c) ==> exists p :: PrimeOnPath(s, n, path, p) && p.col == c.col)
    && (forall p, k :: PrimeOnPath(s, n, path, p) && 0 <= k < n && s.assignment[k] == p.col ==> Loc(k, p.col) in path)
    && (forall p, q :: PrimeOnPath(s, n, path, p) && PrimeOnPath(s, n, path, q) && p.col == q.col ==> p == q)
    && (forall a, b :: 0 <= a < b < |path| ==> path[a] != path[b])
  }

  /** Where the walk goes next from prime t: unless its column is star-free, the star's row has an earlier prime. */
  lemma NextOnPath(s: State, n: nat, t: nat, i: int) returns (q: nat)
    requires Walkable(s, n) && t < |s.primes|
    requires StarInColumn(s, n, s.primes[t].col, i)
    ensures q < t && s.primes[q].row == i
    ensures PathFrom(s, n, t) == [s.primes[t], Loc(i, s.primes[t].col)] + PathFrom(s, n, q)
  {
    assert EarlierPrime(s, t, i);
    var k :| 0 <= k < t && PrimeOfRow(s, i, k);
    q := k;
    assert StarInColumn(s, n, s.primes[t].col, i) && PrimeOfRow(s, i, q) && q < t;
  }

  lemma {:induction false} PathAlternates(s: State, n: nat, t: nat)
    requires Walkable(s, n) && t < |s.primes|
    ensures Alternating(s, n, PathFrom(s, n, t), t)
    ensures PathFrom(s, n, t)[0] == s.primes[t]
    decreases t
  {
    var p := s.primes[t];
    var path := PathFrom(s, n, t);
    assert PrimeAt(s, p.row, p.col);
    if i :| StarInColumn(s, n, p.col, i) {
      var q := NextOnPath(s, n, t, i);
      hide Alternating, Stars, PrimesOrdered;
      PathAlternates(s, n, q);
      ExtendPath(s, n, t, i, q, PathFrom(s, n, q));
    } else {
      assert path == [p];
      assert PrimeUpTo(s, t, p);
    }
  }

  /** Primes no later than q avoid the column of prime t, whose star is in row i of prime q. */
  lemma LaterColumnFree(s: State, n: nat, t: nat, i: int, q: nat, c: Loc)
    requires Walkable(s, n) && q < t < |s.primes|
    requires StarInColumn(s, n, s.primes[t].col, i) && s.primes[q].row == i
    requires PrimeUpTo(s, q, c)
    ensures c.col != s.primes[t].col && c != s.primes[t]
  {
    var k :| 0 <= k <= q && s.primes[k] == c;
    assert c.col == s.primes[t].col ==> EarlierPrime(s, k, i);
  }

  ghost predicate Joins(s: State, n: nat, t: nat, i: int, q: nat, rest: seq<Loc>) {
    && Shape(s, n) && Walkable(s, n) && q < t < |s.primes|
    && StarInColumn(s, n, s.primes[t].col, i) && s.primes[q].row == i
    && Alternating(s, n, rest, q) && |rest| > 0 && rest[0] == s.primes[q]
  }

  lemma JoinedCells(s: State, n: nat, t: nat, i: int, q: nat, rest: seq<Loc>)
    requires Joins(s, n, t, i, q, rest)
    ensures var p := s.primes[t]; var star := Loc(i, p.col); var path := [p, star] + rest;
            && (forall c :: c in path <==> c == p || c == star || c in rest)
            && (forall c :: PrimeOnPath(s, n, path, c) <==> c == p || PrimeOnPath(s, n, rest, c))
            && (forall c :: StarOnPath(s, n, path, c) <==> c == star || StarOnPath(s, n, rest, c))
            && PrimeOnPath(s, n, rest, s.primes[q])
  {
    var p := s.primes[t];
    assert PrimeAt(s, p.row, p.col) && PrimeAt(s, i, s.primes[q].col);
    assert s.primes[q] == Loc(i, s.primes[q].col);
  }

  lemma JoinedApart(s: State, n: nat, t: nat, i: int, q: nat, rest: seq<Loc>)
    requires Joins(s, n, t, i, q, rest)
    ensures var p := s.primes[t];
            && (forall c :: PrimeOnPath(s, n, rest, c) ==> c.col != p.col)
            && p !in rest && Loc(i, p.col) !in rest
  {
    var p := s.primes[t];
    forall c | PrimeOnPath(s, n, rest, c) ensures c.col != p.col {
      LaterColumnFree(s, n, t, i, q, c);
    }
    assert PrimeAt(s, p.row, p.col);
    forall c | StarOnPath(s, n, rest, c) ensures c.col != p.col {
      var m :| PrimeOnPath(s, n, rest, m) && m.col == c.col;
    }
  }

  lemma JoinedNeighbours(s: State, n: nat, t: nat, i: int, q: nat, rest: seq<Loc>, c: Loc)
    requires Joins(s, n, t, i, q, rest)
    requires StarOnPath(s, n, [s.primes[t], Loc(i, s.primes[t].col)] + rest, c)
    ensures var path := [s.primes[t], Loc(i, s.primes[t].col)] + rest;
            && (exists m :: PrimeOnPath(s, n, path, m) && m.row == c.row)
            && (exists m :: PrimeOnPath(s, n, path, m) && m.col == c.col)
  {
    var p := s.primes[t];
    var path := [p, Loc(i, p.col)] + rest;
    JoinedCells(s, n, t, i, q, rest);
    assert PrimeOnPath(s, n, path, p) && PrimeOnPath(s, n, path, s.primes[q]);
    if c != Loc(i, p.col) {
      var m :| PrimeOnPath(s, n, rest, m) && m.row == c.row;
      var m' :| PrimeOnPath(s, n, rest, m') && m'.col == c.col;
      assert PrimeOnPath(s, n, path, m) && PrimeOnPath(s, n, path, m');
    }
  }

  /** No cell comes twice. */
  lemma JoinedDistinct(s: State, n: nat, t: nat, i: int, q: nat, rest: seq<Loc>)
    requires Joins(s, n, t, i, q, rest)
    ensures var path := [s.primes[t], Loc(i, s.primes[t].col)] + rest;
            forall a, b :: 0 <= a < b < |path| ==> path[a] != path[b]
  {
    var p := s.primes[t];
    var path := [p, Loc(i, p.col)] + rest;
    JoinedApart(s, n, t, i, q, rest);
    StarIsNoPrime(s, n, t, i);
    hide Stars, PrimesListed, PrimesOrdered, PrimeOnPath, StarOnPath;
    forall a, b | 0 <= a < b < |path| ensures path[a] != path[b] {
      if a < 2 <= b { assert path[b] in rest; }
      if a >= 2 { assert path[a] == rest[a - 2] && path[b] == rest[b - 2]; }
    }
  }

  lemma StarIsNoPrime(s: State, n: nat, t: nat, i: int)
    requires Walkable(s, n) && t < |s.primes| && StarInColumn(s, n, s.primes[t].col, i)
    ensures s.primes[t] != Loc(i, s.primes[t].col)
  {
    assert PrimeAt(s, s.primes[t].row, s.primes[t].col);
  }

  /** The path has the star of each of its primes' columns. */
  lemma JoinedStars(s: State, n: nat, t: nat, i: int, q: nat, rest: seq<Loc>, c: Loc, k: int)
    requires Joins(s, n, t, i, q, rest)
    requires PrimeOnPath(s, n, [s.primes[t], Loc(i, s.primes[t].col)] + rest, c) && 0 <= k < n
      && s.assignment[k] == c.col
    ensures Loc(k, c.col) in [s.primes[t], Loc(i, s.primes[t].col)] + rest
  {
    var path := [s.primes[t], Loc(i, s.primes[t].col)] + rest;
    JoinedCells(s, n, t, i, q, rest);
    if c == s.primes[t] {
      assert k == i && path[1] == Loc(k, c.col);
    } else {
      assert Loc(k, c.col) in rest;
    }
  }

  lemma ExtendPath(s: State, n: nat, t: nat, i: int, q: nat, rest: seq<Loc>)
    requires Joins(s, n, t, i, q, rest)
    ensures Alternating(s, n, [s.primes[t], Loc(i, s.primes[t].col)] + rest, t)
  {
    hide PrimesListed, PrimesOrdered, Stars, PrimeOnPath, StarOnPath;
    var p := s.primes[t];
    var path := [p, Loc(i, p.col)] + rest;
    JoinedCells(s, n, t, i, q, rest);
    JoinedApart(s, n, t, i, q, rest);
    JoinedDistinct(s, n, t, i, q, rest);
    assert PrimeUpTo(s, t, p);
    forall c | PrimeOnPath(s, n, rest, c) ensures PrimeUpTo(s, t, c) {
      var k :| 0 <= k <= q && s.primes[k] == c;
    }
    forall c | StarOnPath(s, n, path, c)
      ensures exists m :: PrimeOnPath(s, n, path, m) && m.row == c.row
      ensures exists m :: PrimeOnPath(s, n, path, m) && m.col == c.col
    {
      JoinedNeighbours(s, n, t, i, q, rest, c);
    }
    forall c, k | PrimeOnPath(s, n, path, c) && 0 <= k < n && s.assignment[k] == c.col ensures Loc(k, c.col) in path {
      JoinedStars(s, n, t, i, q, rest, c, k);
    }
  }

  /** The walk ends at a prime whose column has no star. */
  lemma {:induction false} PathEndsFree(s: State, n: nat, t: nat)
    requires Walkable(s, n) && t < |s.primes|
    ensures var path := PathFrom(s, n, t);
            var end := path[|path| - 1];
            In(n, end) && s.mark[end.row][end.col] == Primed && end.col !in s.assignment
    decreases t
  {
    var p := s.primes[t];
    assert PrimeAt(s, p.row, p.col);
    if i :| StarInColumn(s, n, p.col, i) {
      var q := NextOnPath(s, n, t, i);
      PathEndsFree(s, n, q);
    } else {
      assert PathFrom(s, n, t) == [p];
      assert forall i :: 0 <= i < n && s.assignment[i] == p.col ==> StarInColumn(s, n, p.col, i);
    }
  }

  // ---- flipping the path -------------------------------------------------------------------

  function LastPrime(s: State): int {
    |s.primes| - 1
  }

  ghost function FullPath(s: State, n: nat): seq<Loc>
    requires |s.assignment| == n && |s.primes| > 0
  {
    PathFrom(s, n, LastPrime(s))
  }

  /** The new assignment: a path prime wins its row, every other row keeps its star. */
  lemma ReassignedRow(s: State, n: nat, i: int)
    requires PhaseDone(s, n) && 0 <= i < n
    ensures var path := FullPath(s, n);
            var a := Reassigned(s, n, path)[i];
            if exists j :: PrimeOnPath(s, n, path, Loc(i, j)) then PrimeOnPath(s, n, path, Loc(i, a))
            else a == s.assignment[i]
  {
    var path := FullPath(s, n);
    forall j ensures NewStar(s, n, path, i, j) <==> PrimeOnPath(s, n, path, Loc(i, j)) {
      if Loc(i, j) in path { CellOnPath(s, n, Loc(i, j)); }
    }
    hide Stars, PrimesListed, PrimesOrdered;
    if j :| PrimeOnPath(s, n, path, Loc(i, j)) {
      assert NewStar(s, n, path, i, j);
    }
  }

  lemma PathPrimeRow(s: State, n: nat, path: seq<Loc>, p: Loc, q: Loc)
    requires Walkable(s, n)
    requires PrimeOnPath(s, n, path, p) && PrimeOnPath(s, n, path, q) && p.row == q.row
    ensures p == q
  {
    assert PrimeAt(s, p.row, p.col) && PrimeAt(s, q.row, q.col);
  }

  lemma CellOnPath(s: State, n: nat, c: Loc)
    requires PhaseDone(s, n) && c in FullPath(s, n)
    ensures var path := FullPath(s, n);
            PrimeOnPath(s, n, path, c) || (StarOnPath(s, n, path, c)
                && exists j :: PrimeOnPath(s, n, path, Loc(c.row, j)))
  {
    var path := FullPath(s, n);
    PathAlternates(s, n, LastPrime(s));
    if StarOnPath(s, n, path, c) {
      var p :| PrimeOnPath(s, n, path, p) && p.row == c.row;
      assert p == Loc(c.row, p.col);
    }
  }

  lemma ReassignedPrime(s: State, n: nat, p: Loc)
    requires PhaseDone(s, n) && PrimeOnPath(s, n, FullPath(s, n), p)
    ensures Reassigned(s, n, FullPath(s, n))[p.row] == p.col
  {
    assert p == Loc(p.row, p.col);
    ReassignedRow(s, n, p.row);
    PathPrimeRow(s, n, FullPath(s, n), p, Loc(p.row, Reassigned(s, n, FullPath(s, n))[p.row]));
  }

  lemma FlippedStars(s: State, n: nat, i: int, j: int)
    requires PhaseDone(s, n) && 0 <= i < n && 0 <= j < n
    ensures var path := FullPath(s, n);
            Flipped(s, n, path)[i][j] == Starred <==> Reassigned(s, n, path)[i] == j
  {
    var path := FullPath(s, n);
    if Loc(i, j) in path { CellOnPath(s, n, Loc(i, j)); }
    if p :| PrimeOnPath(s, n, path, Loc(i, p)) {
      ReassignedPrime(s, n, Loc(i, p));
      if s.assignment[i] == j { PrimeRowStarOnPath(s, n, Loc(i, p)); }
    } else {
      ReassignedRow(s, n, i);
    }
  }

  /** The star of a path prime's row is on the path as well. */
  lemma PrimeRowStarOnPath(s: State, n: nat, p: Loc)
    requires PhaseDone(s, n)
    requires PrimeOnPath(s, n, FullPath(s, n), p) && s.assignment[p.row] != UNASSIGNED
    ensures Loc(p.row, s.assignment[p.row]) in FullPath(s, n)
  {
    PathAlternates(s, n, LastPrime(s));
    EnteredByStar(s, n, LastPrime(s), p);
  }

  /** Every prime on the path but the first is entered through the star of its row. */
  lemma {:induction false} EnteredByStar(s: State, n: nat, t: nat, p: Loc)
    requires Walkable(s, n) && t < |s.primes|
    requires PrimeOnPath(s, n, PathFrom(s, n, t), p)
    ensures p == s.primes[t] || (s.assignment[p.row] != UNASSIGNED
      && Loc(p.row, s.assignment[p.row]) in PathFrom(s, n, t))
    decreases t
  {
    var head := s.primes[t];
    if i :| StarInColumn(s, n, head.col, i) {
      var q := NextOnPath(s, n, t, i);
      var path := PathFrom(s, n, t);
      var rest := PathFrom(s, n, q);
      assert path[1] == Loc(i, head.col);
      if p != head {
        assert p in rest;
        EnteredByStar(s, n, q, p);
        if p != s.primes[q] { assert Loc(p.row, s.assignment[p.row]) in rest; }
      }
    } else {
      assert PathFrom(s, n, t) == [head];
    }
  }

  lemma ReassignedInjective(s: State, n: nat, i: int, k: int)
    requires PhaseDone(s, n) && 0 <= i < n && 0 <= k < n && i != k
    ensures var a := Reassigned(s, n, FullPath(s, n));
            a[i] != a[k] || a[i] == UNASSIGNED
  {
    var path := FullPath(s, n);
    ReassignedRow(s, n, i);
    ReassignedRow(s, n, k);
    var a := Reassigned(s, n, path);
    if a[i] == a[k] && a[i] != UNASSIGNED {
      PathAlternates(s, n, LastPrime(s));
      if PrimeOnPath(s, n, path, Loc(i, a[i])) && Loc(k, a[k]) in path {
        CellOnPath(s, n, Loc(k, a[k]));
      }
      if PrimeOnPath(s, n, path, Loc(k, a[k])) && Loc(i, a[i]) in path {
        CellOnPath(s, n, Loc(i, a[i]));
      }
    }
  }

  /** A phase that ended leaves a settled state: flipping the path yields a matching again. */
  lemma AugmentSettles(s: State, n: nat)
    requires PhaseDone(s, n)
    ensures Settled(Augmented(s, n, FullPath(s, n)), n)
  {
    var path := FullPath(s, n);
    var r := Augmented(s, n, path);
    forall i, j | 0 <= i < n && 0 <= j < n ensures r.mark[i][j] == Starred <==> r.assignment[i] == j {
      FlippedStars(s, n, i, j);
    }
    forall i, k | 0 <= i < k < n ensures r.assignment[i] != r.assignment[k] || r.assignment[i] == UNASSIGNED {
      ReassignedInjective(s, n, i, k);
    }
    forall i | 0 <= i < n ensures r.assignment[i] == UNASSIGNED || 0 <= r.assignment[i] < n {
      ReassignedRow(s, n, i);
    }
  }

  ghost function StarredRows(assignment: seq<int>): set<int> {
    set i | 0 <= i < |assignment| && assignment[i] != UNASSIGNED
  }

  lemma LastPrimeOnPath(s: State, n: nat)
    requires PhaseDone(s, n)
    ensures PrimeOnPath(s, n, FullPath(s, n), s.primes[LastPrime(s)])
  {
    var last := s.primes[LastPrime(s)];
    PathAlternates(s, n, LastPrime(s));
    hide Alternating, PrimesOrdered;
    assert PrimeAt(s, last.row, last.col);
  }

  lemma StarredAfter(s: State, n: nat, i: int)
    requires PhaseDone(s, n) && 0 <= i < n
    ensures var a := Reassigned(s, n, FullPath(s, n));
            a[i] != UNASSIGNED <==> s.assignment[i] != UNASSIGNED || i == s.primes[LastPrime(s)].row
  {
    hide Alternating, PrimesOrdered, Stars;
    var last := s.primes[LastPrime(s)];
    LastPrimeOnPath(s, n);
    if i == last.row {
      ReassignedPrime(s, n, last);
    } else {
      ReassignedRow(s, n, i);
      var a := Reassigned(s, n, FullPath(s, n))[i];
      if PrimeOnPath(s, n, FullPath(s, n), Loc(i, a)) {
        EnteredByStar(s, n, LastPrime(s), Loc(i, a));
      }
    }
  }

  /** Augmenting stars exactly one more row: the star-free row the phase ended in. */
  lemma AugmentAddsOneRow(s: State, n: nat)
    requires PhaseDone(s, n)
    ensures var last := s.primes[LastPrime(s)].row;
            && last !in StarredRows(s.assignment)
            && StarredRows(Augmented(s, n, FullPath(s, n)).assignment) == StarredRows(s.assignment) + {last}
  {
    hide Alternating, PrimesOrdered, Stars, Flipped, Reassigned, PathFrom;
    var a := Reassigned(s, n, FullPath(s, n));
    LastPrimeOnPath(s, n);
    forall i | 0 <= i < n
      ensures a[i] != UNASSIGNED <==> s.assignment[i] != UNASSIGNED || i == s.primes[LastPrime(s)].row
    {
      StarredAfter(s, n, i);
    }
  }
}
