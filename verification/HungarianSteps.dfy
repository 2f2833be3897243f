/**
 * The assigner's algorithm on values: what each private method does to the n x n block of the
 * weight and mark matrices, to the covers and to the assignment.
 */
module HungarianSteps {
  import opened Matchings

  const MAX_WEIGHT := 10000.0
  const UNASSIGNED := -1

  datatype Mark = NoLink | Unmarked | Zero | Primed | Starred

  datatype Loc = Loc(row: int, col: int)

  datatype State = State(
    w: Matrix,
    mark: seq<seq<Mark>>,
    assignment: seq<int>,
    rowCov: seq<bool>,
    colCov: seq<bool>,
    primes: seq<Loc>)

  function Put<T>(m: seq<seq<T>>, at: Loc, x: T): (r: seq<seq<T>>)
    requires 0 <= at.row < |m| && 0 <= at.col < |m[at.row]|
    ensures |r| == |m|
    ensures forall i :: 0 <= i < |m| ==> |r[i]| == |m[i]|
    ensures forall i, j :: 0 <= i < |m| && 0 <= j < |m[i]| ==>
                             r[i][j] == if i == at.row && j == at.col then x else m[i][j]
  {
    m[at.row := m[at.row][at.col := x]]
  }

  ghost predicate Shape(s: State, n: nat) {
    && Rectangular(s.w, n, n)
    && Rectangular(s.mark, n, n)
    && |s.assignment| == n && |s.rowCov| == n && |s.colCov| == n
  }

  ghost predicate In(n: nat, at: Loc) {
    0 <= at.row < n && 0 <= at.col < n
  }

  // ---- choosing the next prime -------------------------------------------------------------

  ghost predicate Uncovered(s: State, n: nat, at: Loc)
    requires Shape(s, n)
  {
    In(n, at) && !s.rowCov[at.row] && !s.colCov[at.col]
  }

  ghost predicate OpenZero(s: State, n: nat, at: Loc)
    requires Shape(s, n)
  {
    Uncovered(s, n, at) && s.mark[at.row][at.col] in {Zero, Primed}
  }

  ghost predicate OpenLink(s: State, n: nat, at: Loc)
    requires Shape(s, n)
  {
    Uncovered(s, n, at) && s.mark[at.row][at.col] != NoLink
  }

  /** Row-major scanning order. */
  predicate Before(a: Loc, b: Loc) {
    a.row < b.row || (a.row == b.row && a.col < b.col)
  }

  ghost predicate FirstZero(s: State, n: nat, at: Loc)
    requires Shape(s, n)
  {
    OpenZero(s, n, at) && forall c :: OpenZero(s, n, c) ==> !Before(c, at)
  }

  ghost predicate FirstMinimum(s: State, n: nat, at: Loc)
    requires Shape(s, n)
  {
    && OpenLink(s, n, at)
    && forall c :: OpenLink(s, n, c) ==>
                     s.w[at.row][at.col] < s.w[c.row][c.col]
                         || (s.w[at.row][at.col] == s.w[c.row][c.col] && !Before(c, at))
  }

  ghost predicate HasOpenZero(s: State, n: nat)
    requires Shape(s, n)
  {
    exists c :: OpenZero(s, n, c)
  }

  ghost predicate HasOpenLink(s: State, n: nat)
    requires Shape(s, n)
  {
    exists c :: OpenLink(s, n, c)
  }

  /** The cell the source primes next: a marked zero if any is uncovered, else the least uncovered weight. */
  ghost predicate Picked(s: State, n: nat, at: Loc)
    requires Shape(s, n)
  {
    if HasOpenZero(s, n) then FirstZero(s, n, at) else FirstMinimum(s, n, at)
  }

  // ---- one step of the priming phase -------------------------------------------------------

  /** Covered rows gain the minimum, uncovered columns lose it, and the cell becomes a zero. */
  ghost function AddZero(s: State, n: nat, at: Loc): (r: State)
    requires Shape(s, n) && In(n, at)
    ensures Shape(r, n)
  {
    var m := s.w[at.row][at.col];
    s.(w := seq(n, i requires 0 <= i < n => seq(n, j requires 0 <= j < n =>
         s.w[i][j] + (if s.rowCov[i] then m else 0.0) - (if s.colCov[j] then 0.0 else m))),
       mark := Put(s.mark, at, Zero))
  }

  ghost function Prepared(s: State, n: nat, at: Loc): (r: State)
    requires Shape(s, n) && In(n, at)
    ensures Shape(r, n)
  {
    if HasOpenZero(s, n) then s else AddZero(s, n, at)
  }

  ghost function WithPrime(s: State, n: nat, at: Loc): (r: State)
    requires Shape(s, n) && In(n, at)
    ensures Shape(r, n)
  {
    s.(mark := Put(s.mark, at, Primed), primes := s.primes + [at])
  }

  /** Prime the picked cell; when its row has a star, cover the row and uncover the star's column. */
  ghost function PrimeStep(s: State, n: nat, at: Loc): (r: State)
    requires Shape(s, n) && In(n, at)
    ensures Shape(r, n)
  {
    var p := WithPrime(Prepared(s, n, at), n, at);
    var c := s.assignment[at.row];
    if 0 <= c < n then p.(rowCov := p.rowCov[at.row := true], colCov := p.colCov[c := false]) else p
  }

  /** `r` is reached from `s` by priming the source's cells until one lies in a star-free row. */
  ghost predicate Phase(s: State, n: nat, r: State, last: Loc, steps: nat)
    requires Shape(s, n)
    decreases steps, 1
  {
    exists at :: PhaseVia(s, n, at, r, last, steps)
  }

  ghost predicate PhaseVia(s: State, n: nat, at: Loc, r: State, last: Loc, steps: nat)
    requires Shape(s, n)
    decreases steps, 0
  {
    && Picked(s, n, at) && In(n, at)
    && var next := PrimeStep(s, n, at);
       if 0 <= s.assignment[at.row] < n then steps > 0 && Phase(next, n, r, last, steps - 1)
       else steps == 1 && at == last && r == next
  }

  // ---- the augmenting path -----------------------------------------------------------------

  ghost predicate StarInColumn(s: State, n: nat, c: int, i: int)
    requires |s.assignment| == n
  {
    0 <= i < n && s.assignment[i] == c
  }

  ghost predicate PrimeOfRow(s: State, i: int, q: int) {
    0 <= q < |s.primes| && s.primes[q].row == i
  }

  /** From prime t: to the star of its column, to the prime of that star's row, and so on. */
  ghost function PathFrom(s: State, n: nat, t: nat): seq<Loc>
    requires |s.assignment| == n && t < |s.primes|
    decreases t
  {
    var c := s.primes[t].col;
    if exists i, q :: StarInColumn(s, n, c, i) && PrimeOfRow(s, i, q) && q < t then
      var i, q :| StarInColumn(s, n, c, i) && PrimeOfRow(s, i, q) && q < t;
      [s.primes[t], Loc(i, c)] + PathFrom(s, n, q)
    else
      [s.primes[t]]
  }

  /** Along the path stars become zeros and primes become stars; every other prime is erased. */
  ghost function Flipped(s: State, n: nat, path: seq<Loc>): (m: seq<seq<Mark>>)
    requires Shape(s, n)
    ensures Rectangular(m, n, n)
  {
    seq(n, i requires 0 <= i < n => seq(n, j requires 0 <= j < n =>
      if Loc(i, j) in path then (if s.mark[i][j] == Starred then Zero else Starred)
      else if s.mark[i][j] == Primed then Zero
      else s.mark[i][j]))
  }

  ghost predicate NewStar(s: State, n: nat, path: seq<Loc>, i: int, j: int)
    requires Shape(s, n)
  {
    0 <= i < n && 0 <= j < n && Loc(i, j) in path && s.mark[i][j] != Starred
  }

  ghost function Reassigned(s: State, n: nat, path: seq<Loc>): (a: seq<int>)
    requires Shape(s, n)
    ensures |a| == n
  {
    seq(n, i requires 0 <= i < n =>
      if exists j :: NewStar(s, n, path, i, j) then (var j :| NewStar(s, n, path, i, j); j)
      else s.assignment[i])
  }

  ghost function ColumnsOf(assignment: seq<int>, n: nat): (c: seq<bool>)
    ensures |c| == n
  {
    seq(n, j requires 0 <= j < n => j in assignment)
  }

  ghost function Augmented(s: State, n: nat, path: seq<Loc>): (r: State)
    requires Shape(s, n)
    ensures Shape(r, n)
  {
    var a := Reassigned(s, n, path);
    State(s.w, Flipped(s, n, path), a, seq(n, i => false), ColumnsOf(a, n), [])
  }

  // ---- uniqueness: the steps are functions of the state -------------------------------------

  lemma PickUnique(s: State, n: nat, a: Loc, b: Loc)
    requires Shape(s, n)
    requires Picked(s, n, a) && Picked(s, n, b)
    ensures a == b
  {
    assert !Before(a, b) && !Before(b, a);
  }
}
