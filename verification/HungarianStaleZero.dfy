/**
 * A run that misses the optimum. Four rows against five columns: the first pass raises the zero
 * that row 4 holds in column 1, the mark stays, and the second pass stars it.
 */
module HungarianStaleZero {
  import opened Sums
  import opened Matchings
  import opened HungarianSteps
  import opened HungarianInvariants
  import opened HungarianPhase
  import opened HungarianAugment
  import opened HungarianSolve
  import opened HungarianAssigner

  const U := Unmarked
  const Z := Zero
  const P := Primed
  const S := Starred

  ghost function W0(): Matrix {
    [
      [3.0, 2.0, 0.0, 2.0, 2.0],
      [2.0, 0.0, 0.0, 3.0, 1.0],
      [1.0, 1.0, 0.0, 2.0, 2.0],
      [1.0, 2.0, 0.0, 1.0, 3.0],
      [0.0, 0.0, 0.0, 0.0, 0.0]]
  }

  ghost function W1(): Matrix {
    [
      [2.0, 2.0, 0.0, 1.0, 1.0],
      [1.0, 0.0, 0.0, 2.0, 0.0],
      [0.0, 1.0, 0.0, 1.0, 1.0],
      [0.0, 2.0, 0.0, 0.0, 2.0],
      [0.0, 1.0, 1.0, 0.0, 0.0]]
  }

  ghost function S0(): State {
    State(W0(), [
      [U, U, S, U, U],
      [U, S, U, U, U],
      [U, U, Z, U, U],
      [U, U, Z, U, U],
      [S, Z, Z, Z, Z]],
      [2, 1, -1, -1, 0],
      [false, false, false, false, false],
      [true, true, true, false, false],
      [])
  }

  ghost function S1(): State {
    State(W0(), [
      [U, U, S, U, U],
      [U, S, U, U, U],
      [U, U, Z, U, U],
      [U, U, Z, U, U],
      [S, Z, Z, P, Z]],
      [2, 1, -1, -1, 0],
      [false, false, false, false, true],
      [false, true, true, false, false],
      [Loc(4, 3)])
  }

  ghost function S2(): State {
    State(W1(), [
      [U, U, S, U, U],
      [U, S, U, U, P],
      [U, U, Z, U, U],
      [U, U, Z, U, U],
      [S, Z, Z, P, Z]],
      [2, 1, -1, -1, 0],
      [false, true, false, false, true],
      [false, false, true, false, false],
      [Loc(4, 3), Loc(1, 4)])
  }

  ghost function S3(): State {
    State(W1(), [
      [U, U, S, U, U],
      [U, S, U, U, P],
      [P, U, Z, U, U],
      [U, U, Z, U, U],
      [S, Z, Z, P, Z]],
      [2, 1, -1, -1, 0],
      [false, true, false, false, true],
      [false, false, true, false, false],
      [Loc(4, 3), Loc(1, 4), Loc(2, 0)])
  }

  ghost function S4(): State {
    State(W1(), [
      [U, U, S, U, U],
      [U, S, U, U, Z],
      [S, U, Z, U, U],
      [U, U, Z, U, U],
      [Z, Z, Z, S, Z]],
      [2, 1, 0, -1, 3],
      [false, false, false, false, false],
      [true, true, true, true, false],
      [])
  }

  ghost function S5(): State {
    State(W1(), [
      [U, U, S, U, U],
      [U, S, U, U, P],
      [S, U, Z, U, U],
      [U, U, Z, U, U],
      [Z, Z, Z, S, Z]],
      [2, 1, 0, -1, 3],
      [false, true, false, false, false],
      [true, false, true, true, false],
      [Loc(1, 4)])
  }

  ghost function S6(): State {
    State(W1(), [
      [U, U, S, U, U],
      [U, S, U, U, P],
      [S, U, Z, U, U],
      [U, U, Z, U, U],
      [Z, P, Z, S, Z]],
      [2, 1, 0, -1, 3],
      [false, true, false, false, true],
      [true, false, true, false, false],
      [Loc(1, 4), Loc(4, 1)])
  }

  ghost function S7(): State {
    State(W1(), [
      [U, U, S, U, U],
      [U, S, U, U, P],
      [S, U, Z, U, U],
      [U, U, Z, P, U],
      [Z, P, Z, S, Z]],
      [2, 1, 0, -1, 3],
      [false, true, false, false, true],
      [true, false, true, false, false],
      [Loc(1, 4), Loc(4, 1), Loc(3, 3)])
  }

  ghost function S8(): State {
    State(W1(), [
      [U, U, S, U, U],
      [U, Z, U, U, S],
      [S, U, Z, U, U],
      [U, U, Z, S, U],
      [Z, S, Z, Z, Z]],
      [2, 4, 0, 3, 1],
      [false, false, false, false, false],
      [true, true, true, true, true],
      [])
  }

  lemma Cells(c: Loc)
    requires In(5, c)
    ensures c.row in {0, 1, 2, 3, 4} && c.col in {0, 1, 2, 3, 4}
  {
  }

  lemma SameStep(s: State, at: Loc, r: State)
    requires Shape(s, 5) && Shape(r, 5) && In(5, at)
    requires forall i, j :: 0 <= i < 5 && 0 <= j < 5 ==> PrimeStep(s, 5, at).w[i][j] == r.w[i][j]
    requires forall i, j :: 0 <= i < 5 && 0 <= j < 5 ==> PrimeStep(s, 5, at).mark[i][j] == r.mark[i][j]
    requires PrimeStep(s, 5, at).rowCov == r.rowCov && PrimeStep(s, 5, at).colCov == r.colCov
    requires s.assignment == r.assignment && s.primes + [at] == r.primes
    ensures PrimeStep(s, 5, at) == r
  {
    SameBlock(PrimeStep(s, 5, at).w, r.w, 5);
    SameBlock(PrimeStep(s, 5, at).mark, r.mark, 5);
  }

  lemma Pick0()
    ensures Shape(S0(), 5) && HasOpenZero(S0(), 5) && FirstZero(S0(), 5, Loc(4, 3))
  {
    assert OpenZero(S0(), 5, Loc(4, 3));
    forall c | OpenZero(S0(), 5, c) ensures !Before(c, Loc(4, 3)) { Cells(c); }
  }

  lemma Step0()
    ensures Shape(S0(), 5) && Picked(S0(), 5, Loc(4, 3)) && PrimeStep(S0(), 5, Loc(4, 3)) == S1()
  {
    hide FirstMinimum, HasOpenZero, FirstZero;
    Pick0();
    SameStep(S0(), Loc(4, 3), S1());
  }

  lemma Pick1()
    ensures Shape(S1(), 5) && !HasOpenZero(S1(), 5) && FirstMinimum(S1(), 5, Loc(1, 4))
  {
    assert OpenLink(S1(), 5, Loc(1, 4));
    forall c | OpenZero(S1(), 5, c) ensures false { Cells(c); }
  }

  lemma Step1()
    ensures Shape(S1(), 5) && Picked(S1(), 5, Loc(1, 4)) && PrimeStep(S1(), 5, Loc(1, 4)) == S2()
  {
    hide FirstMinimum, HasOpenZero, FirstZero;
    Pick1();
    SameStep(S1(), Loc(1, 4), S2());
  }

  lemma Pick2()
    ensures Shape(S2(), 5) && !HasOpenZero(S2(), 5) && FirstMinimum(S2(), 5, Loc(2, 0))
  {
    assert OpenLink(S2(), 5, Loc(2, 0));
    forall c | OpenZero(S2(), 5, c) ensures false { Cells(c); }
  }

  lemma Step2()
    ensures Shape(S2(), 5) && Picked(S2(), 5, Loc(2, 0)) && PrimeStep(S2(), 5, Loc(2, 0)) == S3()
  {
    hide FirstMinimum, HasOpenZero, FirstZero;
    Pick2();
    SameStep(S2(), Loc(2, 0), S3());
  }

  lemma Pick4()
    ensures Shape(S4(), 5) && HasOpenZero(S4(), 5) && FirstZero(S4(), 5, Loc(1, 4))
  {
    assert OpenZero(S4(), 5, Loc(1, 4));
    forall c | OpenZero(S4(), 5, c) ensures !Before(c, Loc(1, 4)) { Cells(c); }
  }

  lemma Step4()
    ensures Shape(S4(), 5) && Picked(S4(), 5, Loc(1, 4)) && PrimeStep(S4(), 5, Loc(1, 4)) == S5()
  {
    hide FirstMinimum, HasOpenZero, FirstZero;
    Pick4();
    SameStep(S4(), Loc(1, 4), S5());
  }

  lemma Pick5()
    ensures Shape(S5(), 5) && HasOpenZero(S5(), 5) && FirstZero(S5(), 5, Loc(4, 1))
  {
    assert OpenZero(S5(), 5, Loc(4, 1));
    forall c | OpenZero(S5(), 5, c) ensures !Before(c, Loc(4, 1)) { Cells(c); }
  }

  lemma Step5()
    ensures Shape(S5(), 5) && Picked(S5(), 5, Loc(4, 1)) && PrimeStep(S5(), 5, Loc(4, 1)) == S6()
  {
    hide FirstMinimum, HasOpenZero, FirstZero;
    Pick5();
    SameStep(S5(), Loc(4, 1), S6());
  }

  lemma Pick6()
    ensures Shape(S6(), 5) && !HasOpenZero(S6(), 5) && FirstMinimum(S6(), 5, Loc(3, 3))
  {
    assert OpenLink(S6(), 5, Loc(3, 3));
    forall c | OpenZero(S6(), 5, c) ensures false { Cells(c); }
  }

  lemma Step6()
    ensures Shape(S6(), 5) && Picked(S6(), 5, Loc(3, 3)) && PrimeStep(S6(), 5, Loc(3, 3)) == S7()
  {
    hide FirstMinimum, HasOpenZero, FirstZero;
    Pick6();
    SameStep(S6(), Loc(3, 3), S7());
  }

  lemma Column(s: State, t: nat, c: int)
    requires Walkable(s, 5) && t < |s.primes| && s.primes[t].col == c && c !in s.assignment
    ensures PathFrom(s, 5, t) == [s.primes[t]]
  {
    forall i ensures !StarInColumn(s, 5, c, i) {}
  }

  ghost function Base(): Matrix {
    W0()
  }

  ghost function Mins(): seq<int> {
    [2, 1, 2, 2]
  }

  lemma InputIsBase()
    ensures Input(Base(), Mins(), 4, 5)
    ensures RowReduced(Base(), Mins(), 4, 5) == W0()
  {
    SameBlock(RowReduced(Base(), Mins(), 4, 5), W0(), 5);
  }

  /** Rows 0 and 1 star their minimum; rows 2 and 3 find column 2 taken. */
  lemma MinimaOfBase() returns (m: State)
    ensures Input(Base(), Mins(), 4, 5) && m == MinimaStarred(Base(), Mins(), 4, 5, 4)
    ensures Shape(m, 5)
    ensures m == State(W0(), m.mark, [2, 1, -1, -1, -1], [false, false, false, false, false],
                       [false, true, true, false, false], [])
    ensures forall i, j :: 0 <= i < 5 && 0 <= j < 5 && Loc(i, j) != Loc(4, 0) ==> m.mark[i][j] == S0().mark[i][j]
  {
    InputIsBase();
    var a := Unstarred(Base(), Mins(), 4, 5);
    hide RowReduced, W0, Input;
    var b := StarMinimum(a, 5, 0, 2);
    var c := StarMinimum(b, 5, 1, 1);
    var d := StarMinimum(c, 5, 2, 2);
    m := StarMinimum(d, 5, 3, 2);
    assert b == MinimaStarred(Base(), Mins(), 4, 5, 1);
    assert c == MinimaStarred(Base(), Mins(), 4, 5, 2);
    assert d == MinimaStarred(Base(), Mins(), 4, 5, 3);
    assert m == MinimaStarred(Base(), Mins(), 4, 5, 4);
  }

  lemma InitialIsS0()
    ensures Input(Base(), Mins(), 4, 5) && Initial(Base(), Mins(), 4, 5) == S0()
  {
    var m := MinimaOfBase();
    hide W0, Input, MinimaStarred;
    assert FirstFree(m, 5, 0);
    assert RowsStarred(Base(), Mins(), 4, 5, 4) == m;
    var r := RowsStarred(Base(), Mins(), 4, 5, 5);
    assert r == StarFree(m, 5, 4);
    SameBlock(r.mark, S0().mark, 5);
    assert r.assignment == S0().assignment && r.colCov == S0().colCov;
  }

  /** Three primes, the first two in starred rows and the third in a star-free one, make a phase. */
  lemma ThreeSteps(s0: State, a: Loc, s1: State, b: Loc, s2: State, c: Loc, s3: State)
    requires Shape(s0, 5) && Picked(s0, 5, a) && In(5, a) && PrimeStep(s0, 5, a) == s1 && 0 <= s0.assignment[a.row] < 5
    requires Shape(s1, 5) && Picked(s1, 5, b) && In(5, b) && PrimeStep(s1, 5, b) == s2 && 0 <= s1.assignment[b.row] < 5
    requires Shape(s2, 5) && Picked(s2, 5, c) && In(5, c) && PrimeStep(s2, 5, c) == s3
      && s2.assignment[c.row] == UNASSIGNED
    ensures Phase(s0, 5, s3, c, 3)
  {
    assert PhaseVia(s2, 5, c, s3, c, 1);
    assert PhaseVia(s1, 5, b, s3, c, 2);
    assert PhaseVia(s0, 5, a, s3, c, 3);
  }

  lemma FirstPhase()
    ensures Shape(S0(), 5) && Phase(S0(), 5, S3(), Loc(2, 0), 3)
  {
    Step0();
    Step1();
    Step2();
    ThreeSteps(S0(), Loc(4, 3), S1(), Loc(1, 4), S2(), Loc(2, 0), S3());
  }

  lemma SecondPhase()
    ensures Shape(S4(), 5) && Phase(S4(), 5, S7(), Loc(3, 3), 3)
  {
    Step4();
    Step5();
    Step6();
    ThreeSteps(S4(), Loc(1, 4), S5(), Loc(4, 1), S6(), Loc(3, 3), S7());
  }

  lemma SameAugmented(s: State, path: seq<Loc>, r: State)
    requires Shape(s, 5) && Shape(r, 5) && r.w == s.w && r.primes == []
    requires forall i, j :: 0 <= i < 5 && 0 <= j < 5 ==> Flipped(s, 5, path)[i][j] == r.mark[i][j]
    requires forall i, j :: NewStar(s, 5, path, i, j) ==> r.assignment[i] == j
    requires forall i :: 0 <= i < 5 ==> r.assignment[i] == s.assignment[i] || NewStar(s, 5, path, i, r.assignment[i])
    requires forall i :: 0 <= i < 5 ==> !r.rowCov[i]
    requires forall j :: 0 <= j < 5 ==> (r.colCov[j] <==> j in r.assignment)
    ensures Augmented(s, 5, path) == r
  {
    SameBlock(Flipped(s, 5, path), r.mark, 5);
    forall i | 0 <= i < 5 ensures Reassigned(s, 5, path)[i] == r.assignment[i] {}
    assert Reassigned(s, 5, path) == r.assignment;
  }

  lemma FirstPath()
    requires Walkable(S3(), 5)
    ensures |S3().primes| == 3 && FullPath(S3(), 5) == [Loc(2, 0), Loc(4, 0), Loc(4, 3)]
  {
    assert StarInColumn(S3(), 5, 0, 4);
    var q := NextOnPath(S3(), 5, 2, 4);
    assert q == 0;
    Column(S3(), 0, 3);
  }

  lemma FirstFlip()
    ensures Shape(S3(), 5) && Augmented(S3(), 5, [Loc(2, 0), Loc(4, 0), Loc(4, 3)]) == S4()
  {
    SameAugmented(S3(), [Loc(2, 0), Loc(4, 0), Loc(4, 3)], S4());
  }

  lemma SecondPath()
    requires Walkable(S7(), 5)
    ensures |S7().primes| == 3 && FullPath(S7(), 5) == [Loc(3, 3), Loc(4, 3), Loc(4, 1), Loc(1, 1), Loc(1, 4)]
  {
    assert StarInColumn(S7(), 5, 3, 4);
    var q := NextOnPath(S7(), 5, 2, 4);
    assert q == 1;
    assert StarInColumn(S7(), 5, 1, 1);
    var q' := NextOnPath(S7(), 5, 1, 1);
    assert q' == 0;
    Column(S7(), 0, 4);
  }

  lemma SecondFlip()
    ensures Shape(S7(), 5)
    ensures Augmented(S7(), 5, [Loc(3, 3), Loc(4, 3), Loc(4, 1), Loc(1, 1), Loc(1, 4)]) == S8()
  {
    SameAugmented(S7(), [Loc(3, 3), Loc(4, 3), Loc(4, 1), Loc(1, 1), Loc(1, 4)], S8());
  }

  lemma MakePass(base: Matrix, s: State, n: nat, mid: State, last: Loc, steps: nat, path: seq<Loc>, r: State)
    requires Settled(s, n) && !AllCovered(s, n) && Dual(base, s.w, n)
    requires Phase(s, n, mid, last, steps)
    requires Walkable(mid, n) ==> |mid.primes| > 0 && FullPath(mid, n) == path
    requires Shape(mid, n) && Augmented(mid, n, path) == r
    ensures Pass(s, n, mid, last, steps, r)
    ensures Settled(r, n) && Dual(base, r.w, n)
  {
    SettledStarts(s, n);
    PhaseKeeps(base, s, n, mid, last, steps);
    PassAddsStar(base, s, n, mid, last, steps, r);
  }

  lemma ColumnsLeft()
    ensures Shape(S0(), 5) && !AllCovered(S0(), 5)
    ensures Shape(S4(), 5) && !AllCovered(S4(), 5)
    ensures Shape(S8(), 5) && AllCovered(S8(), 5)
  {
    assert !S0().colCov[4] && !S4().colCov[4];
  }

  lemma FirstPass()
    ensures Shape(S0(), 5) && Pass(S0(), 5, S3(), Loc(2, 0), 3, S4())
    ensures !AllCovered(S0(), 5) && Settled(S4(), 5) && Dual(Base(), S4().w, 5)
  {
    hide S0, S3, S4, W0, Mins, Pass, Phase, AllCovered, Augmented, FullPath, Walkable, Settled, Dual, Input;
    ColumnsLeft();
    InitialIsS0();
    InitialDual(Base(), Mins(), 4, 5);
    FirstPhase();
    FirstFlip();
    if Walkable(S3(), 5) { FirstPath(); }
    MakePass(Base(), S0(), 5, S3(), Loc(2, 0), 3, [Loc(2, 0), Loc(4, 0), Loc(4, 3)], S4());
  }

  lemma SecondPass()
    ensures Shape(S4(), 5) && Pass(S4(), 5, S7(), Loc(3, 3), 3, S8())
  {
    hide S4, S7, S8, W0, Mins, Pass, Phase, AllCovered, Augmented, FullPath, Walkable, Settled, Dual;
    ColumnsLeft();
    FirstPass();
    SecondPhase();
    SecondFlip();
    if Walkable(S7(), 5) { SecondPath(); }
    MakePass(Base(), S4(), 5, S7(), Loc(3, 3), 3, [Loc(3, 3), Loc(4, 3), Loc(4, 1), Loc(1, 1), Loc(1, 4)], S8());
  }

  lemma OnePass(s: State, n: nat, mid: State, last: Loc, steps: nat, next: State, r: State, passes: nat)
    requires Shape(s, n) && !AllCovered(s, n) && Pass(s, n, mid, last, steps, next)
    requires Shape(next, n) && Solved(next, n, r, passes)
    ensures Solved(s, n, r, passes + 1)
  {
    assert SolvedVia(s, n, mid, last, steps, next, r, passes + 1);
  }

  lemma LastPass(s: State, n: nat, mid: State, last: Loc, steps: nat, r: State)
    requires Shape(s, n) && !AllCovered(s, n) && Pass(s, n, mid, last, steps, r)
    requires Shape(r, n) && AllCovered(r, n)
    ensures Solved(s, n, r, 1)
  {
    OnePass(s, n, mid, last, steps, r, r, 0);
  }

  lemma FromS4()
    ensures Shape(S4(), 5) && Solved(S4(), 5, S8(), 1)
  {
    SecondPass();
    ColumnsLeft();
    LastPass(S4(), 5, S7(), Loc(3, 3), 3, S8());
  }

  lemma BothPasses()
    ensures Shape(S0(), 5) && Solved(S0(), 5, S8(), 2)
  {
    FirstPass();
    FromS4();
    OnePass(S0(), 5, S3(), Loc(2, 0), 3, S4(), S8(), 1);
  }

  lemma SolvedOnce(s: State, n: nat, r: State, passes: nat, r': State)
    requires Shape(s, n) && Solved(s, n, r, passes)
    requires exists k :: Solved(s, n, r', k)
    ensures r == r'
  {
    var k :| Solved(s, n, r', k);
    SolveUnique(s, n, r, passes, r', k);
  }

  /** These weights have a result. */
  lemma ResultOfBase()
    ensures Result(Base(), Mins(), 4, 5, S8())
  {
    hide S0, S8, W0, Solved;
    InitialIsS0();
    BothPasses();
  }

  lemma OnlyResult(r: State)
    requires Result(Base(), Mins(), 4, 5, r)
    ensures r == S8()
  {
    InitialIsS0();
    BothPasses();
    SolvedOnce(S0(), 5, S8(), 2, r);
  }

  lemma Costs()
    ensures Cost(W0(), [2, 4, 0, 3, 1], 4) == 3.0 && Cost(W0(), [2, 1, 0, 3], 4) == 2.0
    ensures Cost(W1(), [2, 4, 0, 3, 1], 5) == 1.0
  {
    var p := [2, 4, 0, 3, 1];
    FirstFour(W0(), p);
    FirstFour(W0(), [2, 1, 0, 3]);
    FirstFour(W1(), p);
    assert Cost(W1(), p, 5) == Cost(W1(), p, 4) + Cell(W1(), 4, 1);
  }

  /** For these weights the assigner pays 3 where 2 is possible. */
  lemma NotAlwaysOptimal(r: State)
    requires Result(Base(), Mins(), 4, 5, r)
    ensures Cost(Base(), r.assignment, 4) == 3.0
    ensures Injective([2, 1, 0, 3], 5) && Cost(Base(), [2, 1, 0, 3], 4) == 2.0
    ensures !Optimal(Base(), 4, 5, r.assignment) && Excess(r, 5) == 1.0
  {
    hide Result, Cost, W0, W1;
    OnlyResult(r);
    Costs();
    assert |[2, 1, 0, 3]| == 4;
  }

  /** So does every assigner that was given them, once `assign` has run. */
  lemma AssignMisses(a: Assigner)
    requires a.Valid() && a.numRows == 4 && a.numCols == 5 && exists mins :: Result(Base(), mins, 4, 5, a.Model())
    ensures Cost(Base(), a.assignments[..5], 4) == 3.0 && Cost(Base(), [2, 1, 0, 3], 4) == 2.0
  {
    hide Cost, W0, W1, Solved;
    var mins :| Result(Base(), mins, 4, 5, a.Model());
    InputIsBase();
    MinimaUnique(Base(), mins, Mins(), 4, 5);
    NotAlwaysOptimal(a.Model());
  }

  lemma FirstFour(w: Matrix, p: seq<int>)
    ensures Cost(w, p, 4) == Cell(w, 0, To(p, 0)) + Cell(w, 1, To(p, 1)) + Cell(w, 2, To(p, 2)) + Cell(w, 3, To(p, 3))
  {
    var f := (i: int) => Cell(w, i, To(p, i));
    SumEq(i => Cell(w, i, To(p, i)), f, 4);
    assert Sum(f, 4) == Sum(f, 3) + f(3) == Sum(f, 2) + f(2) + f(3);
  }
}
