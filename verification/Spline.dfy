/** The cubic spline through values at the integer knots. */
module Spline {
  import opened Reals
  import opened Interpolation

  // ---- the coefficients a natural cubic spline must have ---------------------------------------

  /** Right-hand side of the tridiagonal system at knot i. */
  function Curvature(a: seq<real>, i: int): real
    requires 0 < i < |a| - 1
  {
    3.0 * (a[i - 1] - 2.0 * a[i] + a[i + 1])
  }

  /** c solves the tridiagonal system for a, with zero ends. */
  ghost predicate Solves(a: seq<real>, c: seq<real>) {
    && |c| == |a| >= 2 && c[0] == 0.0 && c[|a| - 1] == 0.0
    && forall i :: 0 < i < |a| - 1 ==> c[i - 1] + 4.0 * c[i] + c[i + 1] == Curvature(a, i)
  }

  ghost predicate Coefficients(a: seq<real>, b: seq<real>, c: seq<real>, d: seq<real>) {
    && Solves(a, c) && |b| == |d| == |a|
    && b[|a| - 1] == 0.0 && d[|a| - 1] == 0.0
    && forall i :: 0 <= i < |a| - 1 ==> d[i] == (c[i + 1] - c[i]) / 3.0 && b[i] == a[i + 1] - a[i] - c[i] - d[i]
  }

  // ---- what they mean ------------------------------------------------------------------------

  /** The i-th cubic piece, its slope and its second derivative, at distance t from knot i. */
  function Piece(a: seq<real>, b: seq<real>, c: seq<real>, d: seq<real>, i: int, t: real): real
    requires 0 <= i < |a| == |b| == |c| == |d|
  {
    a[i] + (b[i] + (c[i] + d[i] * t) * t) * t
  }

  function Slope(b: seq<real>, c: seq<real>, d: seq<real>, i: int, t: real): real
    requires 0 <= i < |b| == |c| == |d|
  {
    b[i] + 2.0 * c[i] * t + 3.0 * d[i] * t * t
  }

  function Bend(c: seq<real>, d: seq<real>, i: int, t: real): real
    requires 0 <= i < |c| == |d|
  {
    2.0 * c[i] + 6.0 * d[i] * t
  }

  /** Slope and bend are the derivatives of the piece: its exact expansion around t. */
  lemma PieceExpands(a: seq<real>, b: seq<real>, c: seq<real>, d: seq<real>, i: int, t: real, h: real)
    requires 0 <= i < |a| == |b| == |c| == |d|
    ensures Piece(a, b, c, d, i, t + h)
         == Piece(a, b, c, d, i, t) + Slope(b, c, d, i, t) * h + Bend(c, d, i, t) / 2.0 * h * h + d[i] * h * h * h
  {
  }

  /** Neighbouring pieces meet at their knot with equal value, slope and second derivative. */
  lemma MeetsSmoothly(a: seq<real>, b: seq<real>, c: seq<real>, d: seq<real>, i: int)
    requires Coefficients(a, b, c, d) && 0 <= i < |a| - 1
    ensures Piece(a, b, c, d, i, 0.0) == a[i] && Piece(a, b, c, d, i, 1.0) == a[i + 1]
    ensures Bend(c, d, i, 1.0) == Bend(c, d, i + 1, 0.0)
    ensures i + 1 < |a| - 1 ==> Slope(b, c, d, i, 1.0) == Slope(b, c, d, i + 1, 0.0)
  {
    if i + 1 < |a| - 1 {
      assert c[i] + 4.0 * c[i + 1] + c[i + 2] == Curvature(a, i + 1);
      assert d[i + 1] == (c[i + 2] - c[i + 1]) / 3.0;
    }
  }

  /** The bend vanishes at both ends: the spline is the natural one. */
  lemma NaturalEnds(a: seq<real>, b: seq<real>, c: seq<real>, d: seq<real>)
    requires Coefficients(a, b, c, d)
    ensures Bend(c, d, 0, 0.0) == 0.0 && Bend(c, d, |a| - 2, 1.0) == 0.0
  {
    MeetsSmoothly(a, b, c, d, |a| - 2);
  }

  // ---- uniqueness ----------------------------------------------------------------------------

  /** Index of an entry of largest magnitude among the first n. */
  lemma {:induction false} Largest(e: seq<real>, n: nat) returns (k: int)
    requires 0 < n <= |e|
    ensures 0 <= k < n && forall i :: 0 <= i < n ==> Abs(e[i]) <= Abs(e[k])
  {
    if n == 1 {
      k := 0;
    } else {
      k := Largest(e, n - 1);
      if Abs(e[k]) < Abs(e[n - 1]) { k := n - 1; }
    }
  }

  /** The system is diagonally dominant, so its solution is the only one. */
  lemma SolutionUnique(a: seq<real>, c: seq<real>, c': seq<real>)
    requires Solves(a, c) && Solves(a, c')
    ensures c == c'
  {
    var e := seq(|a|, i requires 0 <= i < |a| => c[i] - c'[i]);
    var k := Largest(e, |a|);
    if 0 < k < |a| - 1 {
      assert c[k - 1] + 4.0 * c[k] + c[k + 1] == Curvature(a, k) == c'[k - 1] + 4.0 * c'[k] + c'[k + 1];
      assert e[k - 1] + 4.0 * e[k] + e[k + 1] == 0.0;
      assert Abs(e[k - 1]) <= Abs(e[k]) && Abs(e[k + 1]) <= Abs(e[k]);
    }
    assert e[k] == 0.0;
    forall i | 0 <= i < |a| ensures c[i] == c'[i] { assert Abs(e[i]) <= 0.0; }
  }

  // ---- the algorithm -------------------------------------------------------------------------

  /** Row i of the system after the forward sweep: the divisor 4 - w0 is at least 3, its inverse is w1. */
  ghost predicate SweptRow(w0: real, w1: real, c0: real, c1: real, r: real) {
    0.0 <= w1 <= 1.0 / 3.0 && w1 * (4.0 - w0) == 1.0 && c1 * (4.0 - w0) == r - c0
  }

  /** The first n rows have been swept, the others still hold their right-hand sides. */
  ghost predicate Swept(a: seq<real>, c: seq<real>, w: seq<real>, n: int) {
    && 1 <= n == |w| <= |a| - 1 && |c| == |a| && c[0] == 0.0 && c[|a| - 1] == 0.0 && w[0] == 0.0
    && (forall i :: 0 < i < n ==> SweptRow(w[i - 1], w[i], c[i - 1], c[i], Curvature(a, i)))
    && (forall i :: n <= i < |a| - 1 ==> c[i] == Curvature(a, i))
  }

  class SplineInterpolate {
    var initialized: bool
    var a: seq<real>
    var b: seq<real>
    var c: seq<real>
    var d: seq<real>

    ghost predicate Fitted()
      reads this
    {
      initialized && Coefficients(a, b, c, d)
    }

    constructor ()
      ensures !initialized
    {
      initialized := false;
      a, b, c, d := [], [], [], [];
    }

    /** The right-hand sides, between zero ends. */
    method FillRightHandSides(N: int)
      requires N == |a| >= 2
      modifies this`c
      ensures |c| == N && c[0] == 0.0 && c[N - 1] == 0.0
      ensures forall i :: 0 < i < N - 1 ==> c[i] == Curvature(a, i)
    {
      c := [0.0];
      for i := 1 to N - 1
        invariant |c| == i && c[0] == 0.0 && forall k :: 0 < k < i ==> c[k] == Curvature(a, k)
      {
        c := c + [3.0 * (a[i - 1] - 2.0 * a[i] + a[i + 1])];
      }
      c := c + [0.0];
    }

    method ForwardSweep(N: int) returns (w: seq<real>)
      requires N == |a| >= 2 && Swept(a, c, [0.0], 1)
      modifies this`c
      ensures Swept(a, c, w, N - 1)
    {
      hide Swept;
      w := [0.0];
      for i := 1 to N - 1
        invariant Swept(a, c, w, i)
      {
        Divisor(a, c, w, i);
        var tmp := 1.0 / (4.0 - w[i - 1]);
        var value := (c[i] - c[i - 1]) * tmp;
        SweepStep(a, c, w, i, tmp, value);
        c := c[i := value];
        w := w + [tmp];
      }
    }

    method BackSubstitute(N: int, w: seq<real>)
      requires N == |a| >= 2 && Swept(a, c, w, N - 1)
      modifies this`c
      ensures Solves(a, c)
    {
      hide Swept, Solves;
      ghost var swept := c;
      BackStart(a, c, w);
      var i := N - 2;
      while i > 0
        invariant BackSubstituted(a, swept, c, w, i) && |w| == N - 1
      {
        BackStep(a, swept, c, w, i);
        c := c[i := c[i] - c[i + 1] * w[i]];
        i := i - 1;
      }
      BackDone(a, swept, c, w);
    }

    method FillPieces(N: int)
      requires N == |a| && Solves(a, c) && b == d == []
      modifies this`b, this`d
      ensures Coefficients(a, b, c, d)
    {
      for k := 0 to N - 1
        invariant |b| == |d| == k
        invariant forall m :: 0 <= m < k ==> d[m] == (c[m + 1] - c[m]) / 3.0 && b[m] == a[m + 1] - a[m] - c[m] - d[m]
      {
        d := d + [(c[k + 1] - c[k]) / 3.0];
        b := b + [a[k + 1] - a[k] - c[k] - d[k]];
      }
      d := d + [0.0];
      b := b + [0.0];
    }

    /** Fits the spline to N values; with fewer than two the source's bounds-checked access throws. */
    method GenerateSpline(x: seq<real>) returns (ok: bool)
      modifies this
      ensures ok <==> |x| >= 2
      ensures ok ==> Fitted() && a == x
    {
      a, b, c, d := x, [], [], [];
      ok := |x| >= 2;
      if !ok { return; }
      FillRightHandSides(|x|);
      var w := ForwardSweep(|x|);
      BackSubstitute(|x|, w);
      FillPieces(|x|);
      initialized := true;
    }

    /** A fitted spline passes through its values, follows its pieces between them and stays at the last value. */
    function GetValue(s: real): (v: real)
      requires initialized ==> Coefficients(a, b, c, d)
      requires s >= 0.0
      reads this
      ensures !initialized ==> v == 0.0
      ensures initialized ==> v == Evaluate(a, b, c, d, s)
      ensures initialized ==> forall i :: 0 <= i < |a| && s == Knot(i) ==> v == a[i]
      ensures initialized ==> forall i :: 0 <= i < |a| - 1 && Between(s, i) ==> v == Piece(a, b, c, d, i, s - Knot(i))
      ensures initialized && s >= Knot(|a| - 1) ==> v == a[|a| - 1]
    {
      if !initialized then 0.0
      else
        EvaluateIs(a, b, c, d, s);
        var j := if s.Floor < |a| - 1 then s.Floor else |a| - 1;
        var ds := s - j as real;
        a[j] + (b[j] + (c[j] + d[j] * ds) * ds) * ds
    }

    /**
     * Interpolates at queries given in the units of baseIndex. Every query is evaluated where the
     * previous one leaves the search; with knots at least EPSILON apart that is its position among
     * the knots, counted in knots.
     */
    method Interpolate(baseIndex: seq<real>, baseValue: seq<real>, returnIndex: seq<real>, returnValue: seq<real>)
      returns (status: Status, values: seq<real>)
      modifies this
      ensures status == if !ValidInput(baseIndex, baseValue, returnIndex) then Invalid
                        else if |baseValue| < 2 then Thrown else Done
      ensures status == Done ==> Fitted() && a == baseValue && |values| == |returnValue| + |returnIndex|
      ensures status == Done && Spaced(baseIndex) ==>
                forall m :: 0 <= m < |returnIndex| ==>
                  InRange(baseIndex, returnIndex[m]) &&
                  values[|returnValue| + m] == Evaluate(a, b, c, d, Position(baseIndex, returnIndex[m]))
      ensures status == Done ==>
                forall m :: 0 <= m < |returnIndex| ==>
                  values[|returnValue| + m] == Evaluate(a, b, c, d, Located(baseIndex, returnIndex, m))
      ensures status == Done && Spaced(baseIndex) ==>
                forall m, k | 0 <= m < |returnIndex| && 0 < k < |baseIndex|
                              && baseIndex[k - 1] <= returnIndex[m] <= baseIndex[k] ::
                  && baseIndex[k] - baseIndex[k - 1] > 0.0
                  && values[|returnValue| + m] == Piece(a, b, c, d, k - 1, (returnIndex[m] - baseIndex[k - 1])
                                                                           / (baseIndex[k] - baseIndex[k - 1]))
      ensures status != Done ==> values == returnValue
    {
      hide Evaluate, Position, Located, Piece;
      values := returnValue;
      var valid := IsValidInput(baseIndex, baseValue, returnIndex);
      if !valid { return Invalid, values; }
      var normalized := NormalizeIndexes(baseIndex, baseValue, returnIndex);
      var fitted := GenerateSpline(baseValue);
      if !fitted { return Thrown, values; }
      for m := 0 to |normalized|
        invariant Fitted() && a == baseValue
        invariant |values| == |returnValue| + m
        invariant forall k :: 0 <= k < m ==> values[|returnValue| + k] == Evaluate(a, b, c, d, normalized[k])
      {
        values := values + [GetValue(normalized[m])];
      }
      if Spaced(baseIndex) { OnPieces(baseIndex, returnIndex, a, b, c, d); }
      status := Done;
    }

    /** Queries in knots: the knot's own number at a knot, a fraction past the previous one between. */
    method NormalizeIndexes(baseIndex: seq<real>, ghost baseValue: seq<real>, returnIndex: seq<real>)
        returns (normalized: seq<real>)
      requires ValidInput(baseIndex, baseValue, returnIndex)
      ensures |normalized| == |returnIndex|
      ensures forall m :: 0 <= m < |returnIndex| ==> normalized[m] >= 0.0
      ensures forall m :: 0 <= m < |returnIndex| ==>
                InRange(baseIndex, returnIndex[m])
                    && (Spaced(baseIndex) ==> normalized[m] == Position(baseIndex, returnIndex[m]))
      ensures forall m :: 0 <= m < |returnIndex| ==> normalized[m] == Located(baseIndex, returnIndex, m)
    {
      hide Position, Spaced, Weighted, Located, LocatedFrom;
      QueriesInRange(baseIndex, baseValue, returnIndex);
      normalized := [];
      var i := 0;
      for m := 0 to |returnIndex|
        invariant 0 <= i < |baseIndex| && |normalized| == m
        invariant i == Standing(baseIndex, returnIndex, m)
        invariant forall k :: 0 <= k < m ==> normalized[k] == Located(baseIndex, returnIndex, k)
        invariant m < |returnIndex| ==> forall j :: 0 <= j < i ==> baseIndex[j] < returnIndex[m]
        invariant forall k :: 0 <= k < m ==> normalized[k] >= 0.0
        invariant forall k :: 0 <= k < m ==>
                    InRange(baseIndex, returnIndex[k])
                        && (Spaced(baseIndex) ==> normalized[k] == Position(baseIndex, returnIndex[k]))
      {
        var idx := returnIndex[m];
        if baseIndex[i] == idx {
          PositionAtKnot(baseIndex, idx, i);
          LocatedAtKnot(baseIndex, returnIndex, m);
          normalized := normalized + [i as real];
          continue;
        }
        i := Seek(baseIndex, idx, i);
        if i <= 0 || |baseIndex| - 1 < i {
          // the source skips the query here
          assert false;
        }
        var distBaseIdx := baseIndex[i] - baseIndex[i - 1];
        var distToForward := baseIndex[i] - idx;
        var distToBackward := idx - baseIndex[i - 1];
        var value := Weighted(distToBackward, distToForward, i as real, Max(distBaseIdx, EPSILON));
        PositionBetween(baseIndex, idx, i, value);
        LocatedBetween(baseIndex, returnIndex, m, i, value);
        normalized := normalized + [value];
      }
    }
  }

  // ---- positions among the knots ----------------------------------------------------------------

  datatype Status = Done | Invalid | Thrown

  /** The piece holding s, evaluated; beyond the last knot the value there. */
  function Evaluate(a: seq<real>, b: seq<real>, c: seq<real>, d: seq<real>, s: real): real
    requires 0 < |a| == |b| == |c| == |d| && s >= 0.0
  {
    var j := if s.Floor < |a| - 1 then s.Floor else |a| - 1;
    Piece(a, b, c, d, j, s - j as real)
  }

  function Knot(i: int): real { i as real }

  ghost predicate Between(s: real, i: int) { Knot(i) <= s <= Knot(i + 1) }

  /** Through the knots, along the pieces, and level after the last knot. */
  lemma EvaluateIs(a: seq<real>, b: seq<real>, c: seq<real>, d: seq<real>, s: real)
    requires Coefficients(a, b, c, d) && s >= 0.0
    ensures forall i :: 0 <= i < |a| && s == Knot(i) ==> Evaluate(a, b, c, d, s) == a[i]
    ensures forall i :: 0 <= i < |a| - 1 && Between(s, i) ==>
      Evaluate(a, b, c, d, s) == Piece(a, b, c, d, i, s - Knot(i))
    ensures s >= Knot(|a| - 1) ==> Evaluate(a, b, c, d, s) == a[|a| - 1]
  {
    var last := |a| - 1;
    forall i | 0 <= i < |a| && s == Knot(i) ensures Evaluate(a, b, c, d, s) == a[i] {
      assert s.Floor == i;
    }
    forall i | 0 <= i < last && Between(s, i) ensures Evaluate(a, b, c, d, s) == Piece(a, b, c, d, i, s - Knot(i)) {
      if s == Knot(i + 1) {
        assert s.Floor == i + 1;
        MeetsSmoothly(a, b, c, d, i);
      } else {
        assert s.Floor == i;
      }
    }
    if s >= Knot(last) { assert s.Floor >= last; }
  }

  ghost predicate Spaced(baseIndex: seq<real>) {
    forall i :: 0 < i < |baseIndex| ==> baseIndex[i] - baseIndex[i - 1] >= EPSILON
  }

  /** k when the query is the k-th knot, else k - 1 plus the fraction of the way to knot k. */
  ghost function PositionFrom(baseIndex: seq<real>, query: real, k: int): (p: real)
    requires LeastKnot(baseIndex, query, k)
    ensures p >= 0.0
  {
    if k == 0 then 0.0
    else
      DivMono(0.0, query - baseIndex[k - 1], baseIndex[k] - baseIndex[k - 1]);
      Quotient(0.0, baseIndex[k] - baseIndex[k - 1], 0.0);
      k as real - 1.0 + (query - baseIndex[k - 1]) / (baseIndex[k] - baseIndex[k - 1])
  }

  ghost function Position(baseIndex: seq<real>, query: real): (p: real)
    requires InRange(baseIndex, query)
    ensures p >= 0.0
  {
    LeastKnotExists_(baseIndex, query);
    var k :| LeastKnot(baseIndex, query, k);
    PositionFrom(baseIndex, query, k)
  }

  ghost function LeastIndex(baseIndex: seq<real>, query: real): (k: int)
    requires InRange(baseIndex, query)
    ensures LeastKnot(baseIndex, query, k)
  {
    LeastKnotExists_(baseIndex, query);
    var k :| LeastKnot(baseIndex, query, k);
    k
  }

  /** Where the search stands before query m: at the least knot of the query before it. */
  ghost function Standing(baseIndex: seq<real>, returnIndex: seq<real>, m: int): (i: int)
    requires |baseIndex| > 0 && 0 <= m <= |returnIndex|
    requires forall j :: 0 <= j < |returnIndex| ==> InRange(baseIndex, returnIndex[j])
    ensures 0 <= i < |baseIndex|
  {
    if m == 0 then 0 else LeastIndex(baseIndex, returnIndex[m - 1])
  }

  /**
   * Where query m is evaluated: at the knot the search stands at when the query is there, else by
   * the distances to the least knot at or after it and to the knot before, over the epsilon when
   * these two are closer than that.
   */
  ghost function Located(baseIndex: seq<real>, returnIndex: seq<real>, m: int): (p: real)
    requires |baseIndex| > 0 && 0 <= m < |returnIndex|
    requires forall j :: 0 <= j < |returnIndex| ==> InRange(baseIndex, returnIndex[j])
    ensures p >= 0.0
  {
    var i := Standing(baseIndex, returnIndex, m);
    if baseIndex[i] == returnIndex[m] then i as real
    else LocatedFrom(baseIndex, returnIndex[m], LeastIndex(baseIndex, returnIndex[m]))
  }

  ghost function LocatedFrom(baseIndex: seq<real>, query: real, k: int): (p: real)
    requires InRange(baseIndex, query) && LeastKnot(baseIndex, query, k)
    ensures p >= 0.0
  {
    if k == 0 then 0.0
    else
      var p := Weighted(query - baseIndex[k - 1], baseIndex[k] - query, k as real,
                        Max(baseIndex[k] - baseIndex[k - 1], EPSILON));
      PositionBetween(baseIndex, query, k, p);
      p
  }

  lemma LocatedAtKnot(baseIndex: seq<real>, returnIndex: seq<real>, m: int)
    requires |baseIndex| > 0 && 0 <= m < |returnIndex|
    requires forall j :: 0 <= j < |returnIndex| ==> InRange(baseIndex, returnIndex[j])
    requires var i := Standing(baseIndex, returnIndex, m);
             baseIndex[i] == returnIndex[m] && LeastKnot(baseIndex, returnIndex[m], i)
    ensures Located(baseIndex, returnIndex, m) == Standing(baseIndex, returnIndex, m) as real
    ensures Standing(baseIndex, returnIndex, m + 1) == Standing(baseIndex, returnIndex, m)
  {
    LeastKnotUnique(baseIndex, returnIndex[m], Standing(baseIndex, returnIndex, m),
        LeastIndex(baseIndex, returnIndex[m]));
  }

  lemma LocatedBetween(baseIndex: seq<real>, returnIndex: seq<real>, m: int, k: int, value: real)
    requires |baseIndex| > 0 && 0 <= m < |returnIndex|
    requires forall j :: 0 <= j < |returnIndex| ==> InRange(baseIndex, returnIndex[j])
    requires baseIndex[Standing(baseIndex, returnIndex, m)] != returnIndex[m]
    requires LeastKnot(baseIndex, returnIndex[m], k) && k > 0
    requires value == Weighted(returnIndex[m] - baseIndex[k - 1], baseIndex[k] - returnIndex[m], k as real,
                               Max(baseIndex[k] - baseIndex[k - 1], EPSILON))
    ensures Located(baseIndex, returnIndex, m) == value
    ensures Standing(baseIndex, returnIndex, m + 1) == k
  {
    LeastKnotUnique(baseIndex, returnIndex[m], k, LeastIndex(baseIndex, returnIndex[m]));
  }

  lemma PositionIs(baseIndex: seq<real>, query: real, k: int)
    requires InRange(baseIndex, query) && LeastKnot(baseIndex, query, k)
    ensures Position(baseIndex, query) == PositionFrom(baseIndex, query, k)
  {
    forall m | LeastKnot(baseIndex, query, m) ensures m == k { LeastKnotUnique(baseIndex, query, k, m); }
  }

  lemma PositionAtKnot(baseIndex: seq<real>, query: real, k: int)
    requires InRange(baseIndex, query) && LeastKnot(baseIndex, query, k) && baseIndex[k] == query
    ensures Position(baseIndex, query) == k as real
  {
    PositionIs(baseIndex, query, k);
    if k > 0 {
      var w := baseIndex[k] - baseIndex[k - 1];
      Quotient(w, w, 1.0);
    }
  }

  /** Knots x - 1 and x weighted by the distances to the other one. */
  function Weighted(toBackward: real, toForward: real, x: real, dist: real): real
    requires dist != 0.0
  {
    (toBackward * x + toForward * (x - 1.0)) / dist
  }

  lemma PositionBetween(baseIndex: seq<real>, query: real, k: int, value: real)
    requires InRange(baseIndex, query) && LeastKnot(baseIndex, query, k) && k > 0
    requires value == Weighted(query - baseIndex[k - 1], baseIndex[k] - query, k as real,
                               Max(baseIndex[k] - baseIndex[k - 1], EPSILON))
    ensures value >= 0.0
    ensures Spaced(baseIndex) ==> value == Position(baseIndex, query)
  {
    var t, u, w, x := query - baseIndex[k - 1], baseIndex[k] - query, baseIndex[k] - baseIndex[k - 1], k as real;
    NonNegativeShare(t, u, x, Max(w, EPSILON), value);
    if Spaced(baseIndex) {
      PositionIs(baseIndex, query, k);
      ShareIs(t, u, w, x, value);
    }
  }

  lemma NonNegativeShare(t: real, u: real, x: real, v: real, value: real)
    requires t >= 0.0 && u >= 0.0 && x >= 1.0 && v > 0.0 && value == (t * x + u * (x - 1.0)) / v
    ensures value >= 0.0
  {
    MulMono(t, 0.0, x);
    MulMono(u, 0.0, x - 1.0);
    DivMono(0.0, t * x + u * (x - 1.0), v);
    Quotient(0.0, v, 0.0);
  }

  lemma ShareIs(t: real, u: real, w: real, x: real, value: real)
    requires w > 0.0 && t + u == w && value == (t * x + u * (x - 1.0)) / w
    ensures value == x - 1.0 + t / w
  {
    var f := t / w;
    assert f * w == t;
    assert (x - 1.0 + f) * w == (x - 1.0) * w + t;
    assert t * x + u * (x - 1.0) == (x - 1.0) * (t + u) + t;
    Quotient(t * x + u * (x - 1.0), w, x - 1.0 + f);
  }

  /** With spaced knots the spline passes through every base value. */
  lemma PassesThroughKnots(baseIndex: seq<real>, a: seq<real>, b: seq<real>, c: seq<real>, d: seq<real>, k: int)
    requires Coefficients(a, b, c, d) && |baseIndex| == |a| && Spaced(baseIndex) && Sorted(baseIndex)
    requires 0 <= k < |a|
    ensures Position(baseIndex, baseIndex[k]) == k as real
    ensures Evaluate(a, b, c, d, k as real) == a[k]
  {
    forall j | 0 <= j < k ensures baseIndex[j] < baseIndex[k] {
      assert baseIndex[k] - baseIndex[k - 1] >= EPSILON;
    }
    PositionAtKnot(baseIndex, baseIndex[k], k);
  }

  /** Between two spaced knots the piece before the second is evaluated at the share of the way between them. */
  lemma OnPiece(baseIndex: seq<real>, query: real, a: seq<real>, b: seq<real>, c: seq<real>, d: seq<real>, k: int)
    requires Coefficients(a, b, c, d) && |baseIndex| == |a| && Sorted(baseIndex) && Spaced(baseIndex)
    requires 0 < k < |baseIndex| && baseIndex[k - 1] <= query <= baseIndex[k]
    ensures InRange(baseIndex, query) && baseIndex[k] - baseIndex[k - 1] > 0.0
    ensures Evaluate(a, b, c, d, Position(baseIndex, query)) ==
            Piece(a, b, c, d, k - 1, (query - baseIndex[k - 1]) / (baseIndex[k] - baseIndex[k - 1]))
  {
    hide Evaluate, Piece, Coefficients, Position;
    var t, w := query - baseIndex[k - 1], baseIndex[k] - baseIndex[k - 1];
    assert w >= EPSILON > 0.0;
    StrictlyBefore(baseIndex, k);
    assert CoefficientsSized(a, b, c, d) by { SizedBy(a, b, c, d); }
    if query == baseIndex[k - 1] {
      PassesThroughKnots(baseIndex, a, b, c, d, k - 1);
      MeetsSmoothly(a, b, c, d, k - 1);
      Quotient(t, w, 0.0);
    } else {
      PositionIs(baseIndex, query, k);
      ShareWithin(t, w);
      EvaluateIs(a, b, c, d, Position(baseIndex, query));
      assert Knot(k - 1) == k as real - 1.0;
      assert Between(k as real - 1.0 + t / w, k - 1);
    }
  }

  ghost predicate CoefficientsSized(a: seq<real>, b: seq<real>, c: seq<real>, d: seq<real>) {
    |a| == |b| == |c| == |d| >= 2
  }

  lemma SizedBy(a: seq<real>, b: seq<real>, c: seq<real>, d: seq<real>)
    requires Coefficients(a, b, c, d)
    ensures CoefficientsSized(a, b, c, d)
  {
  }

  lemma {:induction false} StrictlyBefore(baseIndex: seq<real>, k: int)
    requires Spaced(baseIndex) && Sorted(baseIndex) && 0 < k < |baseIndex|
    ensures forall j :: 0 <= j < k ==> baseIndex[j] < baseIndex[k]
    ensures forall j :: 0 <= j < k - 1 ==> baseIndex[j] < baseIndex[k - 1]
  {
    assert baseIndex[k] - baseIndex[k - 1] >= EPSILON;
    if k > 1 { StrictlyBefore(baseIndex, k - 1); }
  }

  lemma ShareWithin(t: real, w: real)
    requires 0.0 <= t <= w && w > 0.0
    ensures 0.0 <= t / w <= 1.0
  {
    DivMono(0.0, t, w);
    DivMono(t, w, w);
    Quotient(w, w, 1.0);
    Quotient(0.0, w, 0.0);
  }

  lemma OnPieces(baseIndex: seq<real>, returnIndex: seq<real>, a: seq<real>, b: seq<real>, c: seq<real>, d: seq<real>)
    requires Coefficients(a, b, c, d) && |baseIndex| == |a| && Sorted(baseIndex) && Spaced(baseIndex)
    ensures forall m, k | 0 <= m < |returnIndex| && 0 < k < |baseIndex|
                          && baseIndex[k - 1] <= returnIndex[m] <= baseIndex[k] ::
      && InRange(baseIndex, returnIndex[m]) && baseIndex[k] - baseIndex[k - 1] > 0.0
      && Evaluate(a, b, c, d, Position(baseIndex, returnIndex[m])) ==
         Piece(a, b, c, d, k - 1, (returnIndex[m] - baseIndex[k - 1]) / (baseIndex[k] - baseIndex[k - 1]))
  {
    hide Evaluate, Piece, Position;
    forall m, k | 0 <= m < |returnIndex| && 0 < k < |baseIndex| && baseIndex[k - 1] <= returnIndex[m] <= baseIndex[k]
      ensures && InRange(baseIndex, returnIndex[m]) && baseIndex[k] - baseIndex[k - 1] > 0.0
        && Evaluate(a, b, c, d, Position(baseIndex, returnIndex[m])) ==
           Piece(a, b, c, d, k - 1, (returnIndex[m] - baseIndex[k - 1]) / (baseIndex[k] - baseIndex[k - 1]))
    {
      OnPiece(baseIndex, returnIndex[m], a, b, c, d, k);
    }
  }

  /** Knots an epsilon apart or more. */
  lemma SpacedExact(baseIndex: seq<real>)
    ensures Spaced(baseIndex) <==>
            forall i :: 0 < i < |baseIndex| ==> baseIndex[i] - baseIndex[i - 1] >= 1.0 / 4503599627370496.0
  {
  }

  /** Strictly between two knots the query is placed by its distances to both, over no less than the epsilon. */
  lemma LocatedExact(baseIndex: seq<real>, returnIndex: seq<real>, m: int, k: int)
    requires Sorted(baseIndex) && 0 <= m < |returnIndex| && 0 < k < |baseIndex|
    requires forall j :: 0 <= j < |returnIndex| ==> InRange(baseIndex, returnIndex[j])
    requires baseIndex[k - 1] < returnIndex[m] < baseIndex[k]
    ensures var q, w := returnIndex[m], baseIndex[k] - baseIndex[k - 1];
      Located(baseIndex, returnIndex, m) * (if w >= 1.0 / 4503599627370496.0 then w else 1.0 / 4503599627370496.0)
      == (q - baseIndex[k - 1]) * k as real + (baseIndex[k] - q) * (k as real - 1.0)
  {
    var q := returnIndex[m];
    var i := Standing(baseIndex, returnIndex, m);
    LeastKnotUnique(baseIndex, q, k, LeastIndex(baseIndex, q));
    assert baseIndex[i] != q;
  }

  /** Affine data on knots at equal distances are reproduced: every piece is the same line. */
  lemma AffineReproduced(baseIndex: seq<real>, a: seq<real>, b: seq<real>, c: seq<real>, d: seq<real>,
      slope: real, offset: real, h: real, k: int, t: real)
    requires Coefficients(a, b, c, d) && |baseIndex| == |a| && 0 < k < |a|
    requires forall i :: 0 < i < |a| ==> baseIndex[i] - baseIndex[i - 1] == h
    requires forall i :: 0 <= i < |a| ==> a[i] == slope * baseIndex[i] + offset
    ensures |a| == |b| == |c| == |d|
    ensures Piece(a, b, c, d, k - 1, t) == slope * (baseIndex[k - 1] + t * h) + offset
  {
    hide Coefficients, Piece;
    var rise, i := slope * h, k - 1;
    forall j | 0 < j < |a| ensures a[j] - a[j - 1] == rise { Rises(slope, offset, baseIndex[j - 1], baseIndex[j], h); }
    StraightPieces(a, b, c, d, rise, k);
    LinePiece(a, b, c, d, i, t, rise);
    OnLine(slope, offset, baseIndex[i], t, h, rise);
  }

  lemma Rises(slope: real, offset: real, x: real, y: real, h: real)
    requires y - x == h
    ensures (slope * y + offset) - (slope * x + offset) == slope * h
  {
    assert slope * y - slope * x == slope * (y - x);
  }

  lemma OnLine(slope: real, offset: real, x: real, t: real, h: real, rise: real)
    requires rise == slope * h
    ensures slope * x + offset + rise * t == slope * (x + t * h) + offset
  {
    assert slope * (t * h) == (slope * h) * t;
  }

  lemma LinePiece(a: seq<real>, b: seq<real>, c: seq<real>, d: seq<real>, i: int, t: real, rise: real)
    requires 0 <= i < |a| == |b| == |c| == |d| && b[i] == rise && c[i] == 0.0 && d[i] == 0.0
    ensures Piece(a, b, c, d, i, t) == a[i] + rise * t
  {
    assert (c[i] + d[i] * t) * t == 0.0;
  }

  lemma StraightPieces(a: seq<real>, b: seq<real>, c: seq<real>, d: seq<real>, rise: real, k: int)
    requires Coefficients(a, b, c, d) && 0 < k < |a|
    requires forall i :: 0 < i < |a| ==> a[i] - a[i - 1] == rise
    ensures |a| == |b| == |c| == |d| && b[k - 1] == rise && c[k - 1] == 0.0 && d[k - 1] == 0.0
  {
    var zeros := seq(|a|, i => 0.0);
    forall i | 0 < i < |a| - 1 ensures Curvature(a, i) == 0.0 { assert a[i + 1] - a[i] == a[i] - a[i - 1]; }
    assert Solves(a, zeros);
    SolutionUnique(a, c, zeros);
    var i := k - 1;
    assert c[i] == zeros[i] == 0.0 && c[i + 1] == zeros[i + 1] == 0.0;
    assert d[i] == (c[i + 1] - c[i]) / 3.0 && b[i] == a[i + 1] - a[i] - c[i] - d[i];
  }

  lemma Reciprocal(q: real, r: real)
    requires q >= 3.0 && r * q == 1.0
    ensures 0.0 <= r <= 1.0 / 3.0
  {
    MulSign(q, r);
    assert q * (1.0 / 3.0 - r) >= 0.0;
    MulSign(q, 1.0 / 3.0 - r);
  }

  /** The sweep never divides by less than 3. */
  lemma Divisor(x: seq<real>, c: seq<real>, w: seq<real>, i: int)
    requires 0 < i < |x| - 1 && Swept(x, c, w, i)
    ensures |w| == i && |c| == |x| && 4.0 - w[i - 1] >= 3.0
  {
    if i > 1 { assert SweptRow(w[i - 2], w[i - 1], c[i - 2], c[i - 1], Curvature(x, i - 1)); }
  }

  lemma NewRow(w0: real, c0: real, r: real, tmp: real, value: real)
    requires 4.0 - w0 >= 3.0 && tmp == 1.0 / (4.0 - w0) && value == (r - c0) * tmp
    ensures SweptRow(w0, tmp, c0, value, r)
  {
    var q := 4.0 - w0;
    assert tmp * q == 1.0;
    Reciprocal(q, tmp);
    Associate(r - c0, tmp, q);
  }

  /** One step of the forward sweep. */
  lemma SweepStep(x: seq<real>, c: seq<real>, w: seq<real>, i: int, tmp: real, value: real)
    requires 0 < i < |x| - 1 && Swept(x, c, w, i) && 4.0 - w[i - 1] >= 3.0
    requires tmp == 1.0 / (4.0 - w[i - 1]) && value == (c[i] - c[i - 1]) * tmp
    ensures Swept(x, c[i := value], w + [tmp], i + 1)
  {
    hide SweptRow, Curvature;
    NewRow(w[i - 1], c[i - 1], c[i], tmp, value);
    var c', w' := c[i := value], w + [tmp];
    forall k | 0 < k < i + 1 ensures SweptRow(w'[k - 1], w'[k], c'[k - 1], c'[k], Curvature(x, k)) {
      if k < i { assert SweptRow(w[k - 1], w[k], c[k - 1], c[k], Curvature(x, k)); }
    }
  }

  lemma Associate(r: real, t: real, q: real)
    requires t * q == 1.0
    ensures (r * t) * q == r
  {
    assert (r * t) * q == r * (t * q);
  }

  function Back(c: real, above: real, w: real): real {
    c - above * w
  }

  /** Entries above i have been substituted, those up to i are as the forward sweep left them. */
  ghost predicate BackSubstituted(x: seq<real>, swept: seq<real>, c: seq<real>, w: seq<real>, i: int) {
    && 0 <= i <= |x| - 2 && Swept(x, swept, w, |x| - 1)
    && |c| == |x| == |w| + 1 == |swept| && c[|x| - 1] == 0.0
    && (forall k :: 0 <= k <= i ==> c[k] == swept[k])
    && (forall k :: i < k < |x| - 1 ==> c[k] == Back(swept[k], c[k + 1], w[k]))
  }

  lemma BackStart(x: seq<real>, c: seq<real>, w: seq<real>)
    requires |x| >= 2 && Swept(x, c, w, |x| - 1)
    ensures BackSubstituted(x, c, c, w, |x| - 2)
  {
  }

  lemma BackStep(x: seq<real>, swept: seq<real>, c: seq<real>, w: seq<real>, i: int)
    requires BackSubstituted(x, swept, c, w, i) && i > 0
    ensures BackSubstituted(x, swept, c[i := c[i] - c[i + 1] * w[i]], w, i - 1)
  {
    hide Swept, Back;
    assert c[i] - c[i + 1] * w[i] == Back(c[i], c[i + 1], w[i]) by { BackIs(c[i], c[i + 1], w[i]); }
  }

  lemma BackIs(c: real, above: real, w: real)
    ensures Back(c, above, w) == c - above * w
  {
  }

  lemma BackDone(x: seq<real>, swept: seq<real>, c: seq<real>, w: seq<real>)
    requires BackSubstituted(x, swept, c, w, 0)
    ensures Solves(x, c)
  {
    hide SweptRow, Curvature, Back;
    forall i | 0 < i < |x| - 1 ensures c[i - 1] + 4.0 * c[i] + c[i + 1] == Curvature(x, i) {
      assert SweptRow(w[i - 1], w[i], swept[i - 1], swept[i], Curvature(x, i));
      assert c[i] == Back(swept[i], c[i + 1], w[i]);
      if i == 1 { BackZero(c[1]); }
      EliminateRow(c[i - 1], c[i], c[i + 1], swept[i - 1], swept[i], w[i - 1], w[i], Curvature(x, i));
    }
  }

  lemma BackZero(above: real)
    ensures Back(0.0, above, 0.0) == 0.0
  {
  }

  lemma EliminateRow(below: real, ci: real, above: real, s0: real, s1: real, w0: real, w1: real, r: real)
    requires SweptRow(w0, w1, s0, s1, r)
    requires ci == Back(s1, above, w1) && below == Back(s0, ci, w0)
    ensures below + 4.0 * ci + above == r
  {
    var q := 4.0 - w0;
    Associate(above, w1, q);
    assert ci * q == s1 * q - (above * w1) * q;
    assert ci * q == 4.0 * ci - ci * w0;
  }
}
