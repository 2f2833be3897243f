/** Linear interpolation in one pass over sorted queries. */
module Interpolation {
  import opened Reals

  ghost predicate Sorted(x: seq<real>) {
    forall i, j :: 0 <= i < j < |x| ==> x[i] <= x[j]
  }

  ghost predicate ValidInput(baseIndex: seq<real>, baseValue: seq<real>, returnIndex: seq<real>) {
    && |baseIndex| > 0 && |baseValue| > 0 && |returnIndex| > 0
    && Sorted(baseIndex) && Sorted(returnIndex)
    && baseIndex[0] <= returnIndex[0]
    && returnIndex[|returnIndex| - 1] <= baseIndex[|baseIndex| - 1]
    && |baseIndex| == |baseValue|
  }

  method IsIncrease(x: seq<real>) returns (ok: bool)
    requires |x| > 0
    ensures ok <==> Sorted(x)
  {
    for i := 0 to |x| - 1
      invariant forall j, k :: 0 <= j < k <= i ==> x[j] <= x[k]
    {
      if x[i] > x[i + 1] { return false; }
    }
    return true;
  }

  method IsValidInput(baseIndex: seq<real>, baseValue: seq<real>, returnIndex: seq<real>) returns (ok: bool)
    ensures ok <==> ValidInput(baseIndex, baseValue, returnIndex)
    ensures ok <==> && baseIndex != [] && returnIndex != [] && |baseIndex| == |baseValue|
                    && (forall i, j :: 0 <= i < j < |baseIndex| ==> baseIndex[i] <= baseIndex[j])
                    && (forall i, j :: 0 <= i < j < |returnIndex| ==> returnIndex[i] <= returnIndex[j])
                    && baseIndex[0] <= returnIndex[0]
                    && returnIndex[|returnIndex| - 1] <= baseIndex[|baseIndex| - 1]
  {
    if baseIndex == [] || baseValue == [] || returnIndex == [] { return false; }
    var increasing := IsIncrease(baseIndex);
    if !increasing { return false; }
    increasing := IsIncrease(returnIndex);
    if !increasing { return false; }
    if returnIndex[0] < baseIndex[0] { return false; }
    if baseIndex[|baseIndex| - 1] < returnIndex[|returnIndex| - 1] { return false; }
    if |baseIndex| != |baseValue| { return false; }
    return true;
  }

  // ---- the search made afresh for one query --------------------------------------------------

  /** k is the least knot at or after the query. */
  ghost predicate LeastKnot(baseIndex: seq<real>, query: real, k: int) {
    0 <= k < |baseIndex| && query <= baseIndex[k] && forall j :: 0 <= j < k ==> baseIndex[j] < query
  }

  ghost predicate InRange(baseIndex: seq<real>, query: real) {
    |baseIndex| > 0 && baseIndex[0] <= query <= baseIndex[|baseIndex| - 1]
  }

  lemma LeastKnotExists(baseIndex: seq<real>, query: real) returns (k: int)
    requires InRange(baseIndex, query)
    ensures LeastKnot(baseIndex, query, k)
  {
    k := 0;
    while baseIndex[k] < query
      invariant 0 <= k < |baseIndex| && forall j :: 0 <= j < k ==> baseIndex[j] < query
      decreases |baseIndex| - k
    {
      k := k + 1;
    }
  }

  lemma LeastKnotUnique(baseIndex: seq<real>, query: real, k: int, m: int)
    requires LeastKnot(baseIndex, query, k) && LeastKnot(baseIndex, query, m)
    ensures k == m
  {
  }

  /** The line through the query's bracketing knots. */
  ghost function OnSegment(baseIndex: seq<real>, baseValue: seq<real>, query: real, k: int): real
    requires LeastKnot(baseIndex, query, k) && |baseValue| == |baseIndex|
  {
    if k == 0 then baseValue[0]
    else
      ((query - baseIndex[k - 1]) * baseValue[k] + (baseIndex[k] - query) * baseValue[k - 1])
      / (baseIndex[k] - baseIndex[k - 1])
  }

  ghost function Interpolated(baseIndex: seq<real>, baseValue: seq<real>, query: real): real
    requires InRange(baseIndex, query) && |baseValue| == |baseIndex|
  {
    LeastKnotExists_(baseIndex, query);
    var k :| LeastKnot(baseIndex, query, k);
    OnSegment(baseIndex, baseValue, query, k)
  }

  lemma LeastKnotExists_(baseIndex: seq<real>, query: real)
    requires InRange(baseIndex, query)
    ensures exists k :: LeastKnot(baseIndex, query, k)
  {
    var k := LeastKnotExists(baseIndex, query);
  }

  lemma InterpolatedAt(baseIndex: seq<real>, baseValue: seq<real>, query: real, k: int)
    requires InRange(baseIndex, query) && |baseValue| == |baseIndex|
    requires LeastKnot(baseIndex, query, k)
    ensures Interpolated(baseIndex, baseValue, query) == OnSegment(baseIndex, baseValue, query, k)
  {
    forall m | LeastKnot(baseIndex, query, m) ensures m == k { LeastKnotUnique(baseIndex, query, k, m); }
  }

  // ---- what the interpolation means ----------------------------------------------------------

  /** A weighted mean lies between its two values. */
  lemma Blend(x: real, y: real, s: real, t: real, w: real, z: real)
    requires s >= 0.0 && t >= 0.0 && w == s + t && w > 0.0 && w * z == t * y + s * x
    ensures Min(x, y) <= z <= Max(x, y)
  {
    BlendAbove(x, y, s, t, w, z, Min(x, y));
    BlendBelow(x, y, s, t, w, z, Max(x, y));
  }

  lemma BlendAbove(x: real, y: real, s: real, t: real, w: real, z: real, lo: real)
    requires s >= 0.0 && t >= 0.0 && w == s + t && w > 0.0 && w * z == t * y + s * x
    requires lo <= x && lo <= y
    ensures lo <= z
  {
    MulMono(t, lo, y);
    MulMono(s, lo, x);
    assert w * lo == t * lo + s * lo;
    assert w * (z - lo) >= 0.0;
    MulSign(w, z - lo);
  }

  lemma BlendBelow(x: real, y: real, s: real, t: real, w: real, z: real, hi: real)
    requires s >= 0.0 && t >= 0.0 && w == s + t && w > 0.0 && w * z == t * y + s * x
    requires x <= hi && y <= hi
    ensures z <= hi
  {
    MulMono(t, y, hi);
    MulMono(s, x, hi);
    assert w * hi == t * hi + s * hi;
    assert w * (hi - z) >= 0.0;
    MulSign(w, hi - z);
  }

  /** Every value lies between the base values at its bracketing knots. */
  lemma InterpolatedBetween(baseIndex: seq<real>, baseValue: seq<real>, query: real, k: int)
    requires InRange(baseIndex, query) && |baseValue| == |baseIndex| && LeastKnot(baseIndex, query, k)
    ensures var before := if k == 0 then baseValue[0] else baseValue[k - 1];
            Min(before, baseValue[k]) <= Interpolated(baseIndex, baseValue, query) <= Max(before, baseValue[k])
  {
    InterpolatedAt(baseIndex, baseValue, query, k);
    if k > 0 {
      var t, s := query - baseIndex[k - 1], baseIndex[k] - query;
      var n, z := t * baseValue[k] + s * baseValue[k - 1], OnSegment(baseIndex, baseValue, query, k);
      assert s + t == baseIndex[k] - baseIndex[k - 1] && z == n / (baseIndex[k] - baseIndex[k - 1]);
      Blend(baseValue[k - 1], baseValue[k], s, t, baseIndex[k] - baseIndex[k - 1], z);
    }
  }

  /** Between two knots the value lies on the line through them: the slopes to both sides agree. */
  lemma InterpolatedExact(baseIndex: seq<real>, baseValue: seq<real>, query: real, k: int)
    requires |baseValue| == |baseIndex| && Sorted(baseIndex) && 0 < k < |baseIndex|
    requires baseIndex[k - 1] < query <= baseIndex[k]
    ensures InRange(baseIndex, query)
    ensures Interpolated(baseIndex, baseValue, query) * (baseIndex[k] - baseIndex[k - 1])
            == (query - baseIndex[k - 1]) * baseValue[k] + (baseIndex[k] - query) * baseValue[k - 1]
  {
    InterpolatedAt(baseIndex, baseValue, query, k);
  }

  /** A query at a knot returns the base value of the first of the knots that coincide with it. */
  lemma InterpolatedAtKnot(baseIndex: seq<real>, baseValue: seq<real>, k: int)
    requires |baseValue| == |baseIndex| && Sorted(baseIndex) && 0 <= k < |baseIndex|
    requires forall j :: 0 <= j < k ==> baseIndex[j] < baseIndex[k]
    ensures Interpolated(baseIndex, baseValue, baseIndex[k]) == baseValue[k]
  {
    InterpolatedAt(baseIndex, baseValue, baseIndex[k], k);
    if k > 0 {
      var w := baseIndex[k] - baseIndex[k - 1];
      CancelLeft(w, baseValue[k]);
    }
  }

  /** Affine data are reproduced exactly. */
  lemma InterpolatedAffine(baseIndex: seq<real>, baseValue: seq<real>, query: real, slope: real, offset: real)
    requires InRange(baseIndex, query) && |baseValue| == |baseIndex|
    requires forall i :: 0 <= i < |baseIndex| ==> baseValue[i] == slope * baseIndex[i] + offset
    ensures Interpolated(baseIndex, baseValue, query) == slope * query + offset
  {
    var k := LeastKnotExists(baseIndex, query);
    InterpolatedAt(baseIndex, baseValue, query, k);
    if k == 0 {
      assert query == baseIndex[0];
    } else {
      var x, y, w := baseIndex[k - 1], baseIndex[k], baseIndex[k] - baseIndex[k - 1];
      assert baseValue[k] == slope * y + offset && baseValue[k - 1] == slope * x + offset;
      assert (query - x) * (slope * y + offset) + (y - query) * (slope * x + offset) == w * (slope * query + offset);
      assert OnSegment(baseIndex, baseValue, query, k) == (w * (slope * query + offset)) / w;
      CancelLeft(w, slope * query + offset);
    }
  }

  // ---- the single pass -------------------------------------------------------------------------

  ghost function InterpolatedAll(baseIndex: seq<real>, baseValue: seq<real>, queries: seq<real>): (values: seq<real>)
    requires |baseValue| == |baseIndex| && forall m :: 0 <= m < |queries| ==> InRange(baseIndex, queries[m])
    ensures |values| == |queries|
  {
    seq(|queries|, m requires 0 <= m < |queries| => Interpolated(baseIndex, baseValue, queries[m]))
  }

  lemma QueriesInRange(baseIndex: seq<real>, baseValue: seq<real>, returnIndex: seq<real>)
    requires ValidInput(baseIndex, baseValue, returnIndex)
    ensures forall m :: 0 <= m < |returnIndex| ==> InRange(baseIndex, returnIndex[m])
  {
  }

  lemma KnotValue(baseIndex: seq<real>, baseValue: seq<real>, query: real, k: int)
    requires LeastKnot(baseIndex, query, k) && |baseValue| == |baseIndex| && baseIndex[k] == query
    ensures OnSegment(baseIndex, baseValue, query, k) == baseValue[k]
  {
    if k > 0 {
      var w := baseIndex[k] - baseIndex[k - 1];
      CancelLeft(w, baseValue[k]);
    }
  }

  lemma Extend(before: seq<real>, expected: seq<real>, m: int, value: real)
    requires 0 <= m < |expected| && value == expected[m]
    ensures (before + expected[..m]) + [value] == before + expected[..m + 1]
  {
  }

  /** Moves the running index on to the least knot at or after the query. */
  method Seek(baseIndex: seq<real>, query: real, from: int) returns (i: int)
    requires InRange(baseIndex, query) && 0 <= from < |baseIndex|
    requires forall j :: 0 <= j < from ==> baseIndex[j] < query
    ensures from <= i && LeastKnot(baseIndex, query, i)
  {
    i := from;
    while baseIndex[i] < query
      invariant from <= i < |baseIndex|
      invariant forall j :: 0 <= j < i ==> baseIndex[j] < query
      decreases |baseIndex| - i
    {
      i := i + 1;
      if i <= 0 || |baseIndex| - 1 < i { break; }
    }
  }

  /**
   * Appends one value per query, each the one a fresh search would give; the branch that skips a
   * query is never taken.
   */
  method LinearInterpolate(baseIndex: seq<real>, baseValue: seq<real>, returnIndex: seq<real>, returnValue: seq<real>)
    returns (ok: bool, values: seq<real>)
    ensures ok <==> ValidInput(baseIndex, baseValue, returnIndex)
    ensures !ok ==> values == returnValue
    ensures ok ==> forall m :: 0 <= m < |returnIndex| ==> InRange(baseIndex, returnIndex[m])
    ensures ok ==> values == returnValue + InterpolatedAll(baseIndex, baseValue, returnIndex)
  {
    hide Interpolated;
    values := returnValue;
    ok := IsValidInput(baseIndex, baseValue, returnIndex);
    if !ok { return; }
    QueriesInRange(baseIndex, baseValue, returnIndex);
    ghost var expected := InterpolatedAll(baseIndex, baseValue, returnIndex);
    var i := 0;
    for m := 0 to |returnIndex|
      invariant 0 <= i < |baseIndex|
      invariant m < |returnIndex| ==> forall j :: 0 <= j < i ==> baseIndex[j] < returnIndex[m]
      invariant values == returnValue + expected[..m]
    {
      var idx := returnIndex[m];
      if baseIndex[i] == idx {
        KnotValue(baseIndex, baseValue, idx, i);
        InterpolatedAt(baseIndex, baseValue, idx, i);
        Extend(returnValue, expected, m, baseValue[i]);
        values := values + [baseValue[i]];
        continue;
      }
      i := Seek(baseIndex, idx, i);
      if i <= 0 || |baseIndex| - 1 < i {
        // the source skips the query here
        assert false;
      }
      var distBaseIdx := baseIndex[i] - baseIndex[i - 1];
      var distToForward := baseIndex[i] - idx;
      var distToBackward := idx - baseIndex[i - 1];
      var value := (distToBackward * baseValue[i] + distToForward * baseValue[i - 1]) / distBaseIdx;
      InterpolatedAt(baseIndex, baseValue, idx, i);
      Extend(returnValue, expected, m, value);
      values := values + [value];
    }
    assert expected[..|returnIndex|] == expected;
  }

  /** The overload for a single query. */
  method LinearInterpolateOne(baseIndex: seq<real>, baseValue: seq<real>, returnIndex: real, previous: real)
    returns (ok: bool, value: real)
    ensures ok <==> ValidInput(baseIndex, baseValue, [returnIndex])
    ensures ok ==> InRange(baseIndex, returnIndex) && value == Interpolated(baseIndex, baseValue, returnIndex)
    ensures !ok ==> value == previous
  {
    var values;
    ok, values := LinearInterpolate(baseIndex, baseValue, [returnIndex], []);
    value := if ok then values[0] else previous;
  }
}
