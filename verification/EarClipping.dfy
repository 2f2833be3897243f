/** Triangulation of a polygon by clipping ears off a cyclic vertex list. */
module EarClipping {
  import opened Reals

  datatype Point = Point(x: real, y: real)

  datatype Triangle = Triangle(p0: Point, p1: Point, p2: Point)

  function Prev(i: int, n: int): int { if i == 0 then n - 1 else i - 1 }

  function Next(i: int, n: int): int { if i < n - 1 then i + 1 else 0 }

  /** Is the turn at o, from a to b, at most a half turn? */
  predicate IsAcuteAngle(a: Point, o: Point, b: Point) {
    (a.x - o.x) * (b.y - o.y) - (a.y - o.y) * (b.x - o.x) >= 0.0
  }

  predicate IsWithinTriangle(a: Point, b: Point, c: Point, p: Point) {
    var c1 := (b.x - a.x) * (p.y - b.y) - (b.y - a.y) * (p.x - b.x);
    var c2 := (c.x - b.x) * (p.y - c.y) - (c.y - b.y) * (p.x - c.x);
    var c3 := (a.x - c.x) * (p.y - a.y) - (a.y - c.y) * (p.x - a.x);
    (c1 > 0.0 && c2 > 0.0 && c3 > 0.0) || (c1 < 0.0 && c2 < 0.0 && c3 < 0.0)
  }

  method AdjacentPoints(i: nat, poly: seq<Point>) returns (p0: Point, p1: Point, p2: Point)
    requires i < |poly|
    ensures Triangle(p0, p1, p2) == Corner(poly, i)
  {
    var N := |poly|;
    p1 := poly[i];
    if i == 0 { p0 := poly[N - 1]; } else { p0 := poly[i - 1]; }
    if i < N - 1 { p2 := poly[i + 1]; } else { p2 := poly[0]; }
  }

  /** Vertex i between its cyclic neighbours. */
  function Corner(poly: seq<Point>, i: int): Triangle
    requires 0 <= i < |poly|
  {
    Triangle(poly[Prev(i, |poly|)], poly[i], poly[Next(i, |poly|)])
  }

  predicate Acute(t: Triangle) { IsAcuteAngle(t.p0, t.p1, t.p2) }

  predicate Inside(t: Triangle, p: Point) { IsWithinTriangle(t.p0, t.p1, t.p2, p) }

  // ---- areas -----------------------------------------------------------------------------------

  function Wedge(p: Point, q: Point): real { p.x * q.y - q.x * p.y }

  /** Twice the signed area of a triangle. */
  function Area2(t: Triangle): real { Wedge(t.p0, t.p1) + Wedge(t.p1, t.p2) + Wedge(t.p2, t.p0) }

  function Edges(poly: seq<Point>): real {
    if |poly| <= 1 then 0.0 else Edges(poly[..|poly| - 1]) + Wedge(poly[|poly| - 2], poly[|poly| - 1])
  }

  /** The shoelace formula: twice the signed area of the polygon. */
  function Shoelace(poly: seq<Point>): real {
    if |poly| == 0 then 0.0 else Edges(poly) + Wedge(poly[|poly| - 1], poly[0])
  }

  function AreaSum(ts: seq<Triangle>): real {
    if ts == [] then 0.0 else Area2(ts[0]) + AreaSum(ts[1..])
  }

  function AbsoluteSum(ts: seq<Triangle>): real {
    if ts == [] then 0.0 else Abs(Area2(ts[0])) + AbsoluteSum(ts[1..])
  }

  lemma WedgeTurns(p: Point, q: Point)
    ensures Wedge(p, q) == -Wedge(q, p) && Wedge(p, p) == 0.0
  {
  }

  /** An acute corner turns clockwise, so it never has positive area. */
  lemma AcuteArea(t: Triangle)
    ensures Acute(t) <==> Area2(t) <= 0.0
  {
    var a, o, b := t.p0, t.p1, t.p2;
    assert (a.x - o.x) * (b.y - o.y) - (a.y - o.y) * (b.x - o.x) == -Area2(t);
  }

  lemma {:induction false} EdgesConcat(a: seq<Point>, b: seq<Point>)
    requires |a| > 0 && |b| > 0
    ensures Edges(a + b) == Edges(a) + Wedge(a[|a| - 1], b[0]) + Edges(b)
    decreases |b|
  {
    var last := |b| - 1;
    if last == 0 {
      assert (a + b)[..|a + b| - 1] == a;
    } else {
      EdgesConcat(a, b[..last]);
      assert (a + b)[..|a + b| - 1] == a + b[..last];
    }
  }

  function Without<T>(s: seq<T>, i: int): (r: seq<T>)
    requires 0 <= i < |s|
    ensures |r| == |s| - 1
    ensures forall k :: 0 <= k < |r| ==> r[k] == s[if k < i then k else k + 1]
  {
    s[..i] + s[i + 1..]
  }

  lemma OneEdge(p: Point)
    ensures Edges([p]) == 0.0
  {
  }

  lemma ClipMiddle(a: seq<Point>, v: Point, b: seq<Point>)
    requires |a| > 0 && |b| > 0
    ensures Shoelace(a + [v] + b) == Area2(Triangle(a[|a| - 1], v, b[0])) + Shoelace(a + b)
  {
    hide Wedge, Edges;
    OneEdge(v);
    EdgesConcat(a, [v]);
    EdgesConcat(a + [v], b);
    EdgesConcat(a, b);
    WedgeTurns(b[0], a[|a| - 1]);
  }

  lemma ClipFirst(v: Point, b: seq<Point>)
    requires |b| > 0
    ensures Shoelace([v] + b) == Area2(Triangle(b[|b| - 1], v, b[0])) + Shoelace(b)
  {
    hide Wedge, Edges;
    OneEdge(v);
    EdgesConcat([v], b);
    WedgeTurns(b[0], b[|b| - 1]);
  }

  lemma ClipLast(a: seq<Point>, v: Point)
    requires |a| > 0
    ensures Shoelace(a + [v]) == Area2(Triangle(a[|a| - 1], v, a[0])) + Shoelace(a)
  {
    hide Wedge, Edges;
    OneEdge(v);
    EdgesConcat(a, [v]);
    WedgeTurns(a[0], a[|a| - 1]);
  }

  /** Clipping a vertex takes exactly its corner's signed area off the polygon. */
  lemma ClipArea(poly: seq<Point>, i: int)
    requires 0 <= i < |poly| && |poly| >= 3
    ensures Shoelace(poly) == Area2(Corner(poly, i)) + Shoelace(Without(poly, i))
  {
    hide Shoelace, Area2;
    var a, v, b := poly[..i], poly[i], poly[i + 1..];
    var rest := Without(poly, i);
    if a == [] {
      assert poly == [v] + b && rest == b;
      ClipFirst(v, b);
    } else if b == [] {
      assert poly == a + [v] && rest == a;
      ClipLast(a, v);
    } else {
      assert poly == a + [v] + b && rest == a + b;
      ClipMiddle(a, v, b);
    }
  }

  // ---- ears ------------------------------------------------------------------------------------

  /** Vertex i is acute and its corner holds no other vertex. */
  predicate IsEar(poly: seq<Point>, i: int)
    requires 0 <= i < |poly|
  {
    && Acute(Corner(poly, i))
    && forall m :: 0 <= m < |poly| && m != i && m != Prev(i, |poly|) && m != Next(i, |poly|) ==>
        !Inside(Corner(poly, i), poly[m])
  }

  // ---- what the inside of a corner is ------------------------------------------------------------

  /** p mixes a, b and c with positive weights. */
  ghost predicate PositiveMix(a: Point, b: Point, c: Point, p: Point, u: real, v: real, w: real) {
    && u > 0.0 && v > 0.0 && w > 0.0 && u + v + w == 1.0
    && p.x == u * a.x + v * b.x + w * c.x && p.y == u * a.y + v * b.y + w * c.y
  }

  /** Twice the signed area of the triangle a, b, p, as the code works it out. */
  function Side(a: Point, b: Point, p: Point): real { (b.x - a.x) * (p.y - b.y) - (b.y - a.y) * (p.x - b.x) }

  lemma SideExact(a: Point, b: Point, p: Point)
    ensures Side(a, b, p) == (b.x - a.x) * (p.y - b.y) - (b.y - a.y) * (p.x - b.x)
  {
  }

  /** The three sides seen from p add up to the triangle. */
  lemma SidesAdd(a: Point, b: Point, c: Point, p: Point)
    ensures Side(a, b, p) + Side(b, c, p) + Side(c, a, p) == Side(a, b, c)
  {
  }

  /** Each coordinate of p, scaled by the triangle, is mixed by the sides opposite the corners. */
  lemma SidesMix(a: Point, b: Point, c: Point, p: Point)
    ensures Side(b, c, p) * a.x + Side(c, a, p) * b.x + Side(a, b, p) * c.x == Side(a, b, c) * p.x
    ensures Side(b, c, p) * a.y + Side(c, a, p) * b.y + Side(a, b, p) * c.y == Side(a, b, c) * p.y
  {
  }

  /** The side of a mix from an edge is the third corner's share of the triangle. */
  lemma MixSide(a: Point, b: Point, c: Point, p: Point, u: real, v: real, w: real)
    requires u + v + w == 1.0
    requires p.x == u * a.x + v * b.x + w * c.x && p.y == u * a.y + v * b.y + w * c.y
    ensures Side(a, b, p) == w * Side(a, b, c)
  {
    var dx, dy, ex, ey := b.x - a.x, b.y - a.y, c.x - b.x, c.y - b.y;
    assert p.x - b.x == w * ex - u * dx;
    assert p.y - b.y == w * ey - u * dy;
    assert dx * (w * ey - u * dy) - dy * (w * ex - u * dx) == w * (dx * ey - dy * ex);
  }

  /** A point inside is a positive mix of the corners, of a triangle that has an area. */
  lemma InsideIsMix(a: Point, b: Point, c: Point, p: Point) returns (u: real, v: real, w: real)
    requires IsWithinTriangle(a, b, c, p)
    ensures u > 0.0 && v > 0.0 && w > 0.0 && u + v + w == 1.0
    ensures p.x == u * a.x + v * b.x + w * c.x && p.y == u * a.y + v * b.y + w * c.y
    ensures (b.x - a.x) * (c.y - b.y) - (b.y - a.y) * (c.x - b.x) != 0.0
  {
    hide Side, IsWithinTriangle;
    WithinBySides(a, b, c, p);
    var c1, c2, c3, d := Side(a, b, p), Side(b, c, p), Side(c, a, p), Side(a, b, c);
    SidesAdd(a, b, c, p);
    SidesMix(a, b, c, p);
    SideExact(a, b, c);
    u, v, w := c2 / d, c3 / d, c1 / d;
    Shares(c2, c3, c1, d, u, v, w, a.x, b.x, c.x, p.x);
    Shares(c2, c3, c1, d, u, v, w, a.y, b.y, c.y, p.y);
  }

  lemma Shares(n1: real, n2: real, n3: real, d: real, u: real, v: real, w: real, x: real, y: real, z: real, r: real)
    requires d == n1 + n2 + n3 && ((n1 > 0.0 && n2 > 0.0 && n3 > 0.0) || (n1 < 0.0 && n2 < 0.0 && n3 < 0.0))
    requires u == n1 / d && v == n2 / d && w == n3 / d && n1 * x + n2 * y + n3 * z == d * r
    ensures u > 0.0 && v > 0.0 && w > 0.0 && u + v + w == 1.0 && r == u * x + v * y + w * z
  {
    SharePositive(n1, d, u);
    SharePositive(n2, d, v);
    SharePositive(n3, d, w);
    WholeShares(n1, n2, n3, d, d, u, v, w);
    var mix := u * x + v * y + w * z;
    assert mix * d == (u * d) * x + (v * d) * y + (w * d) * z;
    assert (u * d) * x == n1 * x && (v * d) * y == n2 * y && (w * d) * z == n3 * z;
    assert mix * d == d * r;
    Quotient(d * r, d, r);
    Quotient(d * r, d, mix);
  }

  lemma WholeShares(n1: real, n2: real, n3: real, t: real, d: real, u: real, v: real, w: real)
    requires u * d == n1 && v * d == n2 && w * d == n3 && t == n1 + n2 + n3 && d != 0.0
    ensures u + v + w == t / d && (t == d ==> u + v + w == 1.0)
  {
    assert (u + v + w) * d == u * d + v * d + w * d;
    Quotient(t, d, u + v + w);
    Quotient(d, d, 1.0);
  }

  lemma SharePositive(n: real, d: real, u: real)
    requires (n > 0.0 && d > 0.0) || (n < 0.0 && d < 0.0)
    requires u == n / d
    ensures u > 0.0 && u * d == n
  {
    assert u * d == n;
    if u <= 0.0 {
      if d > 0.0 { MulMono(d, u, 0.0); } else { MulMono(-d, u, 0.0); }
    }
  }

  lemma SideTurns(a: Point, b: Point, c: Point)
    ensures Side(a, b, c) == Side(b, c, a) == Side(c, a, b)
  {
  }

  /** And every positive mix of the corners is inside, whichever way the triangle turns. */
  lemma MixIsInside(a: Point, b: Point, c: Point, p: Point, u: real, v: real, w: real)
    requires u > 0.0 && v > 0.0 && w > 0.0 && u + v + w == 1.0
    requires p.x == u * a.x + v * b.x + w * c.x && p.y == u * a.y + v * b.y + w * c.y
    requires (b.x - a.x) * (c.y - b.y) - (b.y - a.y) * (c.x - b.x) != 0.0
    ensures IsWithinTriangle(a, b, c, p)
  {
    var d := Side(a, b, c);
    MixSide(a, b, c, p, u, v, w);
    MixSide(b, c, a, p, v, w, u);
    MixSide(c, a, b, p, w, u, v);
    SideTurns(a, b, c);
    if d > 0.0 {
      MulStrict(u, 0.0, d);
      MulStrict(v, 0.0, d);
      MulStrict(w, 0.0, d);
    } else {
      MulStrict(u, d, 0.0);
      MulStrict(v, d, 0.0);
      MulStrict(w, d, 0.0);
    }
    WithinBySides(a, b, c, p);
  }

  lemma WithinBySides(a: Point, b: Point, c: Point, p: Point)
    ensures IsWithinTriangle(a, b, c, p) <==>
            || (Side(a, b, p) > 0.0 && Side(b, c, p) > 0.0 && Side(c, a, p) > 0.0)
            || (Side(a, b, p) < 0.0 && Side(b, c, p) < 0.0 && Side(c, a, p) < 0.0)
  {
    hide Side;
    SideExact(a, b, p);
    SideExact(b, c, p);
    SideExact(c, a, p);
  }

  /** Inside is the open triangle: exactly the positive mixes of the corners, unless these lie on one line. */
  lemma InsideIff(t: Triangle, p: Point)
    ensures Inside(t, p) <==> Area2(t) != 0.0 && exists u, v, w :: PositiveMix(t.p0, t.p1, t.p2, p, u, v, w)
  {
    hide IsWithinTriangle;
    assert (t.p1.x - t.p0.x) * (t.p2.y - t.p1.y) - (t.p1.y - t.p0.y) * (t.p2.x - t.p1.x) == Area2(t);
    if Inside(t, p) {
      var u, v, w := InsideIsMix(t.p0, t.p1, t.p2, p);
      assert PositiveMix(t.p0, t.p1, t.p2, p, u, v, w);
    }
    if Area2(t) != 0.0 && exists u, v, w :: PositiveMix(t.p0, t.p1, t.p2, p, u, v, w) {
      var u, v, w :| PositiveMix(t.p0, t.p1, t.p2, p, u, v, w);
      MixIsInside(t.p0, t.p1, t.p2, p, u, v, w);
    }
  }

  /** An ear in full: a corner that does not turn left and holds no vertex but its own three. */
  lemma EarExact(poly: seq<Point>, i: nat, o: Point, a: Point, b: Point)
    requires |poly| >= 3 && i < |poly| && o == poly[i]
    requires a == (if i == 0 then poly[|poly| - 1] else poly[i - 1])
    requires b == if i == |poly| - 1 then poly[0] else poly[i + 1]
    ensures IsEar(poly, i) <==>
            && (a.x - o.x) * (b.y - o.y) - (a.y - o.y) * (b.x - o.x) >= 0.0
            && forall m | && 0 <= m < |poly| && (m < i - 1 || i + 1 < m)
                          && (i == 0 ==> m < |poly| - 1) && (i == |poly| - 1 ==> m > 0) ::
                !IsWithinTriangle(a, o, b, poly[m])
  {
    hide IsWithinTriangle;
    assert Corner(poly, i) == Triangle(a, o, b);
  }

  /** No vertex but its own three is a positive mix of the corners of an ear that has an area. */
  lemma EarHoldsNone(poly: seq<Point>, i: nat, m: nat, a: Point, b: Point, u: real, v: real, w: real)
    requires |poly| >= 3 && i < |poly| && IsEar(poly, i)
    requires a == (if i == 0 then poly[|poly| - 1] else poly[i - 1])
    requires b == if i == |poly| - 1 then poly[0] else poly[i + 1]
    requires (poly[i].x - a.x) * (b.y - poly[i].y) - (poly[i].y - a.y) * (b.x - poly[i].x) != 0.0
    requires m < |poly| && (m < i - 1 || i + 1 < m) && (i == 0 ==> m < |poly| - 1) && (i == |poly| - 1 ==> m > 0)
    requires u > 0.0 && v > 0.0 && w > 0.0 && u + v + w == 1.0
    ensures poly[m].x != u * a.x + v * poly[i].x + w * b.x || poly[m].y != u * a.y + v * poly[i].y + w * b.y
  {
    hide IsWithinTriangle;
    EarExact(poly, i, poly[i], a, b);
    if poly[m].x == u * a.x + v * poly[i].x + w * b.x && poly[m].y == u * a.y + v * poly[i].y + w * b.y {
      MixIsInside(a, poly[i], b, poly[m], u, v, w);
    }
  }

  /** The next triangle is the corner of the first ear, or of vertex 0 without one, and the rest is clipped alike. */
  lemma ClippedNext(poly: seq<Point>, ts: seq<Triangle>) returns (i: nat)
    requires |poly| >= 3 && Triangulated(poly, ts)
    ensures i < |poly| && ts != [] && Triangulated(poly[..i] + poly[i + 1..], ts[1..])
    ensures ts[0].p0 == (if i == 0 then poly[|poly| - 1] else poly[i - 1]) && ts[0].p1 == poly[i]
    ensures ts[0].p2 == if i == |poly| - 1 then poly[0] else poly[i + 1]
    ensures forall k :: 0 <= k < i ==> !IsEar(poly, k)
    ensures IsEar(poly, i) || (i == 0 && forall k :: 0 <= k < |poly| ==> !IsEar(poly, k))
  {
    hide IsEar;
    i :| Clips(poly, i) && ts[0] == Corner(poly, i) && Triangulated(Without(poly, i), ts[1..]);
  }

  /** The vertex clipped next: the first ear, or vertex 0 when there is none. */
  ghost predicate Clips(poly: seq<Point>, i: int) {
    && 0 <= i < |poly|
    && if HasEar(poly) then IsEar(poly, i) && forall k :: 0 <= k < i ==> !IsEar(poly, k) else i == 0
  }

  ghost predicate HasEar(poly: seq<Point>) {
    exists i :: 0 <= i < |poly| && IsEar(poly, i)
  }

  /** ts is what clipping poly yields, one corner after the other. */
  ghost predicate Triangulated(poly: seq<Point>, ts: seq<Triangle>)
    decreases |poly|
  {
    if |poly| < 3 then ts == []
    else exists i :: Clips(poly, i) && ts != [] && ts[0] == Corner(poly, i) && Triangulated(Without(poly, i), ts[1..])
  }

  /** An ear is found at every step. */
  ghost predicate EarsThroughout(poly: seq<Point>)
    decreases |poly|
  {
    |poly| < 3 || (HasEar(poly) && exists i :: Clips(poly, i) && EarsThroughout(Without(poly, i)))
  }

  lemma ClipsRange(poly: seq<Point>)
    ensures forall i :: Clips(poly, i) ==> 0 <= i < |poly|
  {
  }

  lemma ClipsUnique(poly: seq<Point>, i: int, k: int)
    requires Clips(poly, i) && Clips(poly, k)
    ensures i == k
  {
  }

  /** Exactly n - 2 triangles, conserving signed area. */
  lemma {:induction false} AreaConserved(poly: seq<Point>, ts: seq<Triangle>)
    requires Triangulated(poly, ts)
    ensures |ts| == if |poly| < 3 then 0 else |poly| - 2
    ensures |poly| >= 3 ==> AreaSum(ts) == Shoelace(poly)
    decreases |poly|
  {
    hide Clips, Area2, Shoelace;
    ClipsRange(poly);
    if |poly| >= 3 {
      var i :| Clips(poly, i) && ts != [] && ts[0] == Corner(poly, i) && Triangulated(Without(poly, i), ts[1..]);
      AreaConserved(Without(poly, i), ts[1..]);
      ClipArea(poly, i);
      if |poly| == 3 { TwoCorners(Without(poly, i)); }
    }
  }

  lemma TwoCorners(poly: seq<Point>)
    requires |poly| == 2
    ensures Shoelace(poly) == 0.0
  {
    assert Edges(poly[..1]) == 0.0;
    WedgeTurns(poly[0], poly[1]);
  }

  lemma WithoutWithin(poly: seq<Point>, i: int)
    requires 0 <= i < |poly|
    ensures forall p :: p in Without(poly, i) ==> p in poly
  {
  }

  /** Every triangle's corners are vertices of the polygon. */
  lemma {:induction false} CornersAreVertices(poly: seq<Point>, ts: seq<Triangle>, t: Triangle)
    requires Triangulated(poly, ts) && t in ts
    ensures t.p0 in poly && t.p1 in poly && t.p2 in poly
    decreases |poly|
  {
    var i :| Clips(poly, i) && ts != [] && ts[0] == Corner(poly, i) && Triangulated(Without(poly, i), ts[1..]);
    if t != ts[0] {
      hide Clips, Corner;
      CornersAreVertices(Without(poly, i), ts[1..], t);
      WithoutWithin(poly, i);
    }
  }

  /** If an ear is found at every step, every triangle turns clockwise. */
  lemma {:induction false} EarsTurnClockwise(poly: seq<Point>, ts: seq<Triangle>)
    requires Triangulated(poly, ts) && EarsThroughout(poly)
    ensures forall t :: t in ts ==> Area2(t) <= 0.0
    decreases |poly|
  {
    if |poly| >= 3 {
      var i :| Clips(poly, i) && ts != [] && ts[0] == Corner(poly, i) && Triangulated(Without(poly, i), ts[1..]);
      var k :| Clips(poly, k) && EarsThroughout(Without(poly, k));
      ClipsUnique(poly, i, k);
      AcuteArea(ts[0]);
      EarsTurnClockwise(Without(poly, i), ts[1..]);
    }
  }

  /** The absolute areas add up to the absolute area exactly when no two triangles turn opposite ways. */
  lemma {:induction false} AbsoluteSumIff(ts: seq<Triangle>)
    ensures Abs(AreaSum(ts)) <= AbsoluteSum(ts)
    ensures AbsoluteSum(ts) == Abs(AreaSum(ts)) <==>
              (forall t :: t in ts ==> Area2(t) <= 0.0) || (forall t :: t in ts ==> Area2(t) >= 0.0)
  {
    if ts != [] {
      AbsoluteSumIff(ts[1..]);
      SignedSum(ts[1..]);
      assert forall t :: t in ts <==> t == ts[0] || t in ts[1..];
    }
  }

  /** Same-signed areas have a sum of that sign, and a zero absolute sum means every area is zero. */
  lemma {:induction false} SignedSum(ts: seq<Triangle>)
    ensures (forall t :: t in ts ==> Area2(t) <= 0.0) ==> AreaSum(ts) <= 0.0
    ensures (forall t :: t in ts ==> Area2(t) >= 0.0) ==> AreaSum(ts) >= 0.0
    ensures AbsoluteSum(ts) >= 0.0
    ensures AbsoluteSum(ts) == 0.0 ==> forall t :: t in ts ==> Area2(t) == 0.0
  {
    if ts != [] {
      SignedSum(ts[1..]);
      assert forall t :: t in ts <==> t == ts[0] || t in ts[1..];
    }
  }

  /** With an ear at every step the absolute areas of the triangles add up to that of the polygon. */
  lemma EarsCoverArea(poly: seq<Point>, ts: seq<Triangle>)
    requires Triangulated(poly, ts) && EarsThroughout(poly) && |poly| >= 3
    ensures AbsoluteSum(ts) == Abs(Shoelace(poly))
  {
    EarsTurnClockwise(poly, ts);
    AbsoluteSumIff(ts);
    AreaConserved(poly, ts);
  }

  // ---- counter-clockwise polygons ----------------------------------------------------------------

  /** Ears at every step add up to a clockwise polygon. */
  lemma {:induction false} EarsMeanClockwise(poly: seq<Point>)
    requires |poly| >= 3 && EarsThroughout(poly)
    ensures Shoelace(poly) <= 0.0
    decreases |poly|
  {
    var i :| Clips(poly, i) && EarsThroughout(Without(poly, i));
    hide Area2, Shoelace;
    ClipArea(poly, i);
    AcuteArea(Corner(poly, i));
    if |poly| == 3 { TwoCorners(Without(poly, i)); } else { EarsMeanClockwise(Without(poly, i)); }
  }

  /** Clipping `start` comes to `poly`. */
  ghost predicate Reaches(start: seq<Point>, poly: seq<Point>)
    decreases |start|
  {
    start == poly || (|start| >= 3 && exists i :: Clips(start, i) && Reaches(Without(start, i), poly))
  }

  /** So on a polygon of positive area some step finds no ear and clips vertex 0, whatever its corner. */
  lemma {:induction false} BlindStep(start: seq<Point>) returns (poly: seq<Point>)
    requires |start| >= 3 && Shoelace(start) > 0.0
    ensures Reaches(start, poly) && |poly| >= 3 && !HasEar(poly) && Clips(poly, 0)
    decreases |start|
  {
    if HasEar(start) {
      var i := FirstEar(start);
      BlindRest(start, i);
      poly := BlindStep(Without(start, i));
      assert Clips(start, i) && Reaches(Without(start, i), poly);
    } else {
      poly := start;
    }
  }

  lemma FirstEar(poly: seq<Point>) returns (i: int)
    requires HasEar(poly)
    ensures Clips(poly, i)
  {
    i := 0;
    while !IsEar(poly, i)
      invariant 0 <= i < |poly| && forall k :: 0 <= k < i ==> !IsEar(poly, k)
      decreases |poly| - i
    {
      i := i + 1;
    }
  }

  /** Clipping an ear takes no area away, so a positive one stays. */
  lemma BlindRest(poly: seq<Point>, i: int)
    requires |poly| >= 3 && Shoelace(poly) > 0.0 && HasEar(poly) && Clips(poly, i)
    ensures Shoelace(Without(poly, i)) > 0.0 && |Without(poly, i)| >= 3
  {
    hide Area2, Shoelace;
    ClipArea(poly, i);
    AcuteArea(Corner(poly, i));
    if |poly| == 3 { TwoCorners(Without(poly, i)); }
  }

  /** A counter-clockwise quadrilateral with its vertex 2 pushed in. */
  function Dart(): seq<Point> {
    [Point(0.0, 0.0), Point(4.0, 0.0), Point(1.0, 1.0), Point(0.0, 4.0)]
  }

  function DartLeft(): seq<Point> {
    [Point(0.0, 0.0), Point(4.0, 0.0), Point(0.0, 4.0)]
  }

  lemma DartCorners()
    ensures Corner(Dart(), 0) == Triangle(Point(0.0, 4.0), Point(0.0, 0.0), Point(4.0, 0.0))
    ensures Corner(Dart(), 1) == Triangle(Point(0.0, 0.0), Point(4.0, 0.0), Point(1.0, 1.0))
    ensures Corner(Dart(), 2) == Triangle(Point(4.0, 0.0), Point(1.0, 1.0), Point(0.0, 4.0))
    ensures Dart()[0] == Point(0.0, 0.0) && Without(Dart(), 2) == DartLeft()
  {
  }

  lemma DartTurns()
    ensures Area2(Triangle(Point(0.0, 4.0), Point(0.0, 0.0), Point(4.0, 0.0))) == 16.0
    ensures Area2(Triangle(Point(0.0, 0.0), Point(4.0, 0.0), Point(1.0, 1.0))) == 4.0
    ensures Area2(Triangle(Point(4.0, 0.0), Point(1.0, 1.0), Point(0.0, 4.0))) == -8.0
  {
    hide Wedge;
    WedgeIs(0.0, 4.0, 0.0, 0.0);
    WedgeIs(0.0, 0.0, 4.0, 0.0);
    WedgeIs(4.0, 0.0, 0.0, 4.0);
    WedgeIs(4.0, 0.0, 1.0, 1.0);
    WedgeIs(1.0, 1.0, 0.0, 0.0);
    WedgeIs(1.0, 1.0, 0.0, 4.0);
    WedgeIs(0.0, 4.0, 4.0, 0.0);
  }

  lemma WedgeIs(a: real, b: real, c: real, d: real)
    ensures Wedge(Point(a, b), Point(c, d)) == a * d - c * b
  {
  }

  lemma DartOutside()
    ensures !Inside(Triangle(Point(4.0, 0.0), Point(1.0, 1.0), Point(0.0, 4.0)), Point(0.0, 0.0))
  {
    Opposite(Point(4.0, 0.0), Point(1.0, 1.0), Point(0.0, 4.0), Point(0.0, 0.0));
  }

  /** A point on opposite sides of the first and the third edge is not inside. */
  lemma Opposite(a: Point, b: Point, c: Point, p: Point)
    requires (b.x - a.x) * (p.y - b.y) - (b.y - a.y) * (p.x - b.x) > 0.0
    requires (a.x - c.x) * (p.y - a.y) - (a.y - c.y) * (p.x - a.x) < 0.0
    ensures !IsWithinTriangle(a, b, c, p)
  {
  }

  /** The only ear found is the vertex pushed in. */
  lemma DartEar()
    ensures IsEar(Dart(), 2) && !IsEar(Dart(), 0) && !IsEar(Dart(), 1)
  {
    hide Area2, Acute, Inside, Corner, Dart;
    DartCorners();
    DartTurns();
    DartOutside();
    AcuteArea(Corner(Dart(), 0));
    AcuteArea(Corner(Dart(), 1));
    AcuteArea(Corner(Dart(), 2));
    assert |Dart()| == 4 by { DartSize(); }
  }

  lemma DartSize()
    ensures |Dart()| == 4 && |DartLeft()| == 3
  {
  }

  /** Every polygon is triangulated. */
  lemma {:induction false} TriangulationExists(poly: seq<Point>) returns (ts: seq<Triangle>)
    ensures Triangulated(poly, ts)
    decreases |poly|
  {
    hide Corner, IsEar;
    if |poly| < 3 {
      ts := [];
    } else {
      var i := 0;
      if HasEar(poly) { i := FirstEar(poly); }
      var rest := TriangulationExists(Without(poly, i));
      ts := [Corner(poly, i)] + rest;
      assert ts[1..] == rest;
      assert Clips(poly, i);
    }
  }

  lemma DartClip(i: int)
    requires Clips(Dart(), i)
    ensures i == 2
  {
    hide IsEar, Dart;
    DartSize();
    DartEar();
    assert Clips(Dart(), 2);
    ClipsUnique(Dart(), i, 2);
  }

  lemma TriangleArea(a: Point, b: Point, c: Point)
    ensures Shoelace([a, b, c]) == Area2(Triangle(a, b, c))
  {
    hide Wedge;
    assert [a, b, c][..2] == [a, b] && [a, b][..1] == [a];
    assert Edges([a, b, c]) == Edges([a, b]) + Wedge(b, c);
    assert Edges([a, b]) == Edges([a]) + Wedge(a, b);
  }

  lemma DartAreas()
    ensures Shoelace(Dart()) == 8.0 && Area2(Corner(Dart(), 2)) == -8.0 && Shoelace(DartLeft()) == 16.0
  {
    hide Shoelace, Area2, Dart;
    DartSize();
    DartCorners();
    DartTurns();
    ClipArea(Dart(), 2);
    TriangleArea(Point(0.0, 0.0), Point(4.0, 0.0), Point(0.0, 4.0));
    assert Area2(Triangle(Point(0.0, 0.0), Point(4.0, 0.0), Point(0.0, 4.0))) == 16.0 by {
      CyclicArea(Point(0.0, 4.0), Point(0.0, 0.0), Point(4.0, 0.0));
    }
  }

  lemma CyclicArea(a: Point, b: Point, c: Point)
    ensures Area2(Triangle(a, b, c)) == Area2(Triangle(b, c, a))
  {
  }

  /** One triangle left has the absolute area of its signed area. */
  lemma OneLeft(ts: seq<Triangle>)
    requires |ts| == 1
    ensures AreaSum(ts) == Area2(ts[0]) && AbsoluteSum(ts) == Abs(AreaSum(ts))
  {
    assert ts[1..] == [];
  }

  /** The vertex pushed in is taken for an ear: the two triangles have three times the polygon's area. */
  lemma DartIsOvercovered(ts: seq<Triangle>)
    requires Triangulated(Dart(), ts)
    ensures Shoelace(Dart()) == 8.0 && AbsoluteSum(ts) == 24.0
  {
    hide Dart, DartLeft, Clips, Area2, Shoelace, Corner, Without;
    DartSize();
    ClipsRange(Dart());
    var i :| Clips(Dart(), i) && ts != [] && ts[0] == Corner(Dart(), i) && Triangulated(Without(Dart(), i), ts[1..]);
    DartClip(i);
    DartCorners();
    DartAreas();
    AreaConserved(DartLeft(), ts[1..]);
    OneLeft(ts[1..]);
  }

  // ---- the cached convexity flags ---------------------------------------------------------------

  ghost predicate FlagsFresh(poly: seq<Point>, flags: seq<bool>) {
    |flags| == |poly| && forall k :: 0 <= k < |poly| ==> flags[k] == Acute(Corner(poly, k))
  }

  /** The vertex whose successor was clipped. */
  function Repaired(poly: seq<Point>, clipped: int): int
    requires |poly| > 0
  {
    if clipped == |poly| then 0 else clipped
  }

  /** Away from the clipped vertex's two neighbours every corner is as it was. */
  lemma CornersKept(poly: seq<Point>, i: int, k: int)
    requires 0 <= i < |poly| && |poly| >= 3 && 0 <= k < |poly| - 1
    requires var c := Repaired(Without(poly, i), i); k != c && k != Prev(c, |poly| - 1)
    ensures Corner(Without(poly, i), k) == Corner(poly, if k < i then k else k + 1)
  {
  }

  // ---- the algorithm ----------------------------------------------------------------------------

  /** k reduced into 0..n, for k below 2 n. */
  function Wrap(k: int, n: int): int { if k < n then k else k - n }

  lemma Scaled(n: int, a: int, b: int)
    ensures n >= 0 && a <= b ==> n * a <= n * b
  {
    if n >= 0 && a <= b { assert n * (b - a) >= 0; }
  }

  lemma ModIsWrap(k: int, n: int)
    requires 0 <= k < 2 * n
    ensures k % n == Wrap(k, n)
  {
    var q, r := k / n, k % n;
    assert k == n * q + r && 0 <= r < n;
    Scaled(n, 2, q);
    Scaled(n, q, -1);
    assert q == 0 || q == 1;
  }

  /** The vertex t steps beyond the successor of vertex i. */
  function Ahead(i: int, t: int, n: int): int { Wrap(i + 2 + t, n) }

  /** The vertices other than i and its neighbours are exactly the n - 3 ones ahead of i. */
  lemma Around(n: int, i: int, m: int)
    requires 3 <= n && 0 <= i < n && 0 <= m < n && m != i && m != Prev(i, n) && m != Next(i, n)
    ensures exists t :: 0 <= t < n - 3 && m == Ahead(i, t, n)
  {
    var t := if m >= i + 2 then m - i - 2 else m + n - i - 2;
    assert 0 <= t < n - 3 && m == Ahead(i, t, n);
  }

  /** Looks for another vertex inside the corner at i, walking the cycle from i + 2 up to i - 1. */
  method CheckEar(poly: seq<Point>, i: nat, p0: Point, p1: Point, p2: Point) returns (isEar: bool)
    requires |poly| >= 3 && i < |poly| && Triangle(p0, p1, p2) == Corner(poly, i) && Acute(Corner(poly, i))
    ensures isEar <==> IsEar(poly, i)
  {
    hide IsWithinTriangle;
    var n := |poly|;
    ModIsWrap(i + 2, n);
    ModIsWrap(i - 1 + n, n);
    var jBegin := (i + 2) % n;
    var jEnd := (i - 1 + n) % n;
    isEar := true;
    var j := jBegin;
    ghost var t := 0;
    while j != jEnd
      invariant 0 <= t <= n - 3 && j == Ahead(i, t, n)
      invariant isEar && forall u :: 0 <= u < t ==> !Inside(Corner(poly, i), poly[Ahead(i, u, n)])
      decreases n - 3 - t
    {
      if IsWithinTriangle(p0, p1, p2, poly[j]) {
        assert j != i && j != Prev(i, n) && j != Next(i, n) && Inside(Corner(poly, i), poly[j]);
        return false;
      }
      ModIsWrap(j + 1, n);
      j := (j + 1) % n;
      t := t + 1;
    }
    assert t == n - 3;
    forall m | 0 <= m < n && m != i && m != Prev(i, n) && m != Next(i, n) ensures !Inside(Corner(poly, i), poly[m]) {
      Around(n, i, m);
    }
  }

  /** The first ear by the cached flags, or 0. */
  method FindClip(poly: seq<Point>, flags: seq<bool>) returns (clipped: nat)
    requires |poly| >= 3 && FlagsFresh(poly, flags)
    ensures Clips(poly, clipped)
  {
    clipped := 0;
    for i := 0 to |poly|
      invariant clipped == 0
      invariant forall k :: 0 <= k < i ==> !IsEar(poly, k)
    {
      if flags[i] {
        var p0, p1, p2 := AdjacentPoints(i, poly);
        var isEar := CheckEar(poly, i, p0, p1, p2);
        if isEar { return i; }
      }
    }
  }

  method InitFlags(poly: seq<Point>) returns (flags: seq<bool>)
    ensures FlagsFresh(poly, flags)
  {
    flags := seq(|poly|, i => false);
    for i := 0 to |poly|
      invariant |flags| == |poly| && forall k :: 0 <= k < i ==> flags[k] == Acute(Corner(poly, k))
    {
      var p0, p1, p2 := AdjacentPoints(i, poly);
      flags := flags[i := IsAcuteAngle(p0, p1, p2)];
    }
  }

  /** Erases a vertex with its flag and recomputes the flags of the two vertices it separated. */
  method EraseVertex(poly: seq<Point>, flags: seq<bool>, at: nat) returns (poly': seq<Point>, flags': seq<bool>)
    requires |poly| >= 3 && at < |poly| && FlagsFresh(poly, flags)
    ensures poly' == Without(poly, at) && FlagsFresh(poly', flags')
  {
    poly' := poly[..at] + poly[at + 1..];
    flags' := flags[..at] + flags[at + 1..];
    assert poly' == Without(poly, at) && flags' == Without(flags, at);
    var n := |poly'|;
    var clipped := at;
    if clipped == n { clipped := 0; }
    var p0, p1, p2 := AdjacentPoints(clipped, poly');
    flags' := flags'[clipped := IsAcuteAngle(p0, p1, p2)];
    var iPrev := if clipped == 0 then n - 1 else clipped - 1;
    p0, p1, p2 := AdjacentPoints(iPrev, poly');
    flags' := flags'[iPrev := IsAcuteAngle(p0, p1, p2)];
    forall k | 0 <= k < n ensures flags'[k] == Acute(Corner(poly', k)) {
      if k != clipped && k != iPrev { CornersKept(poly, at, k); }
    }
  }

  /** Whatever completes poly's clipping, appended to the triangles made so far, triangulates `start`. */
  ghost predicate Completes(start: seq<Point>, poly: seq<Point>, made: seq<Triangle>) {
    forall rest :: Triangulated(poly, rest) ==> Triangulated(start, made + rest)
  }

  lemma ClipCompletes(start: seq<Point>, poly: seq<Point>, made: seq<Triangle>, i: int)
    requires Completes(start, poly, made) && |poly| >= 3 && Clips(poly, i)
    ensures Completes(start, Without(poly, i), made + [Corner(poly, i)])
  {
    forall rest | Triangulated(Without(poly, i), rest) ensures Triangulated(start, made + [Corner(poly, i)] + rest) {
      var ts := [Corner(poly, i)] + rest;
      assert ts[1..] == rest;
      assert Triangulated(poly, ts);
      assert made + ts == made + [Corner(poly, i)] + rest;
    }
  }

  method Polygon2Triangle(polygon: seq<Point>) returns (triangles: seq<Triangle>)
    ensures Triangulated(polygon, triangles)
  {
    hide Clips, IsEar, HasEar, Triangulated;
    triangles := [];
    var poly := polygon;
    var flags := InitFlags(poly);
    CompletesAtStart(polygon);
    while |poly| >= 3
      invariant FlagsFresh(poly, flags)
      invariant Completes(polygon, poly, triangles)
      decreases |poly|
    {
      var clipped := FindClip(poly, flags);
      ClipsRange(poly);
      ClipCompletes(polygon, poly, triangles, clipped);
      var p0, p1, p2 := AdjacentPoints(clipped, poly);
      triangles := triangles + [Triangle(p0, p1, p2)];
      poly, flags := EraseVertex(poly, flags, clipped);
    }
    NothingLeft(poly);
    assert triangles + [] == triangles;
  }

  lemma CompletesAtStart(start: seq<Point>)
    ensures Completes(start, start, [])
  {
    forall rest | Triangulated(start, rest) ensures Triangulated(start, [] + rest) { assert [] + rest == rest; }
  }

  lemma NothingLeft(poly: seq<Point>)
    requires |poly| < 3
    ensures Triangulated(poly, [])
  {
  }
}
