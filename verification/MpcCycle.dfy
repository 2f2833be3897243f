/** The stages of one control cycle before the matrices: each later stage relies on an earlier guard. */
module MpcCycle {
  import opened Reals
  import opened Matchings
  import opened LinearAlgebra
  import opened Interpolation
  import opened MpcPrediction
  import opened MpcMatrices
  import opened MpcTrajectories

  datatype Pose = Pose(x: real, y: real, yaw: real)

  /** Squared distance from the pose to point i. */
  function SquaredDist(p: Pose, c: Columns, i: int): real {
    Square(p.x - At(c.x, i)) + Square(p.y - At(c.y, i))
  }

  /** Points heading more than 60 degrees away are ignored. */
  predicate Admissible(g: Geometry, p: Pose, c: Columns, i: int) {
    Abs(Wrap(g, p.yaw - At(c.yaw, i))) <= PI / 3.0
  }

  /** The first of the nearest admissible points, or -1 when there is none. */
  ghost predicate IsNearest(g: Geometry, p: Pose, c: Columns, n: int, idx: int) {
    && -1 <= idx < n
    && (idx == -1 ==> forall i :: 0 <= i < n ==> !Admissible(g, p, c, i))
    && (idx >= 0 ==> Admissible(g, p, c, idx))
    && (idx >= 0 ==> forall i :: 0 <= i < n && Admissible(g, p, c, i) ==> NoFarther(p, c, idx, i))
  }

  ghost predicate NoFarther(p: Pose, c: Columns, idx: int, i: int) {
    SquaredDist(p, c, idx) <= SquaredDist(p, c, i) && (i < idx ==> SquaredDist(p, c, idx) < SquaredDist(p, c, i))
  }

  method CalcNearestIndex(g: Geometry, t: MPCTrajectory, p: Pose) returns (idx: int)
    ensures -1 <= idx < t.Size() && IsNearest(g, p, t.All(), t.Size(), idx)
  {
    hide SquaredDist, Admissible;
    idx := -1;
    var minDist := 0.0;
    for i := 0 to t.Size()
      invariant IsNearest(g, p, t.All(), i, idx) && (idx >= 0 ==> minDist == SquaredDist(p, t.All(), idx))
    {
      var dist := SquaredDist(p, t.All(), i);
      if !Admissible(g, p, t.All(), i) { continue; }
      if idx == -1 || dist < minDist {
        minDist := dist;
        idx := i;
      }
    }
  }

  /** The pose is searched for again after the filter: the same search, the same answer. */
  lemma NearestUnique(g: Geometry, p: Pose, c: Columns, n: int, idx: int, idx': int)
    requires IsNearest(g, p, c, n, idx) && IsNearest(g, p, c, n, idx')
    ensures idx == idx'
  {
    hide SquaredDist, Admissible;
  }

  datatype Nearest = NoPose | Nearest(index: int, pose: Pose, time: real)

  /** The neighbour the nearest point is interpolated with: the nearer of the two, at the ends the point itself. */
  function Neighbour(p: Pose, c: Columns, n: int, idx: int): (second: int)
    ensures 0 <= idx < n ==> 0 <= second < n
  {
    var next, prev := if idx + 1 < n then idx + 1 else n - 1, if idx > 0 then idx - 1 else 0;
    if SquaredDist(p, c, next) < SquaredDist(p, c, prev) then next else prev
  }

  /** The interpolated pose and time lie between those of the nearest point and its neighbour. */
  ghost predicate BetweenNeighbours(c: Columns, r: Nearest, second: int)
    requires r.Nearest?
  {
    && Between(At(c.time, r.index), r.time, At(c.time, second))
    && Between(At(c.x, r.index), r.pose.x, At(c.x, second)) && Between(At(c.y, r.index), r.pose.y, At(c.y, second))
  }

  /** The point a fraction a of the way from point j to point i, as the code mixes coordinates. */
  function OnLine(c: Columns, i: int, j: int, a: real): Pose {
    Pose(Blended(a, At(c.x, i), At(c.x, j)), Blended(a, At(c.y, i), At(c.y, j)), 0.0)
  }

  function Blended(a: real, v: real, w: real): real { a * v + (1.0 - a) * w }

  function Apart(p: Pose, q: Pose): real { Square(p.x - q.x) + Square(p.y - q.y) }

  /** Squared length of the segment between the points i and j. */
  function Length2(c: Columns, i: int, j: int): real {
    Square(At(c.x, i) - At(c.x, j)) + Square(At(c.y, i) - At(c.y, j))
  }

  /** One weight a mixes position, time and angle of the nearest point and its neighbour. */
  ghost predicate MixedBy(g: Geometry, c: Columns, r: Nearest, j: int, a: real)
    requires r.Nearest?
  {
    var i := r.index;
    && 0.0 <= a <= 1.0
    && r.pose.x == OnLine(c, i, j, a).x && r.pose.y == OnLine(c, i, j, a).y
    && r.time == Blended(a, At(c.time, i), At(c.time, j))
    && r.pose.yaw == Turned(g, a, At(c.yaw, i), At(c.yaw, j))
  }

  /** The angle w turned towards v by the fraction a of their wrapped difference. */
  function Turned(g: Geometry, a: real, v: real, w: real): real { Wrap(g, w + Share(a, Wrap(g, v - w))) }

  function Share(a: real, d: real): real { a * d }

  /**
   * The pose is the foot of the vehicle on the segment: no point of the segment is closer. Of two points too close to
   * each other the nearest is taken as it is.
   */
  ghost predicate IsFoot(g: Geometry, p: Pose, c: Columns, r: Nearest, j: int)
    requires r.Nearest?
  {
    if Length2(c, r.index, j) < 0.00001 then
      r.pose == Pose(At(c.x, r.index), At(c.y, r.index), At(c.yaw, r.index)) && r.time == At(c.time, r.index)
    else
      && (exists a :: MixedBy(g, c, r, j, a))
      && forall b :: 0.0 <= b <= 1.0 ==> Apart(p, r.pose) <= Apart(p, OnLine(c, r.index, j, b))
  }

  lemma NoneNearest(g: Geometry, p: Pose, c: Columns, n: nat)
    ensures forall idx :: IsNearest(g, p, c, n, -1) && IsNearest(g, p, c, n, idx) ==> idx == -1
  {
    forall idx | IsNearest(g, p, c, n, -1) && IsNearest(g, p, c, n, idx) ensures idx == -1 {
      NearestUnique(g, p, c, n, -1, idx);
    }
  }

  /** How much of the nearest point the foot of the perpendicular takes, clamped to the segment. */
  function Alpha(aSq: real, bSq: real, cSq: real): (a: real)
    requires cSq != 0.0
    ensures 0.0 <= a <= 1.0
  {
    Max(Min(0.5 * (cSq - aSq + bSq) / cSq, 1.0), 0.0)
  }

  function Mix(a: real, v: real, w: real): (m: real)
    requires 0.0 <= a <= 1.0
    ensures Between(v, m, w)
  {
    BlendBetween(a, v, w);
    Blended(a, v, w)
  }

  lemma MixIs(a: real, v: real, w: real)
    requires 0.0 <= a <= 1.0
    ensures Mix(a, v, w) == Blended(a, v, w)
  {
  }

  lemma AsItIs(g: Geometry, p: Pose, c: Columns, r: Nearest, j: int)
    requires r.Nearest? && r.time == At(c.time, r.index)
    requires r.pose == Pose(At(c.x, r.index), At(c.y, r.index), At(c.yaw, r.index))
    ensures Length2(c, r.index, j) < 0.00001 ==> IsFoot(g, p, c, r, j)
    ensures j == r.index ==> IsFoot(g, p, c, r, j)
  {
  }

  /** A parabola in b: from v at 0, past the squares a at 1, with leading coefficient c. */
  function Parabola(b: real, c: real, a: real, v: real): real { v - b * (c - a + v) + b * b * c }

  /** One coordinate of the squared distance to a mix of x and y. */
  lemma Expanded(p: real, x: real, y: real, b: real)
    ensures Square(p - Blended(b, x, y)) == Parabola(b, Square(x - y), Square(p - x), Square(p - y))
  {
    var u, v := p - y, x - y;
    assert p - Blended(b, x, y) == u - b * v;
    assert Square(u - b * v) == u * u - 2.0 * b * (u * v) + b * b * (v * v);
    assert v * v - (u - v) * (u - v) + u * u == 2.0 * (u * v);
  }

  lemma ParabolasAdd(b: real, c: real, a: real, v: real, c': real, a': real, v': real)
    ensures Parabola(b, c, a, v) + Parabola(b, c', a', v') == Parabola(b, c + c', a + a', v + v')
  {
  }

  function Slanted(b: real, k: real, c: real): real { b * b * c - 2.0 * b * k }

  lemma ParabolaIs(b: real, c: real, a: real, v: real)
    ensures Parabola(b, c, a, v) == v + Slanted(b, 0.5 * (c - a + v), c)
  {
  }

  /** The squared distance along the segment is a parabola in the weight. */
  lemma ApartIs(p: Pose, c: Columns, i: int, j: int, b: real)
    ensures Apart(p, OnLine(c, i, j, b)) == SquaredDist(p, c, j)
         + Slanted(b, 0.5 * (Length2(c, i, j) - SquaredDist(p, c, i) + SquaredDist(p, c, j)), Length2(c, i, j))
  {
    hide At, Square, Blended, Parabola, Slanted;
    Expanded(p.x, At(c.x, i), At(c.x, j), b);
    Expanded(p.y, At(c.y, i), At(c.y, j), b);
    ParabolasAdd(b, Square(At(c.x, i) - At(c.x, j)), Square(p.x - At(c.x, i)), Square(p.x - At(c.x, j)),
                 Square(At(c.y, i) - At(c.y, j)), Square(p.y - At(c.y, i)), Square(p.y - At(c.y, j)));
    ParabolaIs(b, Length2(c, i, j), SquaredDist(p, c, i), SquaredDist(p, c, j));
  }

  lemma SlantedGap(k: real, c: real, a: real, b: real, q: real)
    requires q * c == k
    ensures Slanted(b, k, c) - Slanted(a, k, c) == c * ((b - a) * (b + a - 2.0 * q))
  {
  }

  /** The clamped quotient is the least point of the parabola between 0 and 1. */
  lemma Vertex(k: real, c: real, a: real, b: real)
    requires c > 0.0 && a == Max(Min(k / c, 1.0), 0.0) && 0.0 <= b <= 1.0
    ensures Slanted(a, k, c) <= Slanted(b, k, c)
  {
    var q := k / c;
    assert q * c == k;
    SlantedGap(k, c, a, b, q);
    if a == q {
      SquareNonNegative(b - a);
    } else if q > 1.0 {
      MulMono(1.0 - b, b + a - 2.0 * q, 0.0);
    } else {
      MulMono(b, 0.0, b + a - 2.0 * q);
    }
    MulMono(c, 0.0, (b - a) * (b + a - 2.0 * q));
  }

  lemma FootIs(g: Geometry, p: Pose, c: Columns, r: Nearest, j: int, a: real)
    requires r.Nearest? && Length2(c, r.index, j) >= 0.00001 && MixedBy(g, c, r, j, a)
    requires a == Alpha(SquaredDist(p, c, r.index), SquaredDist(p, c, j), Length2(c, r.index, j))
    ensures IsFoot(g, p, c, r, j)
  {
    hide SquaredDist, Length2, Slanted, Square, Blended, Turned;
    forall b | 0.0 <= b <= 1.0 ensures Apart(p, r.pose) <= Apart(p, OnLine(c, r.index, j, b)) {
      var k := 0.5 * (Length2(c, r.index, j) - SquaredDist(p, c, r.index) + SquaredDist(p, c, j));
      ApartIs(p, c, r.index, j, a);
      ApartIs(p, c, r.index, j, b);
      Vertex(k, Length2(c, r.index, j), a, b);
    }
  }

  method CalcNearestPoseInterp(g: Geometry, t: MPCTrajectory, p: Pose) returns (r: Nearest)
    ensures r.NoPose? <==> t.Size() == 0 || IsNearest(g, p, t.All(), t.Size(), -1)
    ensures r.Nearest? ==> 0 <= r.index < t.Size() && IsNearest(g, p, t.All(), t.Size(), r.index)
    ensures r.Nearest? ==>
              var n, next, prev := t.Size(), r.index + 1, r.index - 1;
              var after, before := if next < n then next else n - 1, if prev >= 0 then prev else 0;
              var second := if SquaredDist(p, t.All(), after) < SquaredDist(p, t.All(), before) then after else before;
              BetweenNeighbours(t.All(), r, second) && IsFoot(g, p, t.All(), r, second)
  {
    hide SquaredDist, Admissible, IsNearest, Alpha, Mix, Blended, Turned, IsFoot, Length2;
    NoneNearest(g, p, t.All(), t.Size());
    var c, n := t.All(), t.Size();
    if n == 0 { return NoPose; }
    var idx := CalcNearestIndex(g, t, p);
    if idx == -1 { return NoPose; }
    AsItIs(g, p, c, Nearest(idx, Pose(t.x[idx], t.y[idx], t.yaw[idx]), t.relativeTime[idx]), Neighbour(p, c, n, idx));
    if n == 1 { return Nearest(idx, Pose(t.x[idx], t.y[idx], t.yaw[idx]), t.relativeTime[idx]); }
    var second := Neighbour(p, c, n, idx);
    var aSq, bSq, cSq := SquaredDist(p, c, idx), SquaredDist(p, c, second), Length2(c, idx, second);
    if cSq < 0.00001 {  // the two points are too close
      return Nearest(idx, Pose(t.x[idx], t.y[idx], t.yaw[idx]), t.relativeTime[idx]);
    }
    var alpha := Alpha(aSq, bSq, cSq);
    var yaw := Turned(g, alpha, t.yaw[idx], t.yaw[second]);
    r := Nearest(idx, Pose(Mix(alpha, t.x[idx], t.x[second]), Mix(alpha, t.y[idx], t.y[second]), yaw),
                 Mix(alpha, t.relativeTime[idx], t.relativeTime[second]));
    MixIs(alpha, t.x[idx], t.x[second]);
    MixIs(alpha, t.y[idx], t.y[second]);
    MixIs(alpha, t.relativeTime[idx], t.relativeTime[second]);
    FootIs(g, p, c, r, second, alpha);
  }

  // ---- resampling in time -----------------------------------------------------------------------

  /** The angles of a, the first as it is and each other one a wrapped angle away from the one before. */
  ghost predicate Unwrapped(g: Geometry, a: seq<real>, b: seq<real>) {
    && |b| == |a| && (|a| > 0 ==> b[0] == a[0])
    && forall i :: 0 < i < |a| ==> b[i] == b[i - 1] + Wrap(g, a[i] - b[i - 1])
  }

  method ConvertEulerAngleToMonotonic(g: Geometry, a: seq<real>) returns (b: seq<real>)
    ensures Unwrapped(g, a, b)
  {
    b := a;
    if |a| == 0 { return; }
    for i := 1 to |a|
      invariant |b| == |a| && b[i..] == a[i..] && b[0] == a[0]
      invariant forall j :: 0 < j < i ==> b[j] == b[j - 1] + Wrap(g, a[j] - b[j - 1])
    {
      var da := b[i] - b[i - 1];
      b := b[i := b[i - 1] + Wrap(g, da)];
    }
  }

  function Joined(a: Columns, b: Columns): Columns {
    Columns(a.x + b.x, a.y + b.y, a.z + b.z, a.yaw + b.yaw, a.vx + b.vx, a.k + b.k, a.smoothK + b.smoothK,
        a.time + b.time)
  }

  lemma JoinedEmpty(a: Columns, b: Columns)
    requires Aligned(a, 0)
    ensures Joined(a, b) == b
  {
  }

  /** All columns read at the output index. */
  ghost function Sampled(c: Columns, index: seq<real>, times: seq<real>): (r: Columns)
    requires forall m :: 0 <= m < |times| ==> InRange(index, times[m])
    requires Aligned(c, |index|)
    ensures Aligned(r, |times|)
  {
    Columns(InterpolatedAll(index, c.x, times), InterpolatedAll(index, c.y, times), InterpolatedAll(index, c.z, times),
            InterpolatedAll(index, c.yaw, times), InterpolatedAll(index, c.vx, times),
            InterpolatedAll(index, c.k, times),
            InterpolatedAll(index, c.smoothK, times), InterpolatedAll(index, c.time, times))
  }

  /** Appends to every column its values at the output index; the first column that cannot be read stops it. */
  method SampleColumns(inIndex: seq<real>, c: Columns, outIndex: seq<real>, before: Columns)
      returns (ok: bool, after: Columns)
    requires Aligned(c, |c.x|)
    ensures ok <==> ValidInput(inIndex, c.x, outIndex)
    ensures ok ==> Aligned(c, |inIndex|) && |outIndex| > 0
    ensures ok ==> forall m :: 0 <= m < |outIndex| ==> InRange(inIndex, outIndex[m])
    ensures ok ==> after == Joined(before, Sampled(c, inIndex, outIndex))
    ensures !ok ==> after == before
  {
    hide ValidInput, InRange, InterpolatedAll;
    SameColumns(inIndex, c, outIndex);
    after := before;
    var column;
    ok, column := LinearInterpolate(inIndex, c.x, outIndex, before.x);
    if !ok { return; }
    after := after.(x := column);
    ok, column := LinearInterpolate(inIndex, c.y, outIndex, before.y);
    if !ok { return; }
    after := after.(y := column);
    ok, column := LinearInterpolate(inIndex, c.z, outIndex, before.z);
    if !ok { return; }
    after := after.(z := column);
    ok, column := LinearInterpolate(inIndex, c.yaw, outIndex, before.yaw);
    if !ok { return; }
    after := after.(yaw := column);
    ok, column := LinearInterpolate(inIndex, c.vx, outIndex, before.vx);
    if !ok { return; }
    after := after.(vx := column);
    ok, column := LinearInterpolate(inIndex, c.k, outIndex, before.k);
    if !ok { return; }
    after := after.(k := column);
    ok, column := LinearInterpolate(inIndex, c.smoothK, outIndex, before.smoothK);
    if !ok { return; }
    after := after.(smoothK := column);
    ok, column := LinearInterpolate(inIndex, c.time, outIndex, before.time);
    if !ok { return; }
    after := after.(time := column);
  }

  /**
   * Appends to every column its values at the output index, the angles unwrapped first. What comes out must have
   * columns of equal length, so those it is appended to must have.
   */
  method LinearInterpMPCTrajectory(g: Geometry, inIndex: seq<real>, t: MPCTrajectory, outIndex: seq<real>,
      out: MPCTrajectory)
    returns (ok: bool, ghost yaw: seq<real>)
    modifies out
    ensures ok <==> old(t.Size()) == 0 || (ValidInput(inIndex, old(t.x), outIndex) && old(Aligned(out.All(), |out.x|)))
    ensures old(t.Size()) == 0 ==> out.All() == old(t.All())
    ensures old(t.Size()) > 0 && !ValidInput(inIndex, old(t.x), outIndex) ==> out.All() == old(out.All())
    ensures old(t.Size()) > 0 ==> Unwrapped(g, old(t.yaw), yaw)
    ensures old(t.Size()) > 0 && ValidInput(inIndex, old(t.x), outIndex) ==>
              && Aligned(old(t.All()).(yaw := yaw), |inIndex|)
              && (forall m :: 0 <= m < |outIndex| ==> InRange(inIndex, outIndex[m]))
              && out.All() == Joined(old(out.All()), Sampled(old(t.All()).(yaw := yaw), inIndex, outIndex))
  {
    hide ValidInput, InRange, Sampled, InterpolatedAll;
    yaw := [];
    if t.Size() == 0 {
      out.x, out.y, out.z, out.yaw := t.x, t.y, t.z, t.yaw;
      out.vx, out.k, out.smoothK, out.relativeTime := t.vx, t.k, t.smoothK, t.relativeTime;
      return true, yaw;
    }
    var inYaw := ConvertEulerAngleToMonotonic(g, t.yaw);
    yaw := inYaw;
    var after;
    ok, after := SampleColumns(inIndex, t.All().(yaw := inYaw), outIndex, out.All());
    out.x, out.y, out.z, out.yaw := after.x, after.y, after.z, after.yaw;
    out.vx, out.k, out.smoothK, out.relativeTime := after.vx, after.k, after.smoothK, after.time;
    if ok && out.Size() == 0 { return false, yaw; }
  }

  /** Whether a column can be read depends on its length alone. */
  lemma SameColumns(inIndex: seq<real>, c: Columns, outIndex: seq<real>)
    ensures forall v: seq<real> :: |v| == |c.x| ==>
      (ValidInput(inIndex, v, outIndex) <==> ValidInput(inIndex, c.x, outIndex))
    ensures ValidInput(inIndex, c.x, outIndex) ==> |inIndex| == |c.x| && |outIndex| > 0
  {
  }

  // ---- the controller's cycle -------------------------------------------------------------------

  datatype CycleParam = CycleParam(horizon: nat, dt: real, ctrlPeriod: real, accelerationLimit: real,
      velocityTimeConstant: real, admissiblePositionError: real, admissibleYawError: real)

  /** std::round: half away from zero. */
  function Round(x: real): int {
    if x >= 0.0 then (x + 0.5).Floor else -((-x + 0.5).Floor)
  }

  function QueryTime(p: CycleParam, start: real, i: nat): real { start + i as real * p.ctrlPeriod }

  function SampleTime(p: CycleParam, ts: real, m: nat): real { ts + m as real * p.dt }

  /** The state after the buffered commands, each held for one control period under the interpolated reference. */
  ghost function Delayed(v: Vehicle, p: CycleParam, c: Columns, start: real, buffer: seq<real>, x: Vec, i: nat): Vec {
    if i == 0 then x
    else
      var q := QueryTime(p, start, i - 1);
      var d := CalculateDiscreteMatrix(v, ValueAt(c.time, c.vx, q), ValueAt(c.time, c.k, q), p.ctrlPeriod);
      Next(v.nx, d, Delayed(v, p, c, start, buffer, x, i - 1), At(buffer, i - 1))
  }

  ghost function ValueAt(time: seq<real>, column: seq<real>, q: real): real {
    if InRange(time, q) && |column| == |time| then Interpolated(time, column, q) else 0.0
  }

  const EXTRA_TIME := 100.0

  function Last(v: seq<real>): real { At(v, |v| - 1) }

  /** `out` is `c` smoothed from the point nearest to the pose, stopped at its end and held there. */
  ghost predicate Filtered(g: Geometry, pose: Pose, c: Columns, v0: real, p: CycleParam, predictionTime: real,
      smoothed: seq<real>, out: Columns) {
    var n := |c.x|;
    && n > 0 && Aligned(c, n) && Aligned(out, n + 1)
    && out.x == c.x + [Last(c.x)] && out.y == c.y + [Last(c.y)] && out.z == c.z + [Last(c.z)]
        && out.yaw == c.yaw + [Last(c.yaw)]
    && out.k == c.k + [Last(c.k)] && out.smoothK == c.smoothK + [Last(c.smoothK)]
    && (exists idx :: IsNearest(g, pose, c, n, idx)
                   && Smoothed(g, c.x, c.y, c.vx, smoothed, idx, v0, p.accelerationLimit, p.velocityTimeConstant, n))
    && |smoothed| == n && out.vx == smoothed[n - 1 := 0.0] + [0.0]
    && Timed(g, c.x, c.y, c.z, smoothed, out.time[..n]) && out.time[n] == out.time[n - 1] + predictionTime + EXTRA_TIME
  }

  lemma SmoothedAligned(g: Geometry, c: Columns, before: seq<real>, start: int, startVel: real, accLim: real,
      tau: real, n: int)
    requires Smoothed(g, c.x, c.y, before, c.vx, start, startVel, accLim, tau, n)
      && Timed(g, c.x, c.y, c.z, c.vx, c.time)
    ensures |c.vx| == |before| && |c.time| == |c.x|
  {
  }

  /** Of a filtered trajectory the time column runs from 0 upwards and all columns have one length. */
  lemma FilteredTimes(g: Geometry, pose: Pose, c: Columns, v0: real, p: CycleParam, predictionTime: real,
      smoothed: seq<real>, out: Columns)
    requires Lengths(g) && predictionTime >= 0.0 && Filtered(g, pose, c, v0, p, predictionTime, smoothed, out)
    ensures |c.x| > 0 && Aligned(c, |c.x|) && Aligned(out, |c.x| + 1) && out.time[0] == 0.0 && Sorted(out.time)
  {
    var n := |c.x|;
    TimedIsSorted(g, c.x, c.y, c.z, smoothed, out.time[..n]);
    forall i, j | 0 <= i < j < |out.time| ensures out.time[i] <= out.time[j] {
      assert out.time[..n][i] == out.time[i];
      assert j < n ==> out.time[..n][j] == out.time[j];
      assert out.time[..n][n - 1] == out.time[n - 1];
    }
  }

  class Cycle {
    const g: Geometry
    const vehicle: Vehicle
    const param: CycleParam
    var inputDelay: real
    var inputBuffer: seq<real>

    /** Non-negative settings, a horizon of at least one step, and one buffered command per period of delay. */
    ghost predicate Valid()
      reads this
    {
      && Lengths(g) && param.horizon > 0 && param.dt >= 0.0 && param.ctrlPeriod > 0.0
      && inputDelay >= 0.0 && |inputBuffer| as real * param.ctrlPeriod == inputDelay
    }

    /** The delay is rounded to whole control periods and the buffer holds one zero command for each. */
    constructor (g: Geometry, vehicle: Vehicle, param: CycleParam, delay: real)
      requires Lengths(g) && param.horizon > 0 && param.dt >= 0.0 && param.ctrlPeriod > 0.0 && delay >= 0.0
      ensures Valid() && this.g == g && this.vehicle == vehicle && this.param == param
      ensures inputDelay == Round(delay / param.ctrlPeriod) as real * param.ctrlPeriod
      ensures inputBuffer == Zero(|inputBuffer|)
    {
      RoundNonNegative(delay, param.ctrlPeriod);
      var delayStep := Round(delay / param.ctrlPeriod);
      this.g := g;
      this.vehicle := vehicle;
      this.param := param;
      inputDelay := delayStep as real * param.ctrlPeriod;
      inputBuffer := Zero(delayStep);
    }

    /** A new delay; the buffer is replaced only when the requested delay is not a whole number of periods. */
    method UpdateInputDelay(requested: real)
      requires Valid() && requested >= 0.0
      modifies this
      ensures inputDelay == Round(requested / param.ctrlPeriod) as real * param.ctrlPeriod
      ensures Valid() <==> requested != inputDelay || requested == old(inputDelay)
      ensures inputBuffer == if requested != inputDelay then Zero(|inputBuffer|) else old(inputBuffer)
    {
      RoundNonNegative(requested, param.ctrlPeriod);
      var delayStep := Round(requested / param.ctrlPeriod);
      var delay := delayStep as real * param.ctrlPeriod;
      inputDelay := requested;
      if requested != delay {
        inputDelay := delay;
        inputBuffer := Zero(delayStep);
      }
    }

    /** The new command enters, the oldest leaves. */
    method StoreInput(u: real)
      requires Valid()
      modifies this`inputBuffer
      ensures Valid() && inputBuffer == old(inputBuffer + [u])[1..]
    {
      inputBuffer := inputBuffer + [u];
      inputBuffer := inputBuffer[1..];
    }

    function PredictionTime(): real
      reads this
    {
      (param.horizon - 1) as real * param.dt + inputDelay + param.ctrlPeriod
    }

    /**
     * The reference with its velocities smoothed from the nearest point on, and one stopped point far in the
     * future.
     */
    method ApplyVelocityDynamicsFilter(input: MPCTrajectory, pose: Pose, v0: real)
        returns (output: MPCTrajectory, ghost smoothed: seq<real>)
      requires Valid()
      ensures fresh(output)
      ensures IsNearest(g, pose, input.All(), input.Size(), -1) ==> output.All() == input.All()
      ensures !IsNearest(g, pose, input.All(), input.Size(), -1) ==>
        Filtered(g, pose, input.All(), v0, param, PredictionTime(), smoothed, output.All())
    {
      hide Smoothed, Timed, IsNearest;
      NoneNearest(g, pose, input.All(), input.Size());
      smoothed := [];
      output := new MPCTrajectory.Copy(input.All());
      var nearestIdx := CalcNearestIndex(g, input, pose);
      if nearestIdx < 0 { return; }
      var timed := output.DynamicSmoothingVelocity(g, nearestIdx, v0, param.accelerationLimit,
          param.velocityTimeConstant);
      smoothed := output.vx;
      var n := output.Size();
      SmoothedAligned(g, output.All(), input.vx, nearestIdx, v0, param.accelerationLimit, param.velocityTimeConstant,
          |input.x|);
      var tEnd := output.relativeTime[|output.relativeTime| - 1] + PredictionTime() + EXTRA_TIME;
      output.vx := output.vx[|output.vx| - 1 := 0.0];
      output.PushBack(Last(output.x), Last(output.y), Last(output.z), Last(output.yaw), 0.0, Last(output.k),
          Last(output.smoothK), tEnd);
    }

    /** The prediction from `start`, with the delay counted twice as the code does, ends by the last time. */
    predicate EndsBy(start: real, time: seq<real>)
      reads this
    {
      start + inputDelay + PredictionTime() <= Last(time)
    }

    /** Where the vehicle is on the trajectory, provided it is close enough and the trajectory long enough. */
    method GetData(t: MPCTrajectory, pose: Pose) returns (ok: bool, data: Nearest)
      ensures data.NoPose? <==> t.Size() == 0 || IsNearest(g, pose, t.All(), t.Size(), -1)
      ensures data.Nearest? ==> 0 <= data.index < t.Size() && IsNearest(g, pose, t.All(), t.Size(), data.index)
      ensures data.Nearest? ==>
                var n, next, prev := t.Size(), data.index + 1, data.index - 1;
                var after, before := if next < n then next else n - 1, if prev >= 0 then prev else 0;
                var second := if SquaredDist(pose, t.All(), after) < SquaredDist(pose, t.All(), before) then after
                              else before;
                BetweenNeighbours(t.All(), data, second) && IsFoot(g, pose, t.All(), data, second)
      ensures ok <==> data.Nearest? && CloseEnough(g, param, pose, data.pose) && EndsBy(data.time, t.relativeTime)
    {
      hide IsNearest, BetweenNeighbours, IsFoot, SquaredDist;
      data := CalcNearestPoseInterp(g, t, pose);
      if data.NoPose? { return false, data; }
      if Planar(g, pose.x - data.pose.x, pose.y - data.pose.y) > param.admissiblePositionError { return false, data; }
      if Abs(Wrap(g, pose.yaw - data.pose.yaw)) > param.admissibleYawError { return false, data; }
      var endTime := data.time + inputDelay + PredictionTime();
      if endTime > t.relativeTime[|t.relativeTime| - 1] { return false, data; }
      return true, data;
    }

    /** Query i of the delay compensation can be answered. */
    ghost predicate Answerable(c: Columns, start: real, i: nat) {
      ValidInput(c.time, c.k, [QueryTime(param, start, i)]) && ValidInput(c.time, c.vx, [QueryTime(param, start, i)])
    }

    /** Advances the state over the commands still in the buffer. */
    method UpdateStateForDelayCompensation(t: MPCTrajectory, start: real, x0: Vec) returns (ok: bool, x: Vec)
      ensures ok <==> forall i :: 0 <= i < |inputBuffer| ==> Answerable(t.All(), start, i)
      ensures ok ==> x == Delayed(vehicle, param, t.All(), start, inputBuffer, x0, |inputBuffer|)
      ensures !ok ==> x == x0
    {
      hide Next, CalculateDiscreteMatrix, Interpolated, ValidInput, InRange, QueryTime, ValueAt;
      ghost var c := t.All();
      var curr := x0;
      var time := start;
      NextQuery(param, start, 0);
      for i := 0 to |inputBuffer|
        invariant time == QueryTime(param, start, i)
        invariant forall j :: 0 <= j < i ==> Answerable(c, start, j)
        invariant curr == Delayed(vehicle, param, c, start, inputBuffer, x0, i)
      {
        var readable, k := LinearInterpolateOne(t.relativeTime, t.k, time, 0.0);
        assert Answerable(c, start, i) ==> readable;
        if !readable { return false, x0; }
        var v;
        readable, v := LinearInterpolateOne(t.relativeTime, t.vx, time, 0.0);
        if !readable { return false, x0; }
        ReadValues(c, time, k, v);
        var d := CalculateDiscreteMatrix(vehicle, v, k, param.ctrlPeriod);
        curr := Next(vehicle.nx, d, curr, inputBuffer[i]);
        NextQuery(param, start, i);
        time := time + param.ctrlPeriod;
      }
      return true, curr;
    }

    /** The sampling times of the prediction. */
    ghost function SampleTimes(ts: real): (times: seq<real>)
      ensures |times| == param.horizon
    {
      seq(param.horizon, i requires i >= 0 => SampleTime(param, ts, i))
    }

    /** The trajectory at the sampling times. */
    method ResampleMPCTrajectoryByTime(ts: real, t: MPCTrajectory)
        returns (ok: bool, out: MPCTrajectory, ghost yaw: seq<real>)
      ensures fresh(out)
      ensures ok <==> t.Size() == 0 || ValidInput(t.relativeTime, t.x, SampleTimes(ts))
      ensures t.Size() > 0 ==> Unwrapped(g, t.yaw, yaw)
      ensures ok && t.Size() > 0 ==>
                && Aligned(t.All().(yaw := yaw), |t.relativeTime|) && Aligned(out.All(), param.horizon)
                && (forall m :: 0 <= m < param.horizon ==> InRange(t.relativeTime, SampleTimes(ts)[m]))
                && out.All() == Sampled(t.All().(yaw := yaw), t.relativeTime, SampleTimes(ts))
    {
      hide ValidInput, InRange, InterpolatedAll, Sampled;
      var times := [];
      for i := 0 to param.horizon
        invariant |times| == i && forall j :: 0 <= j < i ==> times[j] == SampleTime(param, ts, j)
      {
        times := times + [SampleTime(param, ts, i)];
      }
      assert times == SampleTimes(ts);
      out := new MPCTrajectory.Copy(Columns([], [], [], [], [], [], [], []));
      ok, yaw := LinearInterpMPCTrajectory(g, t.relativeTime, t, times, out);
      if t.Size() > 0 && ok {
        JoinedEmpty(Columns([], [], [], [], [], [], [], []), Sampled(t.All().(yaw := yaw), t.relativeTime, times));
      }
    }

    /** The nearest time of an accepted trajectory leaves room for every query of the delay compensation. */
    lemma BufferedFit(time: seq<real>, start: real, i: nat)
      requires Valid() && |time| > 0 && time[0] <= start && EndsBy(start, time) && i < |inputBuffer|
      ensures time[0] <= QueryTime(param, start, i) <= Last(time)
    {
      BufferedTime(param.ctrlPeriod, i, |inputBuffer|);
      PredictionLength(0);
    }

    /** And for every sample of the prediction. */
    lemma SamplesFit(time: seq<real>, start: real, m: nat)
      requires Valid() && |time| > 0 && time[0] <= start && EndsBy(start, time) && m < param.horizon
      ensures time[0] <= SampleTime(param, start + inputDelay, m) <= Last(time)
    {
      PredictionLength(m);
    }

    lemma SamplesSorted(ts: real)
      requires Valid()
      ensures Sorted(SampleTimes(ts))
    {
      forall m, k | 0 <= m < k < param.horizon ensures SampleTime(param, ts, m) <= SampleTime(param, ts, k) {
        MulMono(param.dt, m as real, k as real);
      }
    }

    lemma PredictionLength(m: nat)
      requires Valid() && m < param.horizon
      ensures 0.0 <= m as real * param.dt && m as real * param.dt + inputDelay + param.ctrlPeriod <= PredictionTime()
    {
      MulMono(param.dt, 0.0, m as real);
      MulMono(param.dt, m as real, (param.horizon - 1) as real);
    }

    /** The time check covers every query of the later stages. */
    lemma QueriesAnswered(c: Columns, n: nat, start: real)
      requires Valid() && n > 0 && Aligned(c, n) && Sorted(c.time) && c.time[0] <= start && EndsBy(start, c.time)
      ensures forall i: nat :: i < |inputBuffer| ==> Answerable(c, start, i)
      ensures ValidInput(c.time, c.x, SampleTimes(start + inputDelay))
    {
      hide EndsBy, SampleTime, PredictionTime;
      forall i: nat | i < |inputBuffer| ensures Answerable(c, start, i) { BufferedFit(c.time, start, i); }
      SamplesSorted(start + inputDelay);
      SamplesFit(c.time, start, 0);
      SamplesFit(c.time, start, param.horizon - 1);
    }

    /** What a successful cycle hands on: the state after the delay and the filtered reference at the sampling times. */
    ghost predicate Handed(t: Columns, at: Nearest, yaw: seq<real>, start: Vec, x0: Vec, resampled: Columns)
      reads this
    {
      at.Nearest? &&
      var times := SampleTimes(at.time + inputDelay);
      && |t.time| > 0 && Aligned(t, |t.time|) && Unwrapped(g, t.yaw, yaw)
      && x0 == Delayed(vehicle, param, t, at.time, inputBuffer, start, |inputBuffer|)
      && Aligned(resampled, param.horizon)
      && (forall m :: 0 <= m < param.horizon ==> InRange(t.time, times[m]))
      && resampled == Sampled(t.(yaw := yaw), t.time, times)
    }

    /**
     * The stages up to the matrices. Whatever the reference trajectory, once the data are accepted the delay
     * compensation and the resampling succeed, and every resampled column has exactly one value a prediction step.
     */
    method PrepareCycle(reference: MPCTrajectory, pose: Pose, v0: real, initialState: Nearest -> Vec)
      returns (ready: bool, accepted: bool, x0: Vec, resampled: MPCTrajectory?,
               ghost filtered: Columns, ghost smoothed: seq<real>, ghost at: Nearest, ghost yaw: seq<real>)
      requires Valid()
      ensures ready <==> accepted
      ensures accepted ==> resampled != null && Covers(Reference(resampled.vx, resampled.k, resampled.smoothK),
        param.horizon)
      ensures at.NoPose? <==> IsNearest(g, pose, reference.All(), reference.Size(), -1)
      ensures at.NoPose? ==> filtered == reference.All()
      ensures at.Nearest? ==> IsNearest(g, pose, reference.All(), reference.Size(), at.index)
      ensures at.Nearest? ==> Filtered(g, pose, reference.All(), v0, param, PredictionTime(), smoothed, filtered)
      ensures accepted <==> at.Nearest? && CloseEnough(g, param, pose, at.pose) && EndsBy(at.time, filtered.time)
      ensures accepted ==> Handed(filtered, at, yaw, initialState(at), x0, resampled.All())
    {
      hide IsNearest, Filtered, BetweenNeighbours, SquaredDist, Interpolated, ValidInput, InRange, Sampled, SampleTimes,
        EndsBy, IsFoot,
        Answerable, CloseEnough, Delayed;
      resampled, yaw := null, [];
      var t;
      t, smoothed := ApplyVelocityDynamicsFilter(reference, pose, v0);
      var data;
      accepted, data := GetData(t, pose);
      filtered, at := t.All(), data;
      if !IsNearest(g, pose, reference.All(), reference.Size(), -1) {
        FilterKeepsNearest(g, pose, reference.All(), v0, param, PredictionTime(), smoothed, filtered);
      }
      x0 := [];
      if !accepted { ready := false; return; }
      PredictionLength(0);
      FilteredTimes(g, pose, reference.All(), v0, param, PredictionTime(), smoothed, t.All());
      AtOrAfterStart(t.All(), t.Size(), pose, data);
      QueriesAnswered(t.All(), t.Size(), data.time);
      x0 := initialState(data);
      ready, x0 := UpdateStateForDelayCompensation(t, data.time, x0);
      if !ready { return; }
      ready, resampled, yaw := ResampleMPCTrajectoryByTime(data.time + inputDelay, t);
    }
  }

  /** The point held at the end is no nearer than the one it repeats: the filter does not move the nearest point. */
  lemma SameNearest(g: Geometry, p: Pose, c: Columns, n: nat, out: Columns, idx: int)
    requires n == |c.x| > 0 && Aligned(c, n)
    requires out.x == c.x + [Last(c.x)] && out.y == c.y + [Last(c.y)] && out.yaw == c.yaw + [Last(c.yaw)]
    ensures IsNearest(g, p, c, n, idx) <==> IsNearest(g, p, out, n + 1, idx)
  {
    hide Admissible, SquaredDist, Last, At;
    SamePoints(g, p, c, n, out);
    if IsNearest(g, p, out, n + 1, idx) {
      assert Admissible(g, p, out, n) ==> Admissible(g, p, out, n - 1);
      assert !NoFarther(p, out, n, n - 1);
      forall i | 0 <= i < n && Admissible(g, p, c, i) ensures idx != -1 && NoFarther(p, c, idx, i) {
        assert Admissible(g, p, out, i);
        assert NoFarther(p, out, idx, i);
      }
    }
  }

  lemma FilterKeepsNearest(g: Geometry, pose: Pose, c: Columns, v0: real, p: CycleParam, predictionTime: real,
      smoothed: seq<real>, out: Columns)
    requires Filtered(g, pose, c, v0, p, predictionTime, smoothed, out)
    ensures Aligned(c, |c.x|) && Aligned(out, |c.x| + 1)
    ensures forall idx :: IsNearest(g, pose, c, |c.x|, idx) <==> IsNearest(g, pose, out, |c.x| + 1, idx)
  {
    forall idx ensures IsNearest(g, pose, c, |c.x|, idx) <==> IsNearest(g, pose, out, |c.x| + 1, idx) {
      SameNearest(g, pose, c, |c.x|, out, idx);
    }
  }

  lemma SamePoints(g: Geometry, p: Pose, c: Columns, n: nat, out: Columns)
    requires n == |c.x| > 0 && Aligned(c, n)
    requires out.x == c.x + [Last(c.x)] && out.y == c.y + [Last(c.y)] && out.yaw == c.yaw + [Last(c.yaw)]
    ensures forall i :: 0 <= i <= n ==>
      var j := if i == n then n - 1 else i;
      SquaredDist(p, out, i) == SquaredDist(p, c, j) && (Admissible(g, p, out, i) <==> Admissible(g, p, c, j))
  {
    forall i | 0 <= i <= n
      ensures var j := if i == n then n - 1 else i;
        At(out.x, i) == At(c.x, j) && At(out.y, i) == At(c.y, j) && At(out.yaw, i) == At(c.yaw, j)
    {}
  }

  lemma AtOrAfterStart(c: Columns, n: nat, p: Pose, at: Nearest)
    requires |c.time| == n && Sorted(c.time) && at.Nearest? && 0 <= at.index < n
    requires var next, prev := at.index + 1, at.index - 1;
      var after, before := if next < n then next else n - 1, if prev >= 0 then prev else 0;
      BetweenNeighbours(c, at, if SquaredDist(p, c, after) < SquaredDist(p, c, before) then after else before)
    ensures c.time[0] <= at.time
  {
  }

  lemma BufferedTime(period: real, i: nat, n: nat)
    requires period > 0.0 && i < n
    ensures 0.0 <= i as real * period <= n as real * period
  {
    MulMono(period, 0.0, i as real);
    MulMono(period, i as real, n as real);
  }

  lemma NextQuery(p: CycleParam, start: real, i: nat)
    ensures QueryTime(p, start, 0) == start
    ensures QueryTime(p, start, i + 1) == QueryTime(p, start, i) + p.ctrlPeriod
  {
    assert (i + 1) as real == i as real + 1.0;
  }

  lemma ReadValues(c: Columns, q: real, k: real, v: real)
    requires ValidInput(c.time, c.k, [q]) && ValidInput(c.time, c.vx, [q]) && InRange(c.time, q)
    requires k == Interpolated(c.time, c.k, q) && v == Interpolated(c.time, c.vx, q)
    ensures k == ValueAt(c.time, c.k, q) && v == ValueAt(c.time, c.vx, q)
  {
    hide Interpolated;
  }

  predicate CloseEnough(g: Geometry, p: CycleParam, pose: Pose, nearest: Pose) {
    && Planar(g, pose.x - nearest.x, pose.y - nearest.y) <= p.admissiblePositionError
    && Abs(Wrap(g, pose.yaw - nearest.yaw)) <= p.admissibleYawError
  }

  lemma RoundNonNegative(x: real, period: real)
    requires x >= 0.0 && period > 0.0
    ensures Round(x / period) >= 0 && Round(x / period) as real * period >= 0.0
  {
    DivMono(0.0, x, period);
    MulMono(period, 0.0, Round(x / period) as real);
  }
}
