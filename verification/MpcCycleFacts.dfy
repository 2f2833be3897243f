/** The stages of the control cycle in plain terms: every quantity they are stated with, written out. */
module MpcCycleFacts {
  import opened Reals
  import opened Matchings
  import opened LinearAlgebra
  import opened Interpolation
  import opened MpcPrediction
  import opened MpcMatrices
  import opened MpcTrajectories
  import opened MpcCycle

  // ---- the nearest point ------------------------------------------------------------------------

  lemma DistanceExact(p: Pose, c: Columns, i: int)
    requires 0 <= i < |c.x| && i < |c.y|
    ensures SquaredDist(p, c, i) == (p.x - c.x[i]) * (p.x - c.x[i]) + (p.y - c.y[i]) * (p.y - c.y[i])
  {
  }

  /** The nearest point heads at most 60 degrees away, every such point is at least as far, an earlier one farther. */
  lemma NearestExact(g: Geometry, p: Pose, c: Columns, n: nat, idx: int, i: nat)
    requires Aligned(c, n) && IsNearest(g, p, c, n, idx) && i < n
    requires -3.14159265358979323846 / 3.0 <= g.wrap(p.yaw - c.yaw[i]) <= 3.14159265358979323846 / 3.0
    ensures 0 <= idx < n
    ensures -3.14159265358979323846 / 3.0 <= g.wrap(p.yaw - c.yaw[idx]) <= 3.14159265358979323846 / 3.0
    ensures SquaredDist(p, c, idx) <= SquaredDist(p, c, i)
    ensures i < idx ==> SquaredDist(p, c, idx) < SquaredDist(p, c, i)
  {
    hide SquaredDist;
    assert Admissible(g, p, c, i);
  }

  /** Points i and j are less than about 3 mm apart. */
  lemma LengthExact(c: Columns, i: int, j: int, dx: real, dy: real)
    requires dx == At(c.x, i) - At(c.x, j) && dy == At(c.y, i) - At(c.y, j)
    ensures Length2(c, i, j) == dx * dx + dy * dy
  {
    hide At;
  }

  lemma MixedExact(g: Geometry, c: Columns, r: Nearest, j: int, a: real, turn: real, angle: real)
    requires r.Nearest? && MixedBy(g, c, r, j, a)
    requires turn == g.wrap(At(c.yaw, r.index) - At(c.yaw, j)) && angle == At(c.yaw, j) + a * turn
    ensures 0.0 <= a <= 1.0
    ensures r.pose.x == a * At(c.x, r.index) + (1.0 - a) * At(c.x, j)
    ensures r.pose.y == a * At(c.y, r.index) + (1.0 - a) * At(c.y, j)
    ensures r.time == a * At(c.time, r.index) + (1.0 - a) * At(c.time, j)
    ensures r.pose.yaw == g.wrap(angle)
  {
    hide At;
    assert Share(a, Wrap(g, At(c.yaw, r.index) - At(c.yaw, j))) == a * turn;
  }

  /** The pose mixes the nearest point and its neighbour by one weight; the angle turns by the wrapped difference. */
  lemma FootInFull(g: Geometry, p: Pose, c: Columns, r: Nearest, j: int, dx: real, dy: real)
      returns (a: real, turn: real, angle: real)
    requires r.Nearest? && IsFoot(g, p, c, r, j)
    requires dx == At(c.x, r.index) - At(c.x, j) && dy == At(c.y, r.index) - At(c.y, j)
    ensures dx * dx + dy * dy < 0.00001 ==>
              r.pose == Pose(At(c.x, r.index), At(c.y, r.index), At(c.yaw, r.index)) && r.time == At(c.time, r.index)
    ensures turn == g.wrap(At(c.yaw, r.index) - At(c.yaw, j)) && angle == At(c.yaw, j) + a * turn
    ensures dx * dx + dy * dy >= 0.00001 ==>
              && 0.0 <= a <= 1.0
              && r.pose.x == a * At(c.x, r.index) + (1.0 - a) * At(c.x, j)
              && r.pose.y == a * At(c.y, r.index) + (1.0 - a) * At(c.y, j)
              && r.time == a * At(c.time, r.index) + (1.0 - a) * At(c.time, j)
              && r.pose.yaw == g.wrap(angle)
  {
    hide Length2, At, MixedBy;
    LengthExact(c, r.index, j, dx, dy);
    a := 0.0;
    if Length2(c, r.index, j) >= 0.00001 { a :| MixedBy(g, c, r, j, a); }
    turn := g.wrap(At(c.yaw, r.index) - At(c.yaw, j));
    angle := At(c.yaw, j) + a * turn;
    if Length2(c, r.index, j) >= 0.00001 { MixedExact(g, c, r, j, a, turn, angle); }
  }

  /** No point of the segment is closer. */
  lemma FootClosest(g: Geometry, p: Pose, c: Columns, r: Nearest, j: int, b: real, dx: real, dy: real,
                    qx: real, qy: real)
    requires r.Nearest? && IsFoot(g, p, c, r, j) && 0.0 <= b <= 1.0
    requires dx == At(c.x, r.index) - At(c.x, j) && dy == At(c.y, r.index) - At(c.y, j) && dx * dx + dy * dy >= 0.00001
    requires qx == b * At(c.x, r.index) + (1.0 - b) * At(c.x, j) && qy == b * At(c.y, r.index) + (1.0 - b) * At(c.y, j)
    ensures (p.x - r.pose.x) * (p.x - r.pose.x) + (p.y - r.pose.y) * (p.y - r.pose.y)
            <= (p.x - qx) * (p.x - qx) + (p.y - qy) * (p.y - qy)
  {
    hide Length2, At, MixedBy, Apart;
    LengthExact(c, r.index, j, dx, dy);
    var q := OnLine(c, r.index, j, b);
    assert Apart(p, r.pose) <= Apart(p, q);
    assert q.x == qx && q.y == qy;
    ApartExact(p, r.pose);
    ApartExact(p, q);
  }

  lemma ApartExact(p: Pose, q: Pose)
    ensures Apart(p, q) == (p.x - q.x) * (p.x - q.x) + (p.y - q.y) * (p.y - q.y)
  {
  }

  /** The data are accepted within the position and angle errors when the trajectory is long enough. */
  lemma AcceptedExact(cycle: Cycle, pose: Pose, at: Nearest, time: seq<real>)
    requires at.Nearest? && |time| > 0
    ensures cycle.PredictionTime() ==
            (cycle.param.horizon - 1) as real * cycle.param.dt + cycle.inputDelay + cycle.param.ctrlPeriod
    ensures CloseEnough(cycle.g, cycle.param, pose, at.pose) <==>
            && cycle.g.planar(pose.x - at.pose.x, pose.y - at.pose.y) <= cycle.param.admissiblePositionError
            && -cycle.param.admissibleYawError <= cycle.g.wrap(pose.yaw - at.pose.yaw) <= cycle.param.admissibleYawError
    ensures cycle.EndsBy(at.time, time) <==>
            at.time + 2.0 * cycle.inputDelay + (cycle.param.horizon - 1) as real * cycle.param.dt
              + cycle.param.ctrlPeriod
            <= time[|time| - 1]
  {
  }

  // ---- the delay --------------------------------------------------------------------------------

  /** The nearest integer, a half away from zero. */
  lemma RoundExact(x: real)
    ensures x >= 0.0 ==> x - 0.5 < Round(x) as real <= x + 0.5
    ensures x < 0.0 ==> x - 0.5 <= Round(x) as real < x + 0.5
  {
  }

  /** The state moves on by one control period under each buffered command, oldest first. */
  lemma DelayedExact(v: Vehicle, p: CycleParam, c: Columns, start: real, buffer: seq<real>, x: Vec, i: nat)
    requires i < |buffer| && |c.k| == |c.vx| == |c.time|
    requires var q := start + i as real * p.ctrlPeriod; InRange(c.time, q)
    ensures Delayed(v, p, c, start, buffer, x, 0) == x
    ensures var q := start + i as real * p.ctrlPeriod;
      var d := v.discretize(Interpolated(c.time, c.vx, q), Interpolated(c.time, c.k, q), p.ctrlPeriod);
      Delayed(v, p, c, start, buffer, x, i + 1) == Next(v.nx, d, Delayed(v, p, c, start, buffer, x, i), buffer[i])
  {
    hide Interpolated, Next;
  }

  lemma AnswerableExact(cycle: Cycle, c: Columns, start: real, i: nat)
    ensures cycle.Answerable(c, start, i) <==>
            var q := start + i as real * cycle.param.ctrlPeriod;
            && |c.time| > 0 && |c.k| == |c.vx| == |c.time| && Sorted(c.time)
            && c.time[0] <= q <= c.time[|c.time| - 1]
  {
  }

  // ---- the filter and the samples ---------------------------------------------------------------

  /** The last two velocities are 0 and the last time is the prediction time and 100 s after the one before. */
  lemma FilteredEnd(g: Geometry, pose: Pose, c: Columns, v0: real, p: CycleParam, predictionTime: real,
      smoothed: seq<real>, out: Columns)
    requires Filtered(g, pose, c, v0, p, predictionTime, smoothed, out)
    ensures var n := |c.x|;
      && n > 0 && Aligned(c, n) && Aligned(out, n + 1) && |smoothed| == n
      && out.vx[n - 1] == out.vx[n] == 0.0 && out.time[n] == out.time[n - 1] + predictionTime + 100.0
      && out.x[n] == c.x[n - 1] && out.y[n] == c.y[n - 1] && out.z[n] == c.z[n - 1] && out.yaw[n] == c.yaw[n - 1]
      && out.k[n] == c.k[n - 1] && out.smoothK[n] == c.smoothK[n - 1]
    ensures forall i :: 0 <= i < |c.x| ==>
      && out.x[i] == c.x[i] && out.y[i] == c.y[i] && out.z[i] == c.z[i] && out.yaw[i] == c.yaw[i]
      && out.k[i] == c.k[i] && out.smoothK[i] == c.smoothK[i]
      && (i < |c.x| - 1 ==> out.vx[i] == smoothed[i])
  {
    hide IsNearest, Smoothed, Timed;
  }

  /** Velocities behind the nearest point stay; there the measured one is put, and from there on they are smoothed. */
  lemma FilteredVelocities(g: Geometry, pose: Pose, c: Columns, v0: real, p: CycleParam, predictionTime: real,
      smoothed: seq<real>, out: Columns) returns (idx: int)
    requires Filtered(g, pose, c, v0, p, predictionTime, smoothed, out)
    ensures |c.x| == |c.y| == |c.vx| == |smoothed| && 0 <= idx < |c.x| && IsNearest(g, pose, c, |c.x|, idx)
    ensures smoothed[idx] == v0 && forall j :: 0 <= j < idx ==> smoothed[j] == c.vx[j]
    ensures forall j :: idx < j < |c.x| ==>
      smoothed[j] == SmoothStep(smoothed[j - 1], g.planar(c.x[j] - c.x[j - 1], c.y[j] - c.y[j - 1]), c.vx[j],
                                p.accelerationLimit, p.velocityTimeConstant)
  {
    hide IsNearest, SmoothStep;
    idx :| IsNearest(g, pose, c, |c.x|, idx)
           && Smoothed(g, c.x, c.y, c.vx, smoothed, idx, v0, p.accelerationLimit, p.velocityTimeConstant, |c.x|);
    forall j | idx < j < |c.x|
      ensures SegmentLength(g, c.x, c.y, j) == g.planar(c.x[j] - c.x[j - 1], c.y[j] - c.y[j - 1])
    {}
  }

  /** Each angle differs from the one before by a wrapped angle. */
  lemma UnwrappedExact(g: Geometry, a: seq<real>, b: seq<real>, i: nat)
    requires Unwrapped(g, a, b) && i + 1 < |a|
    ensures |b| == |a| && b[0] == a[0] && b[i + 1] - b[i] == g.wrap(a[i + 1] - b[i])
  {
  }

  /** Every column is read at the m-th sampling time. */
  lemma HandedExact(cycle: Cycle, t: Columns, at: Nearest, yaw: seq<real>, start: Vec, x0: Vec, resampled: Columns,
      m: nat)
    requires cycle.Handed(t, at, yaw, start, x0, resampled) && m < cycle.param.horizon
    ensures at.Nearest? && |t.time| > 0 && Aligned(t, |t.time|) && |yaw| == |t.time|
    ensures Aligned(resampled, cycle.param.horizon)
    ensures var q := at.time + cycle.inputDelay + m as real * cycle.param.dt;
      && InRange(t.time, q)
      && resampled.x[m] == Interpolated(t.time, t.x, q) && resampled.y[m] == Interpolated(t.time, t.y, q)
      && resampled.z[m] == Interpolated(t.time, t.z, q) && resampled.yaw[m] == Interpolated(t.time, yaw, q)
      && resampled.vx[m] == Interpolated(t.time, t.vx, q) && resampled.k[m] == Interpolated(t.time, t.k, q)
      && resampled.smoothK[m] == Interpolated(t.time, t.smoothK, q)
      && resampled.time[m] == Interpolated(t.time, t.time, q)
  {
    hide Interpolated, Delayed;
    assert cycle.SampleTimes(at.time + cycle.inputDelay)[m] == at.time + cycle.inputDelay + m as real * cycle.param.dt;
  }
}
