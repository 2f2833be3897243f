/** The controller's trajectory columns and the operations that rewrite them. */
module MpcTrajectories {
  import opened Reals
  import opened Matchings
  import opened Interpolation

  /** Lengths of segments and wrapped angles: the square root and the trigonometry stay abstract. */
  datatype Geometry = Geometry(planar: (real, real) -> real, spatial: (real, real, real) -> real, wrap: real -> real)

  ghost predicate Lengths(g: Geometry) {
    (forall dx, dy :: Planar(g, dx, dy) >= 0.0) && (forall dx, dy, dz :: Spatial(g, dx, dy, dz) >= 0.0)
  }

  function Planar(g: Geometry, dx: real, dy: real): real { g.planar(dx, dy) }

  function Spatial(g: Geometry, dx: real, dy: real, dz: real): real { g.spatial(dx, dy, dz) }

  function Wrap(g: Geometry, angle: real): real { g.wrap(angle) }

  // ---- the time column --------------------------------------------------------------------------

  /** The time from point i to point i + 1, at no less than 0.1 m/s. */
  function Duration(g: Geometry, x: seq<real>, y: seq<real>, z: seq<real>, vx: seq<real>, i: int): real {
    Spatial(g, At(x, i + 1) - At(x, i), At(y, i + 1) - At(y, i), At(z, i + 1) - At(z, i)) / Max(Abs(At(vx, i)), 0.1)
  }

  function TimeAt(g: Geometry, x: seq<real>, y: seq<real>, z: seq<real>, vx: seq<real>, i: nat): real {
    if i == 0 then 0.0 else TimeAt(g, x, y, z, vx, i - 1) + Duration(g, x, y, z, vx, i - 1)
  }

  /** The column holds the time to reach each point, from 0 at the first. */
  ghost predicate Timed(g: Geometry, x: seq<real>, y: seq<real>, z: seq<real>, vx: seq<real>, time: seq<real>) {
    |time| == |x| && forall i :: 0 <= i < |x| ==> time[i] == TimeAt(g, x, y, z, vx, i)
  }

  lemma DurationIs(g: Geometry, x: seq<real>, y: seq<real>, z: seq<real>, vx: seq<real>, i: nat)
    requires i + 1 < |x| && i + 1 < |y| && i + 1 < |z| && i < |vx|
    ensures Max(Abs(vx[i]), 0.1) != 0.0
    ensures Duration(g, x, y, z, vx, i)
            == Spatial(g, x[i + 1] - x[i], y[i + 1] - y[i], z[i + 1] - z[i]) / Max(Abs(vx[i]), 0.1)
  {
  }

  lemma DurationNonNegative(g: Geometry, x: seq<real>, y: seq<real>, z: seq<real>, vx: seq<real>, i: int)
    requires Lengths(g)
    ensures Duration(g, x, y, z, vx, i) >= 0.0
  {
    DivMono(0.0, Spatial(g, At(x, i + 1) - At(x, i), At(y, i + 1) - At(y, i), At(z, i + 1) - At(z, i)),
        Max(Abs(At(vx, i)), 0.1));
  }

  lemma {:induction false} TimesIncrease(g: Geometry, x: seq<real>, y: seq<real>, z: seq<real>, vx: seq<real>, i: nat,
      j: nat)
    requires Lengths(g) && i <= j
    ensures TimeAt(g, x, y, z, vx, i) <= TimeAt(g, x, y, z, vx, j)
  {
    if i < j {
      TimesIncrease(g, x, y, z, vx, i, j - 1);
      DurationNonNegative(g, x, y, z, vx, j - 1);
    }
  }

  /** Times start at zero and never decrease. */
  lemma TimedIsSorted(g: Geometry, x: seq<real>, y: seq<real>, z: seq<real>, vx: seq<real>, time: seq<real>)
    requires Lengths(g) && Timed(g, x, y, z, vx, time) && |x| > 0
    ensures time[0] == 0.0 && Sorted(time)
  {
    forall i, j | 0 <= i < j < |time| ensures time[i] <= time[j] { TimesIncrease(g, x, y, z, vx, i, j); }
  }

  /** From point to point the time grows by the length over the speed, and by no more than at 0.1 m/s. */
  lemma TimedExact(g: Geometry, x: seq<real>, y: seq<real>, z: seq<real>, vx: seq<real>, time: seq<real>, i: nat)
    requires Timed(g, x, y, z, vx, time) && i + 1 < |x| && i + 1 < |y| && i + 1 < |z| && i < |vx|
    ensures |time| == |x| && time[0] == 0.0
    ensures (time[i + 1] - time[i]) * (if vx[i] > 0.1 then vx[i] else if vx[i] < -0.1 then -vx[i] else 0.1)
            == g.spatial(x[i + 1] - x[i], y[i + 1] - y[i], z[i + 1] - z[i])
  {
    hide Duration;
    DurationIs(g, x, y, z, vx, i);
    assert TimeAt(g, x, y, z, vx, i + 1) == TimeAt(g, x, y, z, vx, i) + Duration(g, x, y, z, vx, i);
    var q, d := time[i + 1] - time[i], Max(Abs(vx[i]), 0.1);
    assert q * d == Spatial(g, x[i + 1] - x[i], y[i + 1] - y[i], z[i + 1] - z[i]);
  }

  // ---- smoothing the velocity -------------------------------------------------------------------

  /** The time the code gives a segment of length ds at velocity v. */
  function SegmentTime(ds: real, v: real): real { ds / Max(Abs(v), EPSILON) }

  /** The velocity one segment on: a first-order lag towards the target, limited in acceleration. */
  function SmoothStep(v: real, ds: real, target: real, accLim: real, tau: real): real {
    var dt := SegmentTime(ds, v);
    var d := Max(tau + dt, EPSILON);
    var a := tau / d;
    var updated := a * v + (1.0 - a) * target;
    v + Max(-accLim * dt, Min(accLim * dt, updated - v))
  }

  function Between(p: real, v: real, q: real): bool { Min(p, q) <= v <= Max(p, q) }

  lemma SegmentTimeNonNegative(ds: real, v: real)
    requires ds >= 0.0
    ensures SegmentTime(ds, v) >= 0.0
  {
    DivMono(0.0, ds, Max(Abs(v), EPSILON));
  }

  /** A blend with a weight between 0 and 1 lies between its two values. */
  lemma BlendBetween(a: real, v: real, target: real)
    requires 0.0 <= a <= 1.0
    ensures Between(v, a * v + (1.0 - a) * target, target)
  {
    var m := a * v + (1.0 - a) * target;
    Blend(v, target, a, 1.0 - a, 1.0, m);
  }

  lemma LagWeight(tau: real, dt: real)
    requires tau >= 0.0 && dt >= 0.0
    ensures 0.0 <= tau / Max(tau + dt, EPSILON) <= 1.0
  {
    var d := Max(tau + dt, EPSILON);
    DivMono(0.0, tau, d);
    DivMono(tau, d, d);
    Quotient(d, d, 1.0);
  }

  /** A step stays between the velocity it starts from and the original one, and within the acceleration limit. */
  lemma SmoothStepBounds(v: real, ds: real, target: real, accLim: real, tau: real)
    requires ds >= 0.0 && accLim >= 0.0 && tau >= 0.0
    ensures Between(v, SmoothStep(v, ds, target, accLim, tau), target)
    ensures Abs(SmoothStep(v, ds, target, accLim, tau) - v) <= accLim * SegmentTime(ds, v)
  {
    hide SegmentTime;
    var dt := SegmentTime(ds, v);
    SegmentTimeNonNegative(ds, v);
    LagWeight(tau, dt);
    BlendBetween(tau / Max(tau + dt, EPSILON), v, target);
    MulMono(accLim, 0.0, dt);
    assert -accLim * dt == -(accLim * dt);
  }

  /**
   * One step, from the time dt the segment takes and the lag weight a: the blend of the old velocity and the target,
   * moved by at most the acceleration limit over that time.
   */
  lemma SmoothStepExact(v: real, ds: real, target: real, accLim: real, tau: real, dt: real, a: real, step: real,
      blend: real)
    requires dt * (if v > 1.0 / 4503599627370496.0 then v
                   else if v < -1.0 / 4503599627370496.0 then -v else 1.0 / 4503599627370496.0) == ds
    requires a * (if tau + dt > 1.0 / 4503599627370496.0 then tau + dt else 1.0 / 4503599627370496.0) == tau
    requires step == accLim * dt >= 0.0 && blend == a * v + (1.0 - a) * target
    ensures SmoothStep(v, ds, target, accLim, tau) ==
            if blend - v > step then v + step else if blend - v < -step then v - step else blend
  {
    hide SegmentTime, SmoothStep;
    SegmentTimeExact(v, ds, dt);
    LagExact(tau, dt, a);
    SmoothStepIs(v, ds, target, accLim, tau, step, blend);
  }

  lemma SmoothStepIs(v: real, ds: real, target: real, accLim: real, tau: real, step: real, blend: real)
    requires step == accLim * SegmentTime(ds, v) && Max(tau + SegmentTime(ds, v), EPSILON) != 0.0
    requires var a := tau / Max(tau + SegmentTime(ds, v), EPSILON); blend == a * v + (1.0 - a) * target
    ensures SmoothStep(v, ds, target, accLim, tau) == v + Max(-step, Min(step, blend - v))
  {
    hide SegmentTime;
    assert -accLim * SegmentTime(ds, v) == -step;
  }

  lemma LagExact(tau: real, dt: real, a: real)
    requires a * (if tau + dt > 1.0 / 4503599627370496.0 then tau + dt else 1.0 / 4503599627370496.0) == tau
    ensures Max(tau + dt, EPSILON) != 0.0 && tau / Max(tau + dt, EPSILON) == a
  {
    Quotient(tau, Max(tau + dt, EPSILON), a);
  }

  lemma SegmentTimeExact(v: real, ds: real, dt: real)
    requires dt * (if v > 1.0 / 4503599627370496.0 then v
                   else if v < -1.0 / 4503599627370496.0 then -v else 1.0 / 4503599627370496.0) == ds
    ensures SegmentTime(ds, v) == dt
  {
    Quotient(ds, Max(Abs(v), EPSILON), dt);
  }

  /** vx is `before` smoothed from point `start` on. */
  ghost predicate Smoothed(g: Geometry, x: seq<real>, y: seq<real>, before: seq<real>, vx: seq<real>,
                           start: int, startVel: real, accLim: real, tau: real, n: int) {
    && |vx| == |before| && 0 <= start < n <= |vx|
    && (forall j :: 0 <= j < |vx| && (j < start || n <= j) ==> vx[j] == before[j])
    && vx[start] == startVel
    && (forall j :: start < j < n ==> vx[j] == SmoothStep(vx[j - 1], SegmentLength(g, x, y, j), before[j], accLim, tau))
  }

  /** One segment more is smoothed. */
  lemma SmoothedStep(g: Geometry, x: seq<real>, y: seq<real>, before: seq<real>, vx: seq<real>,
                     start: int, startVel: real, accLim: real, tau: real, i: int, v: real)
    requires Smoothed(g, x, y, before, vx, start, startVel, accLim, tau, i) && i < |vx|
    requires v == SmoothStep(vx[i - 1], SegmentLength(g, x, y, i), vx[i], accLim, tau)
    ensures Smoothed(g, x, y, before, vx[i := v], start, startVel, accLim, tau, i + 1)
  {
    hide SmoothStep, SegmentLength;
  }

  lemma SmoothedStart(g: Geometry, x: seq<real>, y: seq<real>, before: seq<real>, start: int, startVel: real,
      accLim: real, tau: real)
    requires 0 <= start < |before|
    ensures Smoothed(g, x, y, before, before[start := startVel], start, startVel, accLim, tau, start + 1)
  {
  }

  function SegmentLength(g: Geometry, x: seq<real>, y: seq<real>, j: int): real {
    Planar(g, At(x, j) - At(x, j - 1), At(y, j) - At(y, j - 1))
  }

  /** Smoothed velocities stay in the hull of the start velocity and the original ones. */
  lemma {:induction false} SmoothedInHull(g: Geometry, x: seq<real>, y: seq<real>, before: seq<real>, vx: seq<real>,
      start: int, startVel: real, accLim: real, tau: real, n: int, lo: real, hi: real, j: int)
    requires Lengths(g) && accLim >= 0.0 && tau >= 0.0 && Smoothed(g, x, y, before, vx, start, startVel, accLim, tau, n)
    requires lo <= startVel <= hi && forall m :: start < m < n ==> lo <= before[m] <= hi
    requires start <= j < n
    ensures lo <= vx[j] <= hi
    decreases j
  {
    if j > start {
      SmoothedInHull(g, x, y, before, vx, start, startVel, accLim, tau, n, lo, hi, j - 1);
      SmoothStepBounds(vx[j - 1], SegmentLength(g, x, y, j), before[j], accLim, tau);
    }
  }

  /** Successive velocities differ by at most the acceleration limit over the segment's time. */
  lemma SmoothedIsLimited(g: Geometry, x: seq<real>, y: seq<real>, before: seq<real>, vx: seq<real>, start: int,
      startVel: real, accLim: real, tau: real, n: int, j: int)
    requires Lengths(g) && accLim >= 0.0 && tau >= 0.0 && Smoothed(g, x, y, before, vx, start, startVel, accLim, tau, n)
    requires start < j < n
    ensures Abs(vx[j] - vx[j - 1]) <= accLim * SegmentTime(SegmentLength(g, x, y, j), vx[j - 1])
    ensures Between(vx[j - 1], vx[j], before[j])
  {
    hide SegmentTime;
    SmoothStepBounds(vx[j - 1], SegmentLength(g, x, y, j), before[j], accLim, tau);
  }

  // ---- the trajectory object --------------------------------------------------------------------

  /** The columns as one value. */
  datatype Columns = Columns(x: seq<real>, y: seq<real>, z: seq<real>, yaw: seq<real>, vx: seq<real>,
                             k: seq<real>, smoothK: seq<real>, time: seq<real>)

  predicate Aligned(c: Columns, n: nat) {
    |c.x| == |c.y| == |c.z| == |c.yaw| == |c.vx| == |c.k| == |c.smoothK| == |c.time| == n
  }

  class MPCTrajectory {
    var x: seq<real>
    var y: seq<real>
    var z: seq<real>
    var yaw: seq<real>
    var vx: seq<real>
    var k: seq<real>
    var smoothK: seq<real>
    var relativeTime: seq<real>

    function All(): Columns
      reads this
    {
      Columns(x, y, z, yaw, vx, k, smoothK, relativeTime)
    }

    constructor Copy(from: Columns)
      ensures All() == from
    {
      x, y, z, yaw := from.x, from.y, from.z, from.yaw;
      vx, k, smoothK, relativeTime := from.vx, from.k, from.smoothK, from.time;
    }

    /** Appends a point; columns of equal length stay of equal length. */
    method PushBack(xp: real, yp: real, zp: real, yawp: real, vxp: real, kp: real, smoothKp: real, tp: real)
      modifies this
      ensures All() == old(Columns(x + [xp], y + [yp], z + [zp], yaw + [yawp], vx + [vxp], k + [kp],
        smoothK + [smoothKp], relativeTime + [tp]))
      ensures forall n: nat :: old(Aligned(All(), n)) <==> Aligned(All(), n + 1)
    {
      x := x + [xp];
      y := y + [yp];
      z := z + [zp];
      yaw := yaw + [yawp];
      vx := vx + [vxp];
      k := k + [kp];
      smoothK := smoothK + [smoothKp];
      relativeTime := relativeTime + [tp];
    }

    /** The common length of the columns, or 0 when they have none. */
    function Size(): (n: nat)
      reads this
      ensures n > 0 ==> Aligned(All(), n)
      ensures forall m: nat :: Aligned(All(), m) ==> n == m
    {
      if |x| == |y| == |z| == |yaw| == |vx| == |k| == |smoothK| == |relativeTime| then |x| else 0
    }

    /** How many segments of the trajectory have all the entries their time is read from. */
    function ReadableSegments(): (n: nat)
      reads this`x, this`y, this`z, this`vx
    {
      var n := Least(Least(|x| - 1, |y| - 1), Least(|z| - 1, |vx|));
      if n < 0 then 0 else n
    }

    /** Rewrites the time column; a point or an entry that is missing makes the bounds-checked access throw. */
    method CalcMPCTrajectoryTime(g: Geometry) returns (ok: bool)
      modifies this`relativeTime
      ensures |relativeTime| == ReadableSegments() + 1
      ensures ok <==> |relativeTime| == |x|
      ensures forall j :: 0 <= j < |relativeTime| ==> relativeTime[j] == TimeAt(g, x, y, z, vx, j)
      ensures ok ==> Timed(g, x, y, z, vx, relativeTime)
    {
      hide Duration, Max, Abs;
      var t := 0.0;
      relativeTime := [t];
      if |x| == 0 { return false; }
      for i := 0 to |x| - 1
        invariant |relativeTime| == i + 1 <= ReadableSegments() + 1 && t == TimeAt(g, x, y, z, vx, i)
        invariant forall j :: 0 <= j <= i ==> relativeTime[j] == TimeAt(g, x, y, z, vx, j)
      {
        if i + 1 >= |y| || i + 1 >= |z| || i >= |vx| { return false; }
        var dist := Spatial(g, x[i + 1] - x[i], y[i + 1] - y[i], z[i + 1] - z[i]);
        var v := Max(Abs(vx[i]), 0.1);
        DurationIs(g, x, y, z, vx, i);
        t := t + dist / v;
        relativeTime := relativeTime + [t];
      }
      return true;
    }

    /**
     * Smooths the velocities from `start` on, in place, and rewrites the time column. Of columns of unequal length only
     * the velocity at `start` and the times are rewritten; what is not there makes the access throw.
     */
    method DynamicSmoothingVelocity(g: Geometry, start: nat, startVel: real, accLim: real, tau: real) returns (ok: bool)
      modifies this`vx, this`relativeTime
      ensures start < old(Size()) ==> ok && Smoothed(g, x, y, old(vx), vx, start, startVel, accLim, tau, |x|)
      ensures old(Size()) <= start < old(|vx|) ==>
        vx == old(vx)[start := startVel] && (ok <==> |x| == ReadableSegments() + 1)
      ensures start >= old(|vx|) ==> !ok && vx == old(vx) && relativeTime == old(relativeTime)
      ensures ok ==> Timed(g, x, y, z, vx, relativeTime)
    {
      hide SmoothStep, SegmentTime, Smoothed, Timed, TimeAt;
      if start >= |vx| { return false; }
      SmoothedStart(g, x, y, vx, start, startVel, accLim, tau);
      var currV := startVel;
      vx := vx[start := startVel];
      var i := start + 1;
      while i < Size()
        invariant Size() == old(Size()) && |vx| == old(|vx|) && start < i
        invariant start < Size() ==> i <= Size() && Smoothed(g, x, y, old(vx), vx, start, startVel, accLim, tau, i)
        invariant start < Size() ==> currV == vx[i - 1]
        invariant Size() <= start ==> vx == old(vx)[start := startVel]
        modifies this`vx
      {
        var ds := Planar(g, x[i] - x[i - 1], y[i] - y[i - 1]);
        assert ds == SegmentLength(g, x, y, i);
        SmoothedStep(g, x, y, old(vx), vx, start, startVel, accLim, tau, i, SmoothStep(currV, ds, vx[i], accLim, tau));
        currV := SmoothStep(currV, ds, vx[i], accLim, tau);
        vx := vx[i := currV];
        i := i + 1;
      }
      ok := CalcMPCTrajectoryTime(g);
    }
  }

  function Least(a: int, b: int): int { if a <= b then a else b }
}
