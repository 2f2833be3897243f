/** The longitudinal controller's state machine, its clock and its emergency command. */
module LongitudinalControl {
  import opened Reals

  datatype ControlState = DRIVE | STOPPING | STOPPED | EMERGENCY

  datatype TransitionParam = TransitionParam(driveStopDist: real, driveOffsetStopDist: real, stoppingStopDist: real,
                                             stoppedEntryVel: real, stoppedEntryAcc: real,
                                             emergencyOvershootStopDist: real, enableSmoothStop: bool,
                                             enableOvershootEmergency: bool)

  datatype Motion = Motion(vel: real, acc: real)

  /** The commanded motion of the stopped and the emergency state, and how fast it may be approached. */
  datatype HoldParam = HoldParam(vel: real, acc: real, jerk: real)

  // ---- the transitions --------------------------------------------------------------------------

  predicate DepartsFromStopping(p: TransitionParam, d: real) { d > p.driveStopDist + p.driveOffsetStopDist }

  predicate DepartsFromStopped(p: TransitionParam, d: real) { d > p.driveStopDist }

  predicate NearStop(p: TransitionParam, d: real) { d < p.stoppingStopDist }

  predicate Overshot(p: TransitionParam, d: real) { p.enableOvershootEmergency && d < -p.emergencyOvershootStopDist }

  /** The next state at distance d from the stop line, given whether the vehicle has stood still long enough. */
  function NextState(p: TransitionParam, s: ControlState, d: real, stopped: bool): ControlState {
    match s
    case DRIVE =>
      if Overshot(p, d) then EMERGENCY
      else if p.enableSmoothStop then (if NearStop(p, d) then STOPPING else DRIVE)
      else if stopped && !DepartsFromStopped(p, d) then STOPPED
      else DRIVE
    case STOPPING =>
      if Overshot(p, d) then EMERGENCY
      else if stopped then STOPPED
      else if DepartsFromStopping(p, d) then DRIVE
      else STOPPING
    case STOPPED =>
      if DepartsFromStopped(p, d) then DRIVE else STOPPED
    case EMERGENCY =>
      if stopped && !Overshot(p, d) then STOPPED else EMERGENCY
  }

  predicate Running(p: TransitionParam, vel: real, acc: real) {
    Abs(vel) > p.stoppedEntryVel || Abs(acc) > p.stoppedEntryAcc
  }

  /** One call: the measured motion and the two clock readings the call may take. */
  datatype Tick = Tick(vel: real, acc: real, stamp: real, reading: real)

  function LastRunning(p: TransitionParam, last: real, t: Tick): real {
    if Running(p, t.vel, t.acc) then t.stamp else last
  }

  predicate StoodStill(p: TransitionParam, last: real, t: Tick) {
    t.reading - LastRunning(p, last, t) > 0.5
  }

  // ---- how often the state can change at a fixed distance ---------------------------------------

  /** How many of the calls changed the state. */
  function Changes(p: TransitionParam, d: real, s: ControlState, last: real, ticks: seq<Tick>): nat
    decreases |ticks|
  {
    if ticks == [] then 0
    else
      var next := NextState(p, s, d, StoodStill(p, last, ticks[0]));
      (if next == s then 0 else 1) + Changes(p, d, next, LastRunning(p, last, ticks[0]), ticks[1..])
  }

  /** At distance d a driving vehicle is told to stop and a stopping or stopped one to drive. */
  predicate Cycles(p: TransitionParam, d: real) {
    && p.enableSmoothStop && NearStop(p, d) && !Overshot(p, d)
    && (DepartsFromStopped(p, d) || DepartsFromStopping(p, d))
  }

  /** The longest way a state can still go where there is no cycle. */
  function Rank(p: TransitionParam, d: real, s: ControlState): nat {
    match s
    case DRIVE => if Overshot(p, d) then 1 else if p.enableSmoothStop then (if NearStop(p, d) then 2 else 0)
                  else if DepartsFromStopped(p, d) then 0 else 1
    case STOPPED => if !DepartsFromStopped(p, d) then 0 else if Overshot(p, d) then 2 else 1
    case STOPPING => if Overshot(p, d) || (p.enableSmoothStop && NearStop(p, d)) then 1 else 2
    case EMERGENCY => if Overshot(p, d) then 0 else if DepartsFromStopped(p, d) then 2 else 1
  }

  lemma RankFalls(p: TransitionParam, d: real, s: ControlState, stopped: bool)
    requires !Cycles(p, d)
    ensures Rank(p, d, s) <= 2
    ensures var next := NextState(p, s, d, stopped); next != s ==> Rank(p, d, next) < Rank(p, d, s)
  {
  }

  lemma {:induction false} ChangesBounded(p: TransitionParam, d: real, s: ControlState, last: real, ticks: seq<Tick>)
    requires !Cycles(p, d)
    ensures Changes(p, d, s, last, ticks) <= Rank(p, d, s) <= 2
    decreases |ticks|
  {
    hide Cycles, Rank;
    RankFalls(p, d, s, false);
    if ticks != [] {
      var stopped := StoodStill(p, last, ticks[0]);
      RankFalls(p, d, s, stopped);
      ChangesBounded(p, d, NextState(p, s, d, stopped), LastRunning(p, last, ticks[0]), ticks[1..]);
    }
  }

  /** Clock readings that start at `from`, go forward within a call, and by at least `gap` from one call to the next. */
  ghost predicate Paced(from: real, gap: real, ticks: seq<Tick>) {
    && (forall i :: 0 <= i < |ticks| ==> from <= ticks[i].stamp <= ticks[i].reading)
    && (forall i, j :: 0 <= i < j < |ticks| ==> ticks[i].reading + gap <= ticks[j].stamp)
  }

  lemma PacedBefore(t: Tick, now: real, gap: real, rest: seq<Tick>)
    requires gap >= 0.0 && now == t.stamp <= t.reading && Paced(t.reading + gap, gap, rest)
    ensures Paced(now, gap, [t] + rest)
  {
    var ticks := [t] + rest;
    forall i | 0 <= i < |ticks| ensures now <= ticks[i].stamp <= ticks[i].reading {
      if i > 0 { assert ticks[i] == rest[i - 1]; }
    }
    forall i, j | 0 <= i < j < |ticks| ensures ticks[i].reading + gap <= ticks[j].stamp {
      assert ticks[j] == rest[j - 1];
      if i > 0 { assert ticks[i] == rest[i - 1]; }
    }
  }

  /** A call at `now` that finds the vehicle standing still or, over a threshold, running. */
  function Choose(p: TransitionParam, now: real, still: bool): Tick {
    if still then Tick(0.0, 0.0, now, now + 1.0) else Tick(Max(p.stoppedEntryVel, 0.0) + 1.0, 0.0, now, now)
  }

  lemma ChooseWorks(p: TransitionParam, last: real, now: real, still: bool)
    requires last <= now
    ensures StoodStill(p, last, Choose(p, now, still)) == still
    ensures LastRunning(p, last, Choose(p, now, still)) <= now
  {
  }

  /** The states gone round: through STOPPED when the vehicle is found standing still, else between two states. */
  predicate OnCycle(s: ControlState, still: bool) { s == DRIVE || s == STOPPING || (still && s == STOPPED) }

  lemma CycleStep(p: TransitionParam, d: real, s: ControlState)
    requires Cycles(p, d) && OnCycle(s, !DepartsFromStopping(p, d))
    ensures var next := NextState(p, s, d, !DepartsFromStopping(p, d));
            next != s && OnCycle(next, !DepartsFromStopping(p, d))
  {
  }

  /**
   * On a cycle the state can change at every one of any number of calls, under a clock that goes forward by any wanted
   * time from call to call. Either every call finds the vehicle standing still or every call finds it running.
   */
  lemma {:induction false} CyclesForever(p: TransitionParam, d: real, s: ControlState, last: real, now: real,
      gap: real, n: nat)
    returns (ticks: seq<Tick>)
    requires Cycles(p, d) && OnCycle(s, !DepartsFromStopping(p, d)) && gap >= 0.0 && last <= now
    ensures |ticks| == n && Paced(now, gap, ticks)
    ensures Changes(p, d, s, last, ticks) == n
    ensures forall i :: 0 <= i < n ==> ticks[i] == Choose(p, ticks[i].stamp, !DepartsFromStopping(p, d))
    decreases n
  {
    hide NextState, Paced, Cycles, OnCycle;
    if n == 0 {
      ticks := [];
      NoTicksPaced(now, gap);
    } else {
      var still := !DepartsFromStopping(p, d);
      var t := Choose(p, now, still);
      CycleStep(p, d, s);
      ChooseWorks(p, last, now, still);
      var rest := CyclesForever(p, d, NextState(p, s, d, still), LastRunning(p, last, t), t.reading + gap, gap, n - 1);
      PacedBefore(t, now, gap, rest);
      ticks := [t] + rest;
      assert ticks[1..] == rest;
    }
  }

  lemma NoTicksPaced(now: real, gap: real)
    ensures Paced(now, gap, [])
  {
  }

  /** Whether some distance lets the state cycle can be read off the parameters. */
  predicate CanCycle(p: TransitionParam) {
    && p.enableSmoothStop
    && Min(p.driveStopDist, p.driveStopDist + p.driveOffsetStopDist) < p.stoppingStopDist
    && (p.enableOvershootEmergency ==> -p.emergencyOvershootStopDist < p.stoppingStopDist)
  }

  lemma CanCycleIff(p: TransitionParam)
    ensures CanCycle(p) <==> exists d :: Cycles(p, d)
  {
    if CanCycle(p) {
      var low := Min(p.driveStopDist, p.driveStopDist + p.driveOffsetStopDist);
      var d := (low + p.stoppingStopDist) / 2.0;
      var e := if p.enableOvershootEmergency && d < -p.emergencyOvershootStopDist then -p.emergencyOvershootStopDist
          else d;
      assert Cycles(p, e);
    }
  }

  ghost predicate ChangesAtMostTwice(p: TransitionParam) {
    forall d: real, s: ControlState, last: real, ticks: seq<Tick> :: Changes(p, d, s, last, ticks) <= 2
  }

  /** The same of the runs under a clock that goes forward by at least `gap` from call to call. */
  ghost predicate PacedAtMostTwice(p: TransitionParam, gap: real) {
    forall d: real, s: ControlState, last: real, now: real, ticks: seq<Tick> ::
      last <= now && Paced(now, gap, ticks) ==> Changes(p, d, s, last, ticks) <= 2
  }

  /**
   * With the distance fixed, the state changes at most twice in every run exactly when the parameters leave
   * no cycle; and it makes no difference whether the clock may go back or runs forward at any pace.
   */
  lemma AtMostTwiceIff(p: TransitionParam)
    ensures ChangesAtMostTwice(p) <==> !CanCycle(p)
    ensures forall gap :: gap >= 0.0 ==> (PacedAtMostTwice(p, gap) <==> !CanCycle(p))
  {
    CanCycleIff(p);
    hide Cycles, CanCycle;
    if !CanCycle(p) {
      forall d: real, s: ControlState, last: real, ticks: seq<Tick> ensures Changes(p, d, s, last, ticks) <= 2 {
        assert !Cycles(p, d);
        ChangesBounded(p, d, s, last, ticks);
      }
    } else {
      var d :| Cycles(p, d);
      forall gap | gap >= 0.0 ensures !PacedAtMostTwice(p, gap) && !ChangesAtMostTwice(p) {
        var ticks := CyclesForever(p, d, DRIVE, 0.0, 0.0, gap, 3);
        assert Changes(p, d, DRIVE, 0.0, ticks) == 3;
      }
      var zero := 0.0;
      assert zero >= 0.0 && !PacedAtMostTwice(p, zero);
    }
  }

  /** The ordering of the distances that the configuration is meant to have is enough. */
  lemma OrderedDistances(p: TransitionParam)
    requires p.stoppingStopDist <= p.driveStopDist && p.driveOffsetStopDist >= 0.0
    ensures ChangesAtMostTwice(p)
  {
    AtMostTwiceIff(p);
  }

  // ---- the rate-limited approach ----------------------------------------------------------------

  function DiffLimit(input: real, prev: real, dt: real, maxVal: real, minVal: real): real
    requires dt != 0.0
  {
    prev + Min(Max((input - prev) / dt, minVal), maxVal) * dt
  }

  /** The overload with one symmetric limit. */
  function ApplyDiffLimitFilter(input: real, prev: real, dt: real, lim: real): real
    requires dt != 0.0
  {
    DiffLimit(input, prev, dt, Abs(lim), -Abs(lim))
  }

  /** A step of the filter: never past the input, and nearer by the whole limit unless it arrives. */
  lemma FilterApproaches(input: real, prev: real, dt: real, lim: real)
    requires dt > 0.0
    ensures var v := ApplyDiffLimitFilter(input, prev, dt, lim);
      && Min(prev, input) <= v <= Max(prev, input)
      && Abs(input - v) == Max(0.0, Abs(input - prev) - Abs(lim) * dt)
  {
    hide ApplyDiffLimitFilter, Clamp;
    var q, m := (input - prev) / dt, Abs(lim);
    FilterIs(input, prev, dt, lim);
    LimitedStep(q, m, dt, input - prev, Clamp(q, m) * dt, m * dt);
  }

  lemma FilterIs(input: real, prev: real, dt: real, lim: real)
    requires dt > 0.0
    ensures ApplyDiffLimitFilter(input, prev, dt, lim) == prev + Clamp((input - prev) / dt, Abs(lim)) * dt
  {
  }

  lemma LimitedStep(q: real, m: real, t: real, gap: real, step: real, cut: real)
    requires t > 0.0 && m >= 0.0 && q * t == gap && step == Clamp(q, m) * t && cut == m * t
    ensures Min(0.0, gap) <= step <= Max(0.0, gap) && Abs(gap - step) == Max(0.0, Abs(gap) - cut)
  {
    hide Clamp;
    ClampedProduct(q, m, t);
    MulMono(t, 0.0, m);
    StepApproaches(gap, step, cut);
  }

  function Clamp(q: real, m: real): real { Min(Max(q, -m), m) }

  lemma Ordered(a: real, b: real, t: real)
    requires t > 0.0
    ensures a < b <==> a * t < b * t
  {
    if a < b { MulStrict(t, a, b); } else { MulMono(t, b, a); }
  }

  /** Clamping a rate and clamping its product with the time are the same. */
  lemma ClampedProduct(q: real, m: real, t: real)
    requires t > 0.0 && m >= 0.0
    ensures Clamp(q, m) * t == if q * t > m * t then m * t else if q * t < -(m * t) then -(m * t) else q * t
  {
    Ordered(m, q, t);
    Ordered(q, -m, t);
    assert -m * t == -(m * t);
  }

  /** A clamped step towards a gap never overshoots it. */
  lemma StepApproaches(gap: real, step: real, cut: real)
    requires cut >= 0.0 && step == (if gap > cut then cut else if gap < -cut then -cut else gap)
    ensures Min(0.0, gap) <= step <= Max(0.0, gap)
    ensures Abs(gap - step) == Max(0.0, Abs(gap) - cut)
  {
  }

  /** The velocity after k emergency ticks of lengths dts. */
  function VelAfter(target: real, v: real, lim: real, dts: seq<real>, k: nat): real
    requires k <= |dts| && forall i :: 0 <= i < |dts| ==> dts[i] > 0.0
  {
    if k == 0 then v else ApplyDiffLimitFilter(target, VelAfter(target, v, lim, dts, k - 1), dts[k - 1], lim)
  }

  function PerTick(lim: real, minDt: real): real { Abs(lim) * minDt }

  lemma PerTickExact(lim: real, minDt: real)
    ensures PerTick(lim, minDt) == if lim >= 0.0 then lim * minDt else -(lim * minDt)
  {
  }

  /** The gap closes by at least the limit over the shortest tick, and never reopens. */
  lemma {:induction false} GapAfter(target: real, v: real, lim: real, dts: seq<real>, minDt: real, k: nat)
    requires minDt > 0.0 && k <= |dts| && forall i :: 0 <= i < |dts| ==> dts[i] >= minDt
    ensures Min(v, target) <= VelAfter(target, v, lim, dts, k) <= Max(v, target)
    ensures Abs(target - VelAfter(target, v, lim, dts, k)) <= Remaining(Abs(target - v), PerTick(lim, minDt), k)
    ensures k > 0 ==>
              Abs(target - VelAfter(target, v, lim, dts, k)) <= Abs(target - VelAfter(target, v, lim, dts, k - 1))
  {
    hide ApplyDiffLimitFilter, PerTick, Remaining;
    if k == 0 {
      GapStart(Abs(target - v), PerTick(lim, minDt));
    } else {
      GapAfter(target, v, lim, dts, minDt, k - 1);
      var w := VelAfter(target, v, lim, dts, k - 1);
      FilterApproaches(target, w, dts[k - 1], lim);
      TickStep(lim, minDt, dts[k - 1]);
      RemainingStep(Abs(target - v), PerTick(lim, minDt), k, Abs(target - w), Abs(lim) * dts[k - 1]);
    }
  }

  /** What is left of a gap after k steps of at least `step`. */
  function Remaining(gap: real, step: real, k: nat): real { Max(0.0, gap - k as real * step) }

  lemma GapStart(gap: real, step: real)
    requires gap >= 0.0
    ensures Remaining(gap, step, 0) == gap
  {
  }

  lemma RemainingStep(gap: real, step: real, k: nat, g: real, cut: real)
    requires k > 0 && 0.0 <= step <= cut && 0.0 <= g <= Remaining(gap, step, k - 1)
    ensures Max(0.0, g - cut) <= g && Max(0.0, g - cut) <= Remaining(gap, step, k)
  {
    TickCount(k, step);
  }

  lemma TickStep(lim: real, minDt: real, dt: real)
    requires 0.0 < minDt <= dt
    ensures 0.0 <= PerTick(lim, minDt) <= Abs(lim) * dt
  {
    MulMono(Abs(lim), minDt, dt);
    MulMono(Abs(lim), 0.0, minDt);
  }

  lemma TickCount(k: nat, step: real)
    requires k > 0
    ensures k as real * step == (k - 1) as real * step + step
  {
    assert k as real == (k - 1) as real + 1.0;
  }

  /** Once the ticks allow for the whole gap the emergency velocity is reached exactly, and kept. */
  lemma EmergencyArrives(target: real, v: real, lim: real, dts: seq<real>, minDt: real, k: nat)
    requires minDt > 0.0 && k <= |dts| && forall i :: 0 <= i < |dts| ==> dts[i] >= minDt
    requires k as real * PerTick(lim, minDt) >= Abs(target - v)
    ensures VelAfter(target, v, lim, dts, k) == target
  {
    hide PerTick, VelAfter;
    GapAfter(target, v, lim, dts, minDt, k);
  }

  lemma NoTicks(target: real, v: real, lim: real)
    ensures VelAfter(target, v, lim, [], 0) == v
  {
  }

  /** One tick more. */
  lemma VelAfterNext(target: real, v: real, lim: real, dts: seq<real>, dt: real)
    requires dt > 0.0 && forall i :: 0 <= i < |dts| ==> dts[i] > 0.0
    ensures VelAfter(target, v, lim, dts + [dt], |dts| + 1)
         == ApplyDiffLimitFilter(target, VelAfter(target, v, lim, dts, |dts|), dt, lim)
  {
    hide ApplyDiffLimitFilter;
    VelAfterPrefix(target, v, lim, dts, dt, |dts|);
  }

  /** A whole list of ticks: no overshoot, and there once they allow for the gap. */
  lemma EmergencyRun(target: real, v: real, lim: real, dts: seq<real>, minDt: real)
    requires minDt > 0.0 && forall i :: 0 <= i < |dts| ==> dts[i] >= minDt
    ensures Min(v, target) <= VelAfter(target, v, lim, dts, |dts|) <= Max(v, target)
    ensures |dts| as real * PerTick(lim, minDt) >= Abs(target - v) ==> VelAfter(target, v, lim, dts, |dts|) == target
  {
    hide PerTick, VelAfter;
    GapAfter(target, v, lim, dts, minDt, |dts|);
    if |dts| as real * PerTick(lim, minDt) >= Abs(target - v) { EmergencyArrives(target, v, lim, dts, minDt, |dts|); }
  }

  lemma {:induction false} VelAfterPrefix(target: real, v: real, lim: real, dts: seq<real>, dt: real, k: nat)
    requires k <= |dts| && dt > 0.0 && forall i :: 0 <= i < |dts| ==> dts[i] > 0.0
    ensures VelAfter(target, v, lim, dts + [dt], k) == VelAfter(target, v, lim, dts, k)
  {
    hide ApplyDiffLimitFilter;
    if k > 0 { VelAfterPrefix(target, v, lim, dts, dt, k - 1); }
  }

  /** One limited step of velocity and acceleration towards a commanded motion. */
  function Approach(h: HoldParam, prev: Motion, dt: real): Motion
    requires dt != 0.0
  {
    Motion(ApplyDiffLimitFilter(h.vel, prev.vel, dt, h.acc), ApplyDiffLimitFilter(h.acc, prev.acc, dt, h.jerk))
  }

  datatype Option<T> = None | Some(value: T)

  /** What one call of the timer callback meets; see `CallbackTimerControl`. */
  datatype Call = Call(far: bool, d: real, tick: Tick, now: real, nowAgain: real, follow: Motion)

  /** The state after one call, and the last running time it leaves. */
  function StateAfter(p: TransitionParam, s: ControlState, last: real, c: Call): ControlState {
    if c.far then EMERGENCY else NextState(p, s, c.d, StoodStill(p, last, c.tick))
  }

  function RunningAfter(p: TransitionParam, last: real, c: Call): real {
    if c.far then last else LastRunning(p, last, c.tick)
  }

  /** Every one of the calls leaves the controller in EMERGENCY. */
  predicate StaysEmergency(p: TransitionParam, s: ControlState, last: real, calls: seq<Call>)
    decreases |calls|
  {
    calls == [] ||
    var next := StateAfter(p, s, last, calls[0]);
    next == EMERGENCY && StaysEmergency(p, next, RunningAfter(p, last, calls[0]), calls[1..])
  }

  /**
   * Calls that find the vehicle far from the path, or past the stop line by too much, lead to EMERGENCY and
   * stay there.
   */
  lemma {:induction false} FarStaysEmergency(p: TransitionParam, s: ControlState, last: real, calls: seq<Call>)
    requires forall i :: 0 <= i < |calls| ==> calls[i].far || (Overshot(p, calls[i].d) && (i > 0 || s != STOPPED))
    ensures StaysEmergency(p, s, last, calls)
    decreases |calls|
  {
    if calls != [] {
      FarStaysEmergency(p, EMERGENCY, RunningAfter(p, last, calls[0]), calls[1..]);
    }
  }

  class LongitudinalController {
    const p: TransitionParam
    const stoppedHold: HoldParam
    const emergencyHold: HoldParam
    const controlRate: real
    var controlState: ControlState
    var lastRunningTime: real
    var prevRawCtrlCmd: Motion
    var prevControlTime: Option<real>
    /** Every stamp the last running time ever had, the latest last. */
    ghost var stamps: seq<real>

    ghost predicate Valid()
      reads this
    {
      controlRate > 0.0 && |stamps| > 0 && lastRunningTime == stamps[|stamps| - 1]
    }

    constructor (p: TransitionParam, stoppedHold: HoldParam, emergencyHold: HoldParam, controlRate: real, now: real)
      requires controlRate > 0.0
      ensures Valid() && controlState == STOPPED && stamps == [now]
    {
      this.p := p;
      this.stoppedHold := stoppedHold;
      this.emergencyHold := emergencyHold;
      this.controlRate := controlRate;
      controlState := STOPPED;
      lastRunningTime := now;
      prevRawCtrlCmd := Motion(0.0, 0.0);
      prevControlTime := None;
      stamps := [now];
    }

    function MinDt(): (m: real)
      requires controlRate != 0.0
      ensures controlRate > 0.0 ==> m > 0.0
    {
      1.0 / controlRate * 0.5
    }

    function MaxDt(): real
      requires controlRate != 0.0
    {
      1.0 / controlRate * 2.0
    }

    /** The time since the last tick, by two clock readings, kept near the control period whatever they say. */
    method GetDt(now: real, nowAgain: real) returns (dt: real)
      requires Valid()
      modifies this`prevControlTime
      ensures 0.0 < MinDt() <= dt <= MaxDt()
      ensures old(prevControlTime).None? ==> dt == 1.0 / controlRate && prevControlTime == Some(now)
      ensures old(prevControlTime).Some? ==> prevControlTime == Some(nowAgain)
      ensures old(prevControlTime).Some? && MinDt() <= now - old(prevControlTime).value <= MaxDt() ==>
        dt == now - old(prevControlTime).value
      ensures old(prevControlTime).Some? ==>
                var passed, period := now - old(prevControlTime).value, 1.0 / controlRate;
                dt == if passed < period * 0.5 then period * 0.5
                      else if passed > period * 2.0 then period * 2.0 else passed
    {
      var period := 1.0 / controlRate;
      assert period > 0.0;
      if prevControlTime.None? {
        dt := period;
        prevControlTime := Some(now);
      } else {
        dt := now - prevControlTime.value;
        prevControlTime := Some(nowAgain);
      }
      dt := Max(Min(dt, MaxDt()), MinDt());
    }

    method UpdateControlState(d: real, t: Tick) returns (next: ControlState)
      requires Valid()
      modifies this`lastRunningTime, this`stamps
      ensures Valid() && lastRunningTime == LastRunning(p, old(lastRunningTime), t)
      ensures stamps == if Running(p, t.vel, t.acc) then old(stamps) + [t.stamp] else old(stamps)
      ensures next == NextState(p, controlState, d, StoodStill(p, old(lastRunningTime), t))
      ensures lastRunningTime == if Abs(t.vel) > p.stoppedEntryVel || Abs(t.acc) > p.stoppedEntryAcc then t.stamp
                                 else old(lastRunningTime)
      ensures controlState == DRIVE ==>
                var over := p.enableOvershootEmergency && d < -p.emergencyOvershootStopDist;
                && (next == EMERGENCY <==> over)
                && (next == STOPPING <==> !over && p.enableSmoothStop && d < p.stoppingStopDist)
                && (next == STOPPED <==>
                    !over && !p.enableSmoothStop && t.reading - lastRunningTime > 0.5 && d <= p.driveStopDist)
      ensures controlState == STOPPING ==>
                var over := p.enableOvershootEmergency && d < -p.emergencyOvershootStopDist;
                && (next == EMERGENCY <==> over)
                && (next == STOPPED <==> !over && t.reading - lastRunningTime > 0.5)
                && (next == DRIVE <==>
                    !over && !(t.reading - lastRunningTime > 0.5) && d > p.driveStopDist + p.driveOffsetStopDist)
      ensures controlState == STOPPED ==> next == if d > p.driveStopDist then DRIVE else STOPPED
      ensures controlState == EMERGENCY ==>
                var over := p.enableOvershootEmergency && d < -p.emergencyOvershootStopDist;
                next == if t.reading - lastRunningTime > 0.5 && !over then STOPPED else EMERGENCY
    {
      var departureFromStopping := d > p.driveStopDist + p.driveOffsetStopDist;
      var departureFromStopped := d > p.driveStopDist;
      var stopping := d < p.stoppingStopDist;
      if Abs(t.vel) > p.stoppedEntryVel || Abs(t.acc) > p.stoppedEntryAcc {
        lastRunningTime := t.stamp;
        stamps := stamps + [t.stamp];
      }
      var stopped := t.reading - lastRunningTime > 0.5;
      var emergency := p.enableOvershootEmergency && d < -p.emergencyOvershootStopDist;
      if controlState == DRIVE {
        if emergency { return EMERGENCY; }
        if p.enableSmoothStop {
          if stopping { return STOPPING; }
        } else {
          if stopped && !departureFromStopped { return STOPPED; }
        }
      } else if controlState == STOPPING {
        if emergency { return EMERGENCY; }
        if stopped { return STOPPED; }
        if departureFromStopping { return DRIVE; }
      } else if controlState == STOPPED {
        if departureFromStopped { return DRIVE; }
      } else {
        if stopped && !emergency { return STOPPED; }
      }
      return controlState;
    }

    function CalcEmergencyCtrlCmd(dt: real): Motion
      requires dt != 0.0
      reads this`prevRawCtrlCmd
    {
      Approach(emergencyHold, prevRawCtrlCmd, dt)
    }

    /**
     * One control period. `far` says that no trajectory point is near enough; `follow` is the raw command of the
     * feedback controller, which the driving state takes over, and its acceleration that of the smooth stop, which the
     * stopping state takes over.
     */
    method CallbackTimerControl(far: bool, d: real, t: Tick, now: real, nowAgain: real, follow: Motion)
        returns (dt: real)
      requires Valid()
      modifies this
      ensures Valid() && 0.0 < MinDt() <= dt <= MaxDt()
      ensures controlState == if far then EMERGENCY
        else NextState(p, old(controlState), d, StoodStill(p, old(lastRunningTime), t))
      ensures lastRunningTime == if far then old(lastRunningTime) else LastRunning(p, old(lastRunningTime), t)
      ensures stamps == if !far && Running(p, t.vel, t.acc) then old(stamps) + [t.stamp] else old(stamps)
      ensures old(controlState) == EMERGENCY && controlState != EMERGENCY ==> controlState == STOPPED
      ensures old(controlState) != STOPPED && controlState == STOPPED ==> t.reading - stamps[|stamps| - 1] > 0.5
      ensures prevRawCtrlCmd == match controlState
        case EMERGENCY => Approach(emergencyHold, old(prevRawCtrlCmd), dt)
        case STOPPED => Approach(stoppedHold, old(prevRawCtrlCmd), dt)
        case STOPPING => Motion(stoppedHold.vel, follow.acc)
        case DRIVE => follow
      ensures far ==> controlState == EMERGENCY && lastRunningTime == old(lastRunningTime)
      ensures !far ==> lastRunningTime == if Abs(t.vel) > p.stoppedEntryVel || Abs(t.acc) > p.stoppedEntryAcc
                                          then t.stamp else old(lastRunningTime)
      ensures !far && old(controlState) == DRIVE ==>
                var over := p.enableOvershootEmergency && d < -p.emergencyOvershootStopDist;
                && (controlState == EMERGENCY <==> over)
                && (controlState == STOPPING <==> !over && p.enableSmoothStop && d < p.stoppingStopDist)
                && (controlState == STOPPED <==>
                    !over && !p.enableSmoothStop && t.reading - lastRunningTime > 0.5 && d <= p.driveStopDist)
      ensures !far && old(controlState) == STOPPING ==>
                var over := p.enableOvershootEmergency && d < -p.emergencyOvershootStopDist;
                && (controlState == EMERGENCY <==> over)
                && (controlState == STOPPED <==> !over && t.reading - lastRunningTime > 0.5)
                && (controlState == DRIVE <==>
                    !over && !(t.reading - lastRunningTime > 0.5) && d > p.driveStopDist + p.driveOffsetStopDist)
      ensures !far && old(controlState) == STOPPED ==> controlState == if d > p.driveStopDist then DRIVE else STOPPED
      ensures !far && old(controlState) == EMERGENCY ==>
                var over := p.enableOvershootEmergency && d < -p.emergencyOvershootStopDist;
                controlState == if t.reading - lastRunningTime > 0.5 && !over then STOPPED else EMERGENCY
      ensures controlState == EMERGENCY ==>
                && prevRawCtrlCmd.vel ==
                   ApplyDiffLimitFilter(emergencyHold.vel, old(prevRawCtrlCmd.vel), dt, emergencyHold.acc)
                && prevRawCtrlCmd.acc ==
                   ApplyDiffLimitFilter(emergencyHold.acc, old(prevRawCtrlCmd.acc), dt, emergencyHold.jerk)
      ensures controlState == STOPPED ==>
                && prevRawCtrlCmd.vel ==
                   ApplyDiffLimitFilter(stoppedHold.vel, old(prevRawCtrlCmd.vel), dt, stoppedHold.acc)
                && prevRawCtrlCmd.acc ==
                   ApplyDiffLimitFilter(stoppedHold.acc, old(prevRawCtrlCmd.acc), dt, stoppedHold.jerk)
    {
      hide ApplyDiffLimitFilter, NextState;
      dt := GetDt(now, nowAgain);
      if far {
        controlState := EMERGENCY;
        prevRawCtrlCmd := CalcEmergencyCtrlCmd(dt);
        return;
      }
      ghost var before := lastRunningTime;
      var next := UpdateControlState(d, t);
      StoppedStoodStill(p, controlState, d, before, t);
      controlState := next;
      if controlState == STOPPED {
        prevRawCtrlCmd := Approach(stoppedHold, prevRawCtrlCmd, dt);
      } else if controlState == EMERGENCY {
        prevRawCtrlCmd := CalcEmergencyCtrlCmd(dt);
      } else if controlState == STOPPING {
        prevRawCtrlCmd := Motion(stoppedHold.vel, follow.acc);
      } else {
        prevRawCtrlCmd := follow;
      }
    }

    /**
     * The timer runs the callback again and again. Whatever came before, a last call that finds the path near, the
     * vehicle standing still for more than half a second and not past the overshoot distance does not leave it in
     * EMERGENCY.
     */
    method RunTimer(calls: seq<Call>)
      requires Valid()
      modifies this
      ensures Valid()
      ensures calls != [] && controlState == EMERGENCY ==>
                var c := calls[|calls| - 1];
                || c.far || c.tick.reading - lastRunningTime <= 0.5
                || (p.enableOvershootEmergency && c.d < -p.emergencyOvershootStopDist)
      ensures calls != [] && calls[|calls| - 1].far ==> controlState == EMERGENCY
    {
      for i := 0 to |calls|
        invariant Valid()
        invariant i > 0 && controlState == EMERGENCY ==>
                    var c := calls[i - 1];
                    || c.far || c.tick.reading - lastRunningTime <= 0.5
                    || (p.enableOvershootEmergency && c.d < -p.emergencyOvershootStopDist)
        invariant i > 0 && calls[i - 1].far ==> controlState == EMERGENCY
      {
        var c := calls[i];
        var dt := CallbackTimerControl(c.far, c.d, c.tick, c.now, c.nowAgain, c.follow);
      }
    }

    /**
     * The timer runs the callback again and again, under any clock readings. While every call ends in EMERGENCY
     * the commanded velocity goes straight to that of the emergency stop, and is there once the calls allow for the
     * gap at the limit over the shortest tick.
     */
    method RunEmergency(calls: seq<Call>) returns (dts: seq<real>)
      requires Valid() && StaysEmergency(p, controlState, lastRunningTime, calls)
      modifies this
      ensures Valid() && (calls != [] ==> controlState == EMERGENCY)
      ensures |dts| == |calls| && forall i :: 0 <= i < |dts| ==> 0.0 < MinDt() <= dts[i] <= MaxDt()
      ensures prevRawCtrlCmd.vel
              == VelAfter(emergencyHold.vel, old(prevRawCtrlCmd.vel), emergencyHold.acc, dts, |calls|)
      ensures Min(old(prevRawCtrlCmd.vel), emergencyHold.vel) <= prevRawCtrlCmd.vel
              <= Max(old(prevRawCtrlCmd.vel), emergencyHold.vel)
      ensures |calls| as real * PerTick(emergencyHold.acc, MinDt())
              >= Abs(emergencyHold.vel - old(prevRawCtrlCmd.vel)) ==>
                prevRawCtrlCmd.vel == emergencyHold.vel
    {
      hide ApplyDiffLimitFilter, VelAfter, NextState, StoodStill, LastRunning, PerTick, Min, Max, Abs, MinDt, MaxDt;
      dts := [];
      ghost var target, v, lim := emergencyHold.vel, prevRawCtrlCmd.vel, emergencyHold.acc;
      NoTicks(target, v, lim);
      for i := 0 to |calls|
        invariant Valid() && (i > 0 ==> controlState == EMERGENCY)
        invariant StaysEmergency(p, controlState, lastRunningTime, calls[i..])
        invariant |dts| == i && forall k :: 0 <= k < i ==> 0.0 < MinDt() <= dts[k] <= MaxDt()
        invariant prevRawCtrlCmd.vel == VelAfter(target, v, lim, dts, i)
      {
        assert calls[i..][1..] == calls[i + 1..];
        var c := calls[i];
        var dt := CallbackTimerControl(c.far, c.d, c.tick, c.now, c.nowAgain, c.follow);
        VelAfterNext(target, v, lim, dts, dt);
        dts := dts + [dt];
      }
      EmergencyRun(target, v, lim, dts, MinDt());
    }
  }

  /** The stopped state is entered only by a call that finds the vehicle standing still. */
  lemma StoppedStoodStill(p: TransitionParam, s: ControlState, d: real, last: real, t: Tick)
    ensures s != STOPPED && NextState(p, s, d, StoodStill(p, last, t)) == STOPPED ==>
      t.reading - LastRunning(p, last, t) > 0.5
  {
  }

  /** Under a clock that does not go back no tick of the last half second was over a threshold. */
  lemma NoneRunning(stamps: seq<real>, reading: real, s: real)
    requires |stamps| > 0 && reading - stamps[|stamps| - 1] > 0.5 && s in stamps
    requires forall i, j :: 0 <= i < j < |stamps| ==> stamps[i] <= stamps[j]
    ensures reading - s > 0.5
  {
    var i :| 0 <= i < |stamps| && stamps[i] == s;
  }
}
