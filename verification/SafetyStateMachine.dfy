/** The vehicle interface's safety state machine: what it lets through to the vehicle, and what it still waits for. */
module SafetyStateMachine {
  import opened Reals

  /** std::numeric_limits<float>::epsilon() */
  const FLOAT_EPSILON := 1.0 / 8388608.0

  /** The start of the clock: the stamp of a request nobody made. */
  const MIN_STAMP: int := -0x8000_0000_0000_0000

  // The message codes; a code that is none of the named constants is kept as it is.
  datatype Gear = GearNoCommand | Drive | Reverse | Park | Low | Neutral | OtherGear(code: int)
  datatype Blinker = BlinkerNoCommand | BlinkerOff | BlinkerLeft | BlinkerRight | BlinkerHazard
                   | OtherBlinker(code: int)
  datatype Wiper = WiperNoCommand | WiperDisable | WiperLow | WiperHigh | WiperClean | OtherWiper(code: int)
  datatype Headlight = HeadlightNoCommand | HeadlightDisable | HeadlightLow | HeadlightHigh | OtherHeadlight(code: int)
  datatype Mode = ModeNoCommand | Autonomous | Manual | NotReady | OtherMode(code: int)

  /** A state command or, with the same fields, a state report. */
  datatype VehicleState = VehicleState(stamp: int, gear: Gear, blinker: Blinker, wiper: Wiper, headlight: Headlight,
      mode: Mode, horn: bool, handBrake: bool)

  datatype Control = Control(stamp: int, longAccel: real, frontWheelAngle: real)

  datatype MaybeState = NoState | Commanded(state: VehicleState)

  datatype Command = Command(control: Control, state: MaybeState)

  datatype Report = CLAMP_PAST_THRESHOLD | BAD_STATE | WIPERS_ON_HEADLIGHTS_ON | REMOVE_GEAR_COMMAND
                  | STATE_TRANSITION_TIMEOUT

  datatype Limits = Limits(min: real, max: real, threshold: real)

  datatype Config = Config(gearShiftVelocity: real, accelLimits: Limits, frontWheelLimits: Limits, timeStep: int,
                           timeoutAccel: real, stateTransitionTimeout: int, accelDeadzone: real)

  /** What the constructors accept. */
  predicate Accepted(c: Config) {
    && c.accelLimits.min < c.accelLimits.max && c.frontWheelLimits.min < c.frontWheelLimits.max
    && c.gearShiftVelocity > 0.0 && c.timeStep > 0 && c.timeoutAccel > 0.0
    && c.accelLimits.min <= c.timeoutAccel <= c.accelLimits.max
    && c.stateTransitionTimeout >= c.timeStep && c.accelDeadzone > 0.0
  }

  /** A duration in nanoseconds, in seconds. */
  function Seconds(ns: int): real { ns as real / 1000000000.0 }

  function Clamped(l: Limits, x: real): real { Min(Max(l.min, x), l.max) }

  predicate Within(l: Limits, x: real) { l.min <= x <= l.max }

  predicate FarOut(l: Limits, x: real) { Abs(Clamped(l, x) - x) >= l.threshold }

  // ---- sanitizing -------------------------------------------------------------------------------

  predicate Named(s: VehicleState) {
    && !s.gear.OtherGear? && !s.blinker.OtherBlinker? && !s.wiper.OtherWiper? && !s.headlight.OtherHeadlight?
    && (s.mode.ModeNoCommand? || s.mode.Autonomous? || s.mode.Manual?)
  }

  /** Fields that are no command constant are dropped. */
  function Sanitized(s: VehicleState): (r: VehicleState)
    ensures Named(r) && (Named(s) ==> r == s)
  {
    s.(gear := if s.gear.OtherGear? then GearNoCommand else s.gear,
       blinker := if s.blinker.OtherBlinker? then BlinkerNoCommand else s.blinker,
       wiper := if s.wiper.OtherWiper? then WiperNoCommand else s.wiper,
       headlight := if s.headlight.OtherHeadlight? then HeadlightNoCommand else s.headlight,
       mode := if s.mode.ModeNoCommand? || s.mode.Autonomous? || s.mode.Manual? then s.mode else ModeNoCommand)
  }

  /** Sanitizing, field by field. */
  lemma SanitizedExact(s: VehicleState)
    ensures var r := Sanitized(s);
      && r.gear == (if s.gear.OtherGear? then GearNoCommand else s.gear)
      && r.blinker == (if s.blinker.OtherBlinker? then BlinkerNoCommand else s.blinker)
      && r.wiper == (if s.wiper.OtherWiper? then WiperNoCommand else s.wiper)
      && r.headlight == (if s.headlight.OtherHeadlight? then HeadlightNoCommand else s.headlight)
      && r.mode == (if s.mode.Autonomous? || s.mode.Manual? then s.mode else ModeNoCommand)
      && r.stamp == s.stamp && r.horn == s.horn && r.handBrake == s.handBrake
      && (Named(s) <==> r == s)
  {
  }

  lemma SanitizedNamed(s: MaybeState)
    ensures s.Commanded? ==> Named(Sanitized(s.state)) && forall g: Gear, h: Headlight ::
      Named(Sanitized(s.state).(gear := g, headlight := h)) <==> !g.OtherGear? && !h.OtherHeadlight?
    ensures s.Commanded? ==> !Sanitized(s.state).gear.OtherGear?
  {
  }

  predicate WipersOn(w: Wiper) { w.WiperLow? || w.WiperHigh? }

  predicate HeadlightsOff(h: Headlight) { h.HeadlightDisable? || h.HeadlightNoCommand? }

  /** The wipers run and the headlights would stay off. */
  predicate SwitchesOn(s: VehicleState) { WipersOn(s.wiper) && HeadlightsOff(s.headlight) }

  /** A sanitized command, with the headlights on when the wipers need them. */
  function Consistent(s: VehicleState): VehicleState {
    var c := Sanitized(s);
    if SwitchesOn(c) then c.(headlight := HeadlightLow) else c
  }

  // ---- gears ------------------------------------------------------------------------------------

  predicate TooFast(c: Config, v: real) { v > c.gearShiftVelocity || v < -c.gearShiftVelocity }

  predicate Forward(g: Gear) { g.Drive? || g.Low? }

  /** A shift between directions, or to another gear, at speed. */
  predicate BadGearShift(c: Config, v: real, current: Gear, target: Gear) {
    if target.GearNoCommand? then false
    else if !TooFast(c, v) then false
    else if Forward(current) != Forward(target) then true
    else current != target
  }

  /** The gear the commanded acceleration calls for at low speed; otherwise the requested one. */
  function AutomaticGearShift(c: Config, v: real, accel: real, requested: Gear): Gear {
    if requested.Park? then requested
    else if Abs(accel) < c.accelDeadzone then requested
    else if TooFast(c, v) then requested
    else if 0.0 < accel * v then requested
    else
      var next := accel * Seconds(c.timeStep) + v;
      if !(Abs(v) <= FLOAT_EPSILON) && !(0.0 > v * next) then requested
      else if accel > 0.0 then Drive else Reverse
  }

  /**
   * At low speed, from rest or when one time step of the acceleration reverses the motion, the vehicle is shifted
   * into the direction of the acceleration; in every other case the requested gear stays.
   */
  lemma GearShiftExact(c: Config, v: real, a: real, requested: Gear)
    ensures AutomaticGearShift(c, v, a, requested) ==
            var dt := c.timeStep as real / 1000000000.0;
            if && requested != Park && Abs(a) >= c.accelDeadzone
               && -c.gearShiftVelocity <= v <= c.gearShiftVelocity && a * v <= 0.0
               && (Abs(v) <= 1.0 / 8388608.0 || v * (a * dt + v) < 0.0)
            then (if a > 0.0 then Drive else Reverse)
            else requested
  {
  }

  lemma ShiftKeeps(c: Config, v: real, a: real)
    ensures forall g: Gear :: TooFast(c, v) ==> AutomaticGearShift(c, v, a, g) == g
    ensures forall g: Gear :: !g.OtherGear? ==> !AutomaticGearShift(c, v, a, g).OtherGear?
  {
  }

  /** No command when the vehicle already is in the gear. */
  function Unless(current: Gear, requested: Gear): Gear { if requested == current then GearNoCommand else requested }

  /** A command that shifts and does nothing else, or none at all. */
  function ShiftOnly(stamp: int, current: Gear, requested: Gear): MaybeState {
    if requested == current then NoState
    else Commanded(VehicleState(stamp, requested, BlinkerNoCommand, WiperNoCommand, HeadlightNoCommand, ModeNoCommand,
        false, false))
  }

  /** A gear other than the current one is asked for at speed. */
  predicate Removes(c: Config, v: real, current: Gear, s: VehicleState) {
    TooFast(c, v) && Sanitized(s).gear != GearNoCommand && Sanitized(s).gear != current
  }

  // ---- requests ---------------------------------------------------------------------------------

  datatype ValueStamp<T> = ValueStamp(value: T, stamp: int)

  datatype Requests = Requests(gear: ValueStamp<Gear>, blinker: ValueStamp<Blinker>, wiper: ValueStamp<Wiper>,
                               headlight: ValueStamp<Headlight>, mode: ValueStamp<Mode>,
                               horn: ValueStamp<bool>, handBrake: ValueStamp<bool>)

  const NO_REQUESTS := Requests(ValueStamp(GearNoCommand, MIN_STAMP), ValueStamp(BlinkerNoCommand, MIN_STAMP),
                                ValueStamp(WiperNoCommand, MIN_STAMP), ValueStamp(HeadlightNoCommand, MIN_STAMP),
                                ValueStamp(ModeNoCommand, MIN_STAMP), ValueStamp(false, MIN_STAMP),
                                ValueStamp(false, MIN_STAMP))

  function UpdateRequest<T(==)>(noCommand: T, command: T, state: T, request: ValueStamp<T>, stamp: int): ValueStamp<T> {
    if noCommand != command && command != state then ValueStamp(command, stamp) else request
  }

  function UpdateFlag(command: bool, state: bool, request: ValueStamp<bool>, stamp: int): ValueStamp<bool> {
    if command != state then ValueStamp(command, stamp) else request
  }

  predicate Open<T(==)>(noCommand: T, request: ValueStamp<T>, state: T) {
    request.value == noCommand || request.value != state
  }

  /** No request of the five states repeats what the vehicle last reported. */
  predicate AllOpen(r: Requests, s: VehicleState) {
    && Open(GearNoCommand, r.gear, s.gear) && Open(BlinkerNoCommand, r.blinker, s.blinker)
        && Open(WiperNoCommand, r.wiper, s.wiper)
    && Open(HeadlightNoCommand, r.headlight, s.headlight) && Open(ModeNoCommand, r.mode, s.mode)
  }

  /** A request the report satisfies is cleared. */
  function Cleared<T(==)>(noCommand: T, request: ValueStamp<T>, state: T): ValueStamp<T> {
    if request.value != noCommand && request.value == state then ValueStamp(noCommand, MIN_STAMP) else request
  }

  /** What really raises a timeout for one state: a late request, and also one this very report satisfies. */
  predicate Expires<T(==)>(noCommand: T, request: ValueStamp<T>, state: T, limit: int) {
    request.value != noCommand && (if request.value == state then limit > MIN_STAMP else limit > request.stamp)
  }

  predicate FlagExpires(request: ValueStamp<bool>, state: bool, limit: int) {
    request.value != state && limit > request.stamp
  }

  predicate AnyExpires(r: Requests, s: VehicleState, limit: int) {
    || Expires(GearNoCommand, r.gear, s.gear, limit) || Expires(BlinkerNoCommand, r.blinker, s.blinker, limit)
    || Expires(WiperNoCommand, r.wiper, s.wiper, limit) || Expires(HeadlightNoCommand, r.headlight, s.headlight, limit)
    || Expires(ModeNoCommand, r.mode, s.mode, limit)
    || FlagExpires(r.horn, s.horn, limit) || FlagExpires(r.handBrake, s.handBrake, limit)
  }

  /** What a timeout is meant to say: a request neither met nor withdrawn for too long. */
  predicate Late<T(==)>(noCommand: T, request: ValueStamp<T>, state: T, limit: int) {
    request.value != noCommand && request.value != state && limit > request.stamp
  }

  predicate AnyLate(r: Requests, s: VehicleState, limit: int) {
    || Late(GearNoCommand, r.gear, s.gear, limit) || Late(BlinkerNoCommand, r.blinker, s.blinker, limit)
    || Late(WiperNoCommand, r.wiper, s.wiper, limit) || Late(HeadlightNoCommand, r.headlight, s.headlight, limit)
    || Late(ModeNoCommand, r.mode, s.mode, limit)
    || FlagExpires(r.horn, s.horn, limit) || FlagExpires(r.handBrake, s.handBrake, limit)
  }

  predicate Met<T(==)>(noCommand: T, request: ValueStamp<T>, state: T) {
    request.value != noCommand && request.value == state
  }

  predicate AnyMet(r: Requests, s: VehicleState) {
    || Met(GearNoCommand, r.gear, s.gear) || Met(BlinkerNoCommand, r.blinker, s.blinker)
        || Met(WiperNoCommand, r.wiper, s.wiper)
    || Met(HeadlightNoCommand, r.headlight, s.headlight) || Met(ModeNoCommand, r.mode, s.mode)
  }

  /**
   * The timeout the code raises is the one meant exactly when no request is met by the report, or one is late
   * anyway.
   */
  lemma TimeoutMeansLateIff(r: Requests, s: VehicleState, limit: int)
    requires limit > MIN_STAMP
    ensures (AnyExpires(r, s, limit) <==> AnyLate(r, s, limit)) <==> !AnyMet(r, s) || AnyLate(r, s, limit)
    ensures AnyMet(r, s) ==> AnyExpires(r, s, limit)
  {
  }

  /** A timeout, request by request. */
  lemma TimeoutExact(r: Requests, s: VehicleState, limit: int)
    requires limit > -0x8000_0000_0000_0000
    ensures AnyExpires(r, s, limit) <==>
            || (r.gear.value != GearNoCommand && (r.gear.value == s.gear || limit > r.gear.stamp))
            || (r.blinker.value != BlinkerNoCommand && (r.blinker.value == s.blinker || limit > r.blinker.stamp))
            || (r.wiper.value != WiperNoCommand && (r.wiper.value == s.wiper || limit > r.wiper.stamp))
            || (r.headlight.value != HeadlightNoCommand
                && (r.headlight.value == s.headlight || limit > r.headlight.stamp))
            || (r.mode.value != ModeNoCommand && (r.mode.value == s.mode || limit > r.mode.stamp))
            || (r.horn.value != s.horn && limit > r.horn.stamp)
            || (r.handBrake.value != s.handBrake && limit > r.handBrake.stamp)
  {
  }

  /** A request no report meets raises a timeout at the first report that is too late, and not before. */
  lemma UnmetRequestExpires(r: Requests, s: VehicleState, timeout: int)
    requires r.gear.value != GearNoCommand && r.gear.value != s.gear && r.gear.stamp > -0x8000_0000_0000_0000
    requires r.blinker.value == BlinkerNoCommand && r.wiper.value == WiperNoCommand
    requires r.headlight.value == HeadlightNoCommand && r.mode.value == ModeNoCommand
    requires r.horn.value == s.horn && r.handBrake.value == s.handBrake
    ensures AnyExpires(r, s, s.stamp - timeout) <==> s.stamp > r.gear.stamp + timeout
    ensures Cleared(GearNoCommand, r.gear, s.gear) == r.gear
  {
  }

  /** Only a request the report meets is cleared. */
  lemma ClearedExact(r: Requests, s: VehicleState)
    ensures Cleared(GearNoCommand, r.gear, s.gear) == if r.gear.value != GearNoCommand && r.gear.value == s.gear
      then ValueStamp(GearNoCommand, -0x8000_0000_0000_0000) else r.gear
    ensures Cleared(BlinkerNoCommand, r.blinker, s.blinker) ==
      if r.blinker.value != BlinkerNoCommand && r.blinker.value == s.blinker
      then ValueStamp(BlinkerNoCommand, -0x8000_0000_0000_0000) else r.blinker
    ensures Cleared(WiperNoCommand, r.wiper, s.wiper) == if r.wiper.value != WiperNoCommand && r.wiper.value == s.wiper
      then ValueStamp(WiperNoCommand, -0x8000_0000_0000_0000) else r.wiper
    ensures Cleared(HeadlightNoCommand, r.headlight, s.headlight) ==
      if r.headlight.value != HeadlightNoCommand && r.headlight.value == s.headlight
      then ValueStamp(HeadlightNoCommand, -0x8000_0000_0000_0000) else r.headlight
    ensures Cleared(ModeNoCommand, r.mode, s.mode) == if r.mode.value != ModeNoCommand && r.mode.value == s.mode
      then ValueStamp(ModeNoCommand, -0x8000_0000_0000_0000) else r.mode
  {
  }

  /** A value is moved to the nearer limit when it is outside, and only moving it far is reported. */
  lemma ClampedExact(l: Limits, x: real)
    requires l.min < l.max
    ensures Clamped(l, x) == if x < l.min then l.min else if x > l.max then l.max else x
    ensures FarOut(l, x) <==> (if x < l.min then l.min - x else if x > l.max then x - l.max else 0.0) >= l.threshold
  {
  }

  // ---- the machine ------------------------------------------------------------------------------

  class SafetyStateMachine {
    const config: Config
    var velocity: real
    var state: VehicleState
    var requests: Requests
    var reports: seq<Report>

    /** Between calls every request is open. */
    ghost predicate Valid()
      reads this
    {
      Accepted(config) && AllOpen(requests, state)
    }

    constructor (config: Config)
      requires Accepted(config)
      ensures Valid() && requests == NO_REQUESTS && reports == []
    {
      this.config := config;
      velocity := 0.0;
      state := VehicleState(0, Drive, BlinkerOff, WiperDisable, HeadlightDisable, NotReady, false, false);
      requests := NO_REQUESTS;
      reports := [];
    }

    method Clamp(c: Control) returns (r: Control)
      requires Valid()
      modifies this`reports
      ensures r == c.(longAccel := Clamped(config.accelLimits, c.longAccel),
                      frontWheelAngle := Clamped(config.frontWheelLimits, c.frontWheelAngle))
      ensures Within(config.accelLimits, r.longAccel)
        && (Within(config.accelLimits, c.longAccel) ==> r.longAccel == c.longAccel)
      ensures Within(config.frontWheelLimits, r.frontWheelAngle)
      ensures Within(config.frontWheelLimits, c.frontWheelAngle) ==> r.frontWheelAngle == c.frontWheelAngle
      ensures reports == old(reports) + if FarOut(config.accelLimits, c.longAccel)
        || FarOut(config.frontWheelLimits, c.frontWheelAngle)
                                        then [CLAMP_PAST_THRESHOLD] else []
    {
      var warn := false;
      r := c.(longAccel := Clamped(config.accelLimits, c.longAccel));
      warn := Abs(r.longAccel - c.longAccel) >= config.accelLimits.threshold || warn;
      r := r.(frontWheelAngle := Clamped(config.frontWheelLimits, c.frontWheelAngle));
      warn := Abs(r.frontWheelAngle - c.frontWheelAngle) >= config.frontWheelLimits.threshold || warn;
      if warn { reports := reports + [CLAMP_PAST_THRESHOLD]; }
    }

    method Sanitize(s: VehicleState) returns (r: VehicleState)
      modifies this`reports
      ensures r == Sanitized(s)
      ensures reports == old(reports) + if Named(s) then [] else [BAD_STATE]
    {
      var did := false;
      r := s;
      if s.headlight.OtherHeadlight? { did := true; r := r.(headlight := HeadlightNoCommand); }
      if s.blinker.OtherBlinker? { did := true; r := r.(blinker := BlinkerNoCommand); }
      if s.wiper.OtherWiper? { did := true; r := r.(wiper := WiperNoCommand); }
      if s.gear.OtherGear? { did := true; r := r.(gear := GearNoCommand); }
      match s.mode {
        case ModeNoCommand | Autonomous | Manual =>
        case _ =>
          did := true;
          r := r.(mode := ModeNoCommand);
      }
      if did { reports := reports + [BAD_STATE]; }
    }

    method CacheStateChangeRequest(s: VehicleState)
      requires Valid()
      modifies this`requests
      ensures Valid()
      ensures requests == Cached(old(requests), state, s)
    {
      requests := requests.(wiper := UpdateRequest(WiperNoCommand, s.wiper, state.wiper, requests.wiper, s.stamp));
      requests := requests.(blinker := UpdateRequest(BlinkerNoCommand, s.blinker, state.blinker, requests.blinker,
          s.stamp));
      requests := requests.(gear := UpdateRequest(GearNoCommand, s.gear, state.gear, requests.gear, s.stamp));
      requests := requests.(headlight := UpdateRequest(HeadlightNoCommand, s.headlight, state.headlight,
          requests.headlight, s.stamp));
      requests := requests.(mode := UpdateRequest(ModeNoCommand, s.mode, state.mode, requests.mode, s.stamp));
      requests := requests.(horn := UpdateFlag(s.horn, state.horn, requests.horn, s.stamp));
      requests := requests.(handBrake := UpdateFlag(s.handBrake, state.handBrake, requests.handBrake, s.stamp));
    }

    /** Sanitizes a state command and switches the headlights on with the wipers. */
    method MakeConsistent(s: VehicleState) returns (c: VehicleState)
      modifies this`reports
      ensures c == Consistent(s)
      ensures reports == old(reports) + (if Named(s) then [] else [BAD_STATE])
                         + if SwitchesOn(Sanitized(s)) then [WIPERS_ON_HEADLIGHTS_ON] else []
    {
      hide Sanitized, Named;
      c := Sanitize(s);
      if WipersOn(c.wiper) && HeadlightsOff(c.headlight) {
        c := c.(headlight := HeadlightLow);
        reports := reports + [WIPERS_ON_HEADLIGHTS_ON];
      }
    }

    /** The gear of a state command: shifted at low speed, removed over the threshold. */
    method MakeGearSafe(s: VehicleState, accel: real) returns (c: VehicleState)
      requires !s.gear.OtherGear?
      modifies this`reports
      ensures c == s.(gear := c.gear) && !c.gear.OtherGear?
      ensures c.gear == GearNoCommand || c.gear != state.gear
      ensures c.gear == if TooFast(config, velocity) then GearNoCommand
                        else Unless(state.gear, AutomaticGearShift(config, velocity, accel, s.gear))
      ensures reports == old(reports)
        + if TooFast(config, velocity) && s.gear != GearNoCommand && s.gear != state.gear then [REMOVE_GEAR_COMMAND]
          else []
    {
      hide AutomaticGearShift;
      ShiftKeeps(config, velocity, accel);
      var requested := AutomaticGearShift(config, velocity, accel, s.gear);
      c := s.(gear := if requested == state.gear then GearNoCommand else requested);
      if BadGearShift(config, velocity, state.gear, c.gear) {
        c := c.(gear := GearNoCommand);
        reports := reports + [REMOVE_GEAR_COMMAND];
      }
    }

    /** Makes the commands consistent with each other and safe at the current velocity. */
    method ComputeSafeCommands(command: Command) returns (r: Command)
      requires Valid()
      modifies this`requests, this`reports
      ensures Valid()
      ensures Within(config.accelLimits, r.control.longAccel)
        && Within(config.frontWheelLimits, r.control.frontWheelAngle)
      ensures TooFast(config, velocity) ==> r.state.NoState? || r.state.state.gear == GearNoCommand
      ensures command.state.Commanded? ==> r.state.Commanded? && Named(r.state.state)
      ensures command.state.Commanded? && WipersOn(r.state.state.wiper) ==> !HeadlightsOff(r.state.state.headlight)
      ensures command.state.Commanded? ==>
        Agrees(command.state.state, r.state.state) && requests == Cached(old(requests), state, r.state.state)
      ensures command.state.NoState? ==> requests == old(requests)
      ensures r.state.Commanded? ==> r.state.state.gear == GearNoCommand || r.state.state.gear != state.gear
      ensures command.state.Commanded? && !TooFast(config, velocity) ==>
        r.state.state.gear == Unless(state.gear, AutomaticGearShift(config, velocity, r.control.longAccel,
            Sanitized(command.state.state).gear))
      ensures command.state.NoState? ==>
        r.state == ShiftOnly(r.control.stamp, state.gear,
            AutomaticGearShift(config, velocity, r.control.longAccel, state.gear))
      ensures REMOVE_GEAR_COMMAND in reports <==>
              command.state.Commanded? && Removes(config, velocity, state.gear, command.state.state)
      ensures r.control == command.control.(longAccel := Clamped(config.accelLimits, command.control.longAccel),
                                            frontWheelAngle := Clamped(config.frontWheelLimits,
                                                                       command.control.frontWheelAngle))
      ensures CLAMP_PAST_THRESHOLD in reports <==>
              || FarOut(config.accelLimits, command.control.longAccel)
              || FarOut(config.frontWheelLimits, command.control.frontWheelAngle)
      ensures BAD_STATE in reports <==> command.state.Commanded? && !Named(command.state.state)
      ensures WIPERS_ON_HEADLIGHTS_ON in reports <==>
              command.state.Commanded? && SwitchesOn(Sanitized(command.state.state))
    {
      hide AutomaticGearShift, Sanitized, Named, Cached, FarOut, AllOpen;
      SanitizedNamed(command.state);
      reports := [];
      var control := Clamp(command.control);
      ShiftKeeps(config, velocity, control.longAccel);
      var s := command.state;
      if command.state.Commanded? {
        var c := MakeConsistent(command.state.state);
        c := MakeGearSafe(c, control.longAccel);
        CacheStateChangeRequest(c);
        s := Commanded(c);
      } else {
        var requested := AutomaticGearShift(config, velocity, control.longAccel, state.gear);
        if requested != state.gear {
          var c := VehicleState(0, GearNoCommand, BlinkerNoCommand, WiperNoCommand, HeadlightNoCommand, ModeNoCommand,
              false, false);
          s := Commanded(c.(stamp := control.stamp, gear := requested));
        }
      }
      r := Command(control, s);
    }

    /** Takes over what the vehicle reports; requests it meets are cleared. */
    method Update(v: real, s: VehicleState)
      requires Accepted(config)
      modifies this
      ensures Valid() && velocity == v && state == s
      ensures requests == old(requests).(gear := Cleared(GearNoCommand, old(requests).gear, s.gear),
                blinker := Cleared(BlinkerNoCommand, old(requests).blinker, s.blinker),
                wiper := Cleared(WiperNoCommand, old(requests).wiper, s.wiper),
                headlight := Cleared(HeadlightNoCommand, old(requests).headlight, s.headlight),
                mode := Cleared(ModeNoCommand, old(requests).mode, s.mode))
      ensures reports == if AnyExpires(old(requests), s, s.stamp - config.stateTransitionTimeout)
        then [STATE_TRANSITION_TIMEOUT] else []
    {
      reports := [];
      velocity := v;
      state := s;
      CheckStateChange(s);
    }

    method CheckStateChange(s: VehicleState)
      modifies this`requests, this`reports
      ensures requests == old(requests).(gear := Cleared(GearNoCommand, old(requests).gear, s.gear),
                blinker := Cleared(BlinkerNoCommand, old(requests).blinker, s.blinker),
                wiper := Cleared(WiperNoCommand, old(requests).wiper, s.wiper),
                headlight := Cleared(HeadlightNoCommand, old(requests).headlight, s.headlight),
                mode := Cleared(ModeNoCommand, old(requests).mode, s.mode))
      ensures reports == old(reports)
        + if AnyExpires(old(requests), s, s.stamp - config.stateTransitionTimeout) then [STATE_TRANSITION_TIMEOUT]
            else []
    {
      var limit := s.stamp - config.stateTransitionTimeout;
      var timeout, late := false, false;
      var gear, blinker, wiper, headlight, mode;
      gear, late := CheckState(GearNoCommand, requests.gear, s.gear, limit);
      timeout := timeout || late;
      blinker, late := CheckState(BlinkerNoCommand, requests.blinker, s.blinker, limit);
      timeout := timeout || late;
      wiper, late := CheckState(WiperNoCommand, requests.wiper, s.wiper, limit);
      timeout := timeout || late;
      headlight, late := CheckState(HeadlightNoCommand, requests.headlight, s.headlight, limit);
      timeout := timeout || late;
      mode, late := CheckState(ModeNoCommand, requests.mode, s.mode, limit);
      timeout := timeout || late;
      requests := requests.(gear := gear, blinker := blinker, wiper := wiper, headlight := headlight, mode := mode);
      if requests.horn.value != s.horn && limit > requests.horn.stamp { timeout := true; }
      if requests.handBrake.value != s.handBrake && limit > requests.handBrake.stamp { timeout := true; }
      if timeout { reports := reports + [STATE_TRANSITION_TIMEOUT]; }
    }
  }

  /** One state of a report against its request; a met request is cleared first and compared afterwards. */
  method CheckState<T(==)>(noCommand: T, request: ValueStamp<T>, state: T, limit: int)
      returns (r: ValueStamp<T>, late: bool)
    ensures r == Cleared(noCommand, request, state) && late == Expires(noCommand, request, state, limit)
  {
    r := request;
    if noCommand == request.value { return request, false; }
    if r.value == state { r := ValueStamp(noCommand, MIN_STAMP); }
    late := limit > r.stamp;
  }

  /**
   * The gears `ComputeSafeCommands` sends: over the threshold none, which is reported exactly when one was asked
   * for; up to the threshold the shift worked out, unless the vehicle is in that gear.
   */
  lemma SafeGearsExact(c: Config, v: real, current: Gear, command: Command, r: Command, removed: bool)
    requires TooFast(c, v) ==> r.state.NoState? || r.state.state.gear == GearNoCommand
    requires command.state.Commanded? ==> r.state.Commanded?
    requires command.state.Commanded? && !TooFast(c, v) ==>
               r.state.state.gear == Unless(current, AutomaticGearShift(c, v, r.control.longAccel,
                                                                        Sanitized(command.state.state).gear))
    requires command.state.NoState? ==>
               r.state == ShiftOnly(r.control.stamp, current, AutomaticGearShift(c, v, r.control.longAccel, current))
    requires removed <==> command.state.Commanded? && Removes(c, v, current, command.state.state)
    ensures v > c.gearShiftVelocity || v < -c.gearShiftVelocity ==>
              && (if command.state.NoState? then r.state.NoState? else r.state.state.gear == GearNoCommand)
              && (removed <==> && command.state.Commanded? && !command.state.state.gear.OtherGear?
                               && command.state.state.gear != GearNoCommand && command.state.state.gear != current)
    ensures -c.gearShiftVelocity <= v <= c.gearShiftVelocity ==>
              var wanted := if command.state.NoState? then current
                            else if command.state.state.gear.OtherGear? then GearNoCommand
                            else command.state.state.gear;
              var shift := AutomaticGearShift(c, v, r.control.longAccel, wanted);
              && !removed
              && (command.state.Commanded? ==> r.state.state.gear == if shift == current then GearNoCommand else shift)
              && (command.state.NoState? ==>
                    if shift == current then r.state.NoState?
                    else r.state == Commanded(VehicleState(r.control.stamp, shift, BlinkerNoCommand, WiperNoCommand,
                                                           HeadlightNoCommand, ModeNoCommand, false, false)))
  {
  }

  /** Headlights that are off, or not commanded, are switched on with the wipers; other named fields stay. */
  lemma AgreesExact(input: VehicleState, output: VehicleState)
    requires Agrees(input, output)
    ensures output.headlight ==
            var asked := if input.headlight.OtherHeadlight? then HeadlightNoCommand else input.headlight;
            if (input.wiper == WiperLow || input.wiper == WiperHigh)
               && (asked == HeadlightDisable || asked == HeadlightNoCommand) then HeadlightLow else asked
    ensures SwitchesOn(Sanitized(input)) <==>
            && (input.wiper == WiperLow || input.wiper == WiperHigh)
            && (input.headlight == HeadlightDisable || input.headlight == HeadlightNoCommand
                || input.headlight.OtherHeadlight?)
    ensures output.wiper == if input.wiper.OtherWiper? then WiperNoCommand else input.wiper
    ensures output.blinker == if input.blinker.OtherBlinker? then BlinkerNoCommand else input.blinker
    ensures output.mode == if input.mode.Autonomous? || input.mode.Manual? then input.mode else ModeNoCommand
    ensures output.stamp == input.stamp && output.horn == input.horn && output.handBrake == input.handBrake
  {
  }

  /** The requests after a command s is sent to a vehicle in state `state`. */
  function Cached(r: Requests, state: VehicleState, s: VehicleState): Requests {
    Requests(UpdateRequest(GearNoCommand, s.gear, state.gear, r.gear, s.stamp),
             UpdateRequest(BlinkerNoCommand, s.blinker, state.blinker, r.blinker, s.stamp),
             UpdateRequest(WiperNoCommand, s.wiper, state.wiper, r.wiper, s.stamp),
             UpdateRequest(HeadlightNoCommand, s.headlight, state.headlight, r.headlight, s.stamp),
             UpdateRequest(ModeNoCommand, s.mode, state.mode, r.mode, s.stamp),
             UpdateFlag(s.horn, state.horn, r.horn, s.stamp),
             UpdateFlag(s.handBrake, state.handBrake, r.handBrake, s.stamp))
  }

  /** A command becomes a request, stamped anew, exactly when it is one and differs from what the vehicle reports. */
  lemma CachedExact(r: Requests, state: VehicleState, s: VehicleState)
    ensures var n := Cached(r, state, s);
      && n.gear == (if s.gear != GearNoCommand && s.gear != state.gear then ValueStamp(s.gear, s.stamp) else r.gear)
      && n.blinker == (if s.blinker != BlinkerNoCommand && s.blinker != state.blinker
                       then ValueStamp(s.blinker, s.stamp) else r.blinker)
      && n.wiper == (if s.wiper != WiperNoCommand && s.wiper != state.wiper then ValueStamp(s.wiper, s.stamp)
                     else r.wiper)
      && n.headlight == (if s.headlight != HeadlightNoCommand && s.headlight != state.headlight
                         then ValueStamp(s.headlight, s.stamp) else r.headlight)
      && n.mode == (if s.mode != ModeNoCommand && s.mode != state.mode then ValueStamp(s.mode, s.stamp) else r.mode)
      && n.horn == (if s.horn != state.horn then ValueStamp(s.horn, s.stamp) else r.horn)
      && n.handBrake == (if s.handBrake != state.handBrake then ValueStamp(s.handBrake, s.stamp) else r.handBrake)
  {
  }

  /** Everything but the gear and headlights that had to be switched on comes through as sanitized. */
  predicate Agrees(input: VehicleState, output: VehicleState) {
    output == Consistent(input).(gear := output.gear)
  }
}
