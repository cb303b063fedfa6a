/** The flight kernel's lifecycle, fault latch and control-law ladder
    (aviate-core/src/kernel_logic.rs, kernel_logic/lifecycle.rs, kernel_update.rs, checks/pre_arm.rs,
    checks/in_flight.rs, kernel/slew.rs).

    What the estimator, the envelope protector, the mode gate and the controller return is an input of
    each step, so every claim holds whatever they do. */
module Kernel {
  import opened Common
  import opened Floats
  import FlightPhase
  import opened CommandIngress

  // ---------- types ----------

  datatype InitState =
    | PowerOn | ConfigLoading | SensorInit | EstimatorConverging | PreArm | Ready | Armed | Disarmed | Fault

  datatype Law = Primary | Alternate | Direct | Backup

  function Severity(l: Law): nat {
    match l case Primary => 0 case Alternate => 1 case Direct => 2 case Backup => 3
  }

  datatype TerminalCause = NoCause | CommandLoss | Commanded

  datatype FaultFlag =
    | IMU0_FAILED | IMU1_FAILED | IMU2_FAILED | ALL_IMU_FAILED | GNSS0_LOST | GNSS1_LOST | ALL_GNSS_LOST
    | BARO_FAILED | MAG_FAILED | AIRSPEED_FAILED
    | ATTITUDE_LOST | IMU_DEGRADED | POSITION_LOST | VELOCITY_LOST | BARO_DEGRADED | ENVELOPE_VIOLATION
    | ACTUATOR_FAULT | ACTUATOR_NUMERIC | ACTUATOR_FALLBACK
    | ESTIMATOR_DIVERGED | ATTITUDE_UNCERTAIN | POSITION_UNCERTAIN | NUMERIC_ERROR
    | COMMAND_TIMEOUT | COMMAND_INVALID | RC_LOST | TIMING_VIOLATION | TIMING_PERSISTENT
    | CONFIG_INVALID | CONFIG_TRANSITION_FAILED | MEMORY_ERROR | ENUM_INVALID

  const CRITICAL_FAULTS: set<FaultFlag> := {ALL_IMU_FAILED, NUMERIC_ERROR, ESTIMATOR_DIVERGED}

  /** The only faults that live sensor health clears again. */
  const SENSOR_FAULTS: set<FaultFlag> := {ALL_IMU_FAILED, BARO_FAILED, MAG_FAILED, ALL_GNSS_LOST}

  const TIMING_VIOLATION_THRESHOLD: nat := 3

  datatype PreArmFlag =
    | IMU_HEALTHY | BARO_HEALTHY | MAG_HEALTHY | GNSS_AVAILABLE
    | IMU_CONVERGED | BARO_CONVERGED | MAG_CONVERGED | EKF_CONVERGED
    | THROTTLE_LOW | CONFIG_VALID | NO_FAULTS | HARDWARE_ARMED | GYRO_CALIBRATED | ACCEL_CALIBRATED

  datatype Samples = Samples(imu: U32, baro: U32, mag: U32, gnss: U32, minRequired: U32)

  datatype PreArmStatus = PreArmStatus(required: set<PreArmFlag>, current: set<PreArmFlag>, samples: Samples)

  datatype InFlightFlag =
    | ATTITUDE_VALID | VELOCITY_VALID | POSITION_VALID | HEADING_VALID | WITHIN_ENVELOPE | ALTITUDE_OK
    | COMMAND_RECENT | RC_AVAILABLE | TELEMETRY_OK | IMU_OK | BARO_OK

  datatype InFlightStatus = InFlightStatus(required: set<InFlightFlag>, current: set<InFlightFlag>)

  datatype Reason =
    | AttitudeLost | PositionLost | VelocityLost | CommandTimeout | ImuDegraded | BaroDegraded
    | EnvelopeViolation | RcLost | TimingViolation | LandRequested

  datatype Health = Good | DegradedHealth | Failed | NotAvailable

  datatype Reading = Reading(valid: bool, health: Health)

  datatype Sensors = Sensors(imus: seq<Reading>, baros: seq<Reading>, mags: seq<Reading>, gnss: seq<Reading>)

  datatype Timing = Timing(
    lastCycleUs: U32, maxCycleUs: U32, minCycleUs: U32,
    deadlineViolations: U32, consecutiveViolations: U32, totalCycles: U64)

  datatype Config = Config(
    commandTimeoutMs: U32, minAltitude: real, maxAltitude: real,
    safeOutput: seq<real>, slewLimit: seq<real>)

  datatype State = State(
    init: InitState, faults: set<FaultFlag>, law: Law, cause: TerminalCause,
    preArm: PreArmStatus, inFlight: InFlightStatus, timing: Timing,
    phase: FlightPhase.Latch, commanded: seq<real>)

  /** The inputs of one `update`: what the caller passes, and what the pipeline answers this cycle. */
  datatype Cycle = Cycle(
    dtUs: U32, dtSec: Float, sensors: Sensors, command: FlightCommand, commandAgeMs: U32,
    estimate: FlightPhase.Estimate, withinEnvelope: bool, modeSupported: bool, mixed: seq<real>)

  datatype DegradationEvent = DegradationEvent(from: Law, to: Law, reason: Reason)

  datatype Output = Output(outputs: seq<real>, law: Law, degradation: Option<DegradationEvent>)

  datatype ArmError = NotReady | Faulted | AlreadyArmed

  // ---------- the pieces of a step ----------

  function Put<T>(s: set<T>, x: T, on: bool): set<T> { if on then s + {x} else s - {x} }

  predicate AnyGood(rs: seq<Reading>) { exists r :: r in rs && r.valid && r.health.Good? }

  function SatInc(x: U32): U32 { if x == U32_MAX then x else x + 1 }

  function SensorFaults(faults: set<FaultFlag>, sensors: Sensors): set<FaultFlag> {
    (faults - SENSOR_FAULTS)
    + (if AnyGood(sensors.imus) then {} else {ALL_IMU_FAILED})
    + (if AnyGood(sensors.baros) then {} else {BARO_FAILED})
    + (if AnyGood(sensors.mags) then {} else {MAG_FAILED})
    + (if AnyGood(sensors.gnss) then {} else {ALL_GNSS_LOST})
  }

  predicate Critical(faults: set<FaultFlag>) { faults * CRITICAL_FAULTS != {} }

  function TargetLaw(r: Reason): Law {
    match r
    case AttitudeLost => Backup
    case LandRequested => Direct
    case CommandTimeout => Direct
    case _ => Alternate
  }

  function LatchedFault(r: Reason): Option<FaultFlag> {
    match r
    case AttitudeLost => Some(ATTITUDE_LOST)
    case ImuDegraded => Some(IMU_DEGRADED)
    case PositionLost => Some(POSITION_LOST)
    case VelocityLost => Some(VELOCITY_LOST)
    case BaroDegraded => Some(BARO_DEGRADED)
    case EnvelopeViolation => Some(ENVELOPE_VIOLATION)
    case RcLost => Some(RC_LOST)
    case TimingViolation => Some(TIMING_PERSISTENT)
    case CommandTimeout => None
    case LandRequested => None
  }

  function CauseOf(r: Reason): TerminalCause {
    match r case CommandTimeout => CommandLoss case LandRequested => Commanded case _ => NoCause
  }

  /** Only a worse law is entered; the fault is latched either way. */
  function Degraded(s: State, r: Reason): State {
    var s := match LatchedFault(r) case Some(f) => s.(faults := s.faults + {f}) case None => s;
    if Severity(TargetLaw(r)) > Severity(s.law) then s.(law := TargetLaw(r), cause := CauseOf(r)) else s
  }

  function DegradedEvent(s: State, r: Reason): Option<DegradationEvent> {
    if Severity(TargetLaw(r)) > Severity(s.law) then Some(DegradationEvent(s.law, TargetLaw(r), r)) else None
  }

  /** The most critical missing in-flight check. */
  function Trigger(f: InFlightStatus): Option<Reason> {
    var missing := f.required - f.current;
    if ATTITUDE_VALID in missing then Some(AttitudeLost)
    else if IMU_OK in missing then Some(ImuDegraded)
    else if POSITION_VALID in missing then Some(PositionLost)
    else if VELOCITY_VALID in missing then Some(VelocityLost)
    else if COMMAND_RECENT in missing then Some(CommandTimeout)
    else if WITHIN_ENVELOPE in missing then Some(EnvelopeViolation)
    else if BARO_OK in missing then Some(BaroDegraded)
    else if RC_AVAILABLE in missing then Some(RcLost)
    else None
  }

  /** What this cycle degrades for: persistent timing violations preempt the in-flight checks. */
  function ReasonOf(s: State): Option<Reason> {
    if s.timing.consecutiveViolations >= TIMING_VIOLATION_THRESHOLD then Some(TimingViolation)
    else Trigger(s.inFlight)
  }

  function TickTiming(t: Timing, dtUs: U32): Timing {
    t.(lastCycleUs := dtUs,
       totalCycles := SatAdd(t.totalCycles, 1),
       maxCycleUs := if dtUs > t.maxCycleUs then dtUs else t.maxCycleUs,
       minCycleUs := if dtUs < t.minCycleUs || t.minCycleUs == 0 then dtUs else t.minCycleUs)
  }

  predicate AltitudeOk(cfg: Config, e: FlightPhase.Estimate) {
    var alt := FlightPhase.AltitudeOf(e);
    alt.Finite? && cfg.minAltitude <= alt.r <= cfg.maxAltitude
  }

  function Observed(cfg: Config, f: InFlightStatus, c: Cycle): InFlightStatus {
    var flags := c.estimate.validFlags;
    var a := Put(Put(Put(Put(f.current, ATTITUDE_VALID, FlightPhase.ATTITUDE in flags),
                         VELOCITY_VALID, FlightPhase.VELOCITY in flags),
                     POSITION_VALID, FlightPhase.POSITION in flags),
                 HEADING_VALID, FlightPhase.ATTITUDE in flags);
    var b := Put(Put(a, IMU_OK, AnyGood(c.sensors.imus)), BARO_OK, AnyGood(c.sensors.baros));
    f.(current := Put(Put(b, ALTITUDE_OK, AltitudeOk(cfg, c.estimate)),
                      COMMAND_RECENT, c.commandAgeMs < cfg.commandTimeoutMs))
  }

  /** The terminal release: only a command-loss descent, only when recency is back. */
  function Released(s: State): State {
    if s.law.Direct? && s.cause.CommandLoss? && COMMAND_RECENT in s.inFlight.current
    then s.(law := Primary, cause := NoCause) else s
  }

  function EnteredFault(s: State): State { s.(init := Fault, law := Backup, cause := NoCause) }

  function EndedFlight(s: State): State {
    s.(init := Disarmed, law := Backup, cause := NoCause,
       inFlight := s.inFlight.(current := {}), phase := FlightPhase.POWER_ON)
  }

  /** One channel of the slew limiter; a non-positive limit leaves the channel unconstrained. */
  function Slewed(prev: real, target: real, limit: real): real {
    if limit <= 0.0 then target
    else if target - prev > limit then prev + limit
    else if target - prev < -limit then prev - limit
    else target
  }

  function SlewAll(prev: seq<real>, target: seq<real>, limit: seq<real>): seq<real> {
    seq(|target|, i requires 0 <= i < |target| =>
      if i < |prev| && i < |limit| then Slewed(prev[i], target[i], limit[i]) else target[i])
  }

  // ---------- the operations ----------

  /** The cycle up to and including the degradation decision, for an armed kernel without critical
      faults. `s` has its timing and sensor faults already updated. */
  function Decided(cfg: Config, s: State, c: Cycle): State {
    var s := s.(inFlight := Observed(cfg, s.inFlight, c),
                phase := FlightPhase.Update(s.phase, FlightPhase.Obs(c.estimate, c.dtSec),
                                            s.init.Armed?, FlightPhase.DEFAULT_LIMITS));
    var s := Released(s);
    match ReasonOf(s) case Some(r) => Degraded(s, r) case None => s
  }

  function DecidedEvent(cfg: Config, s: State, c: Cycle): Option<DegradationEvent> {
    var s := Released(s.(inFlight := Observed(cfg, s.inFlight, c)));
    match ReasonOf(s) case Some(r) => DegradedEvent(s, r) case None => None
  }

  predicate SafeControl(s: State, c: Cycle) {
    s.law.Backup? || (!s.law.Direct? && !c.modeSupported)
  }

  function Sensed(s: State, c: Cycle): State {
    s.(timing := TickTiming(s.timing, c.dtUs), faults := SensorFaults(s.faults, c.sensors))
  }

  function Update(cfg: Config, s: State, c: Cycle): (State, Output) {
    var safe := Output(cfg.safeOutput, Backup, None);
    if !c.command.enumsValid then
      (s.(timing := TickTiming(s.timing, c.dtUs), faults := s.faults + {ENUM_INVALID}), safe)
    else
      var sensed := Sensed(s, c);
      if !s.init.Armed? then (sensed, safe)
      else if Critical(sensed.faults) then (EnteredFault(sensed), safe)
      else
        var d := Decided(cfg, sensed, c);
        var target := if SafeControl(d, c) then cfg.safeOutput else c.mixed;
        var outputs := SlewAll(s.commanded, target, cfg.slewLimit);
        (d.(inFlight := d.inFlight.(current := Put(d.inFlight.current, WITHIN_ENVELOPE, c.withinEnvelope)),
            commanded := outputs),
         Output(outputs, d.law, DecidedEvent(cfg, sensed, c)))
  }

  function PreArmObserved(p: PreArmStatus, sensors: Sensors, faults: set<FaultFlag>, e: FlightPhase.Estimate)
    : PreArmStatus
  {
    var imu, baro := AnyGood(sensors.imus), AnyGood(sensors.baros);
    var mag, gnss := AnyGood(sensors.mags), AnyGood(sensors.gnss);
    var n := Samples(if imu then SatInc(p.samples.imu) else p.samples.imu,
                     if baro then SatInc(p.samples.baro) else p.samples.baro,
                     if mag then SatInc(p.samples.mag) else p.samples.mag,
                     if gnss then SatInc(p.samples.gnss) else p.samples.gnss,
                     p.samples.minRequired);
    var healthy := Put(Put(Put(Put(p.current, IMU_HEALTHY, imu), BARO_HEALTHY, baro),
                           MAG_HEALTHY, mag), GNSS_AVAILABLE, gnss);
    var converged := Put(Put(Put(healthy, IMU_CONVERGED, n.imu >= n.minRequired),
                             BARO_CONVERGED, n.baro >= n.minRequired),
                         MAG_CONVERGED, n.mag >= n.minRequired);
    p.(samples := n,
       current := Put(Put(Put(converged, NO_FAULTS, faults == {}),
                          CONFIG_VALID, CONFIG_INVALID !in faults),
                      EKF_CONVERGED, FlightPhase.Usable(e)))
  }

  function NoSamples(p: PreArmStatus): PreArmStatus {
    p.(samples := Samples(0, 0, 0, 0, p.samples.minRequired))
  }

  function InitStepped(s: State, sensors: Sensors, e: FlightPhase.Estimate): State {
    var s := s.(preArm := PreArmObserved(s.preArm, sensors, s.faults, e));
    var has := s.preArm.current;
    match s.init
    case PowerOn => s.(init := ConfigLoading)
    case ConfigLoading =>
      s.(preArm := s.preArm.(current := has + {CONFIG_VALID}), init := SensorInit)
    case SensorInit => if IMU_HEALTHY in has then s.(init := EstimatorConverging) else s
    case EstimatorConverging => if {IMU_CONVERGED, EKF_CONVERGED} <= has then s.(init := PreArm) else s
    case PreArm => if s.preArm.required <= has then s.(init := Ready) else s
    case Ready => if s.preArm.required <= has then s else s.(init := PreArm)
    case Armed => s
    case Disarmed => s.(preArm := NoSamples(s.preArm), init := PreArm)
    case Fault => s
  }

  function ArmVerdict(s: State): Result<(), ArmError> {
    if s.init.Armed? then Err(AlreadyArmed)
    else if s.faults != {} then Err(Faulted)
    else if !s.init.Ready? then Err(NotReady)
    else Ok(())
  }

  function ArmAttempt(s: State, e: FlightPhase.Estimate): State {
    if ArmVerdict(s).Ok? then
      s.(phase := FlightPhase.BeginFlightPeriod(e), law := Primary, cause := NoCause, init := Armed)
    else s
  }

  function DisarmAttempt(s: State): State {
    if s.phase.phase.Airborne? then s else EndedFlight(s)
  }

  predicate CanResetFromFault(s: State) {
    s.init.Fault? && !Critical(s.faults) && {IMU_HEALTHY, THROTTLE_LOW} <= s.preArm.current
  }

  function FaultReset(s: State): State {
    if CanResetFromFault(s) then
      s.(preArm := NoSamples(s.preArm), inFlight := s.inFlight.(current := {}), init := PreArm)
    else s
  }

  function GroundReset(s: State): State {
    if s.init.Armed? then s
    else s.(init := ConfigLoading, faults := {}, law := Primary, cause := NoCause,
            preArm := NoSamples(s.preArm).(current := {}), inFlight := s.inFlight.(current := {}),
            phase := FlightPhase.POWER_ON, timing := Timing(0, 0, 0, 0, 0, 0),
            commanded := seq(|s.commanded|, _ => 0.0))
  }

  function TimingReported(s: State, violation: bool): State {
    s.(timing := if violation then
                   s.timing.(deadlineViolations := SatInc(s.timing.deadlineViolations),
                             consecutiveViolations := SatInc(s.timing.consecutiveViolations))
                 else s.timing.(consecutiveViolations := 0))
  }

  const QUAD_MINIMUM: set<PreArmFlag> :=
    {IMU_HEALTHY, BARO_HEALTHY, IMU_CONVERGED, BARO_CONVERGED, EKF_CONVERGED, THROTTLE_LOW, CONFIG_VALID, NO_FAULTS}

  /** The default in-flight requirement, and that of position hold. */
  const ATTITUDE_FLIGHT: set<InFlightFlag> := {ATTITUDE_VALID, IMU_OK, COMMAND_RECENT}
  const POSITION_FLIGHT: set<InFlightFlag> := ATTITUDE_FLIGHT + {POSITION_VALID, VELOCITY_VALID}

  /** What a vehicle is configured to require before arming and in flight. */
  datatype Needs = Needs(preArm: set<PreArmFlag>, inFlight: set<InFlightFlag>)

  /** A quadrotor with the pre-arm minimum. */
  function Quad(flight: set<InFlightFlag>): Needs { Needs(QUAD_MINIMUM, flight) }

  function PoweredOn(needs: Needs, channels: nat): State {
    State(PowerOn, {}, Primary, NoCause,
          PreArmStatus(needs.preArm, {}, Samples(0, 0, 0, 0, 100)),
          InFlightStatus(needs.inFlight, {}),
          Timing(0, 0, 0, 0, 0, 0), FlightPhase.POWER_ON, seq(channels, _ => 0.0))
  }

  // ---------- runs ----------

  datatype Event =
    | InitStepEv(sensors: Sensors, estimate: FlightPhase.Estimate)
    | ArmEv(estimate: FlightPhase.Estimate)
    | DisarmEv
    | TerminateEv
    | GroundResetEv
    | FaultResetEv
    | TimingEv(violation: bool)
    | ThrottleEv(low: bool)
    | DegradeEv(reason: Reason)
    | InjectEv(fault: FaultFlag)
    | UpdateEv(cycle: Cycle)

  function Next(cfg: Config, s: State, e: Event): State {
    match e
    case InitStepEv(sensors, est) => InitStepped(s, sensors, est)
    case ArmEv(est) => ArmAttempt(s, est)
    case DisarmEv => DisarmAttempt(s)
    case TerminateEv => EndedFlight(s)
    case GroundResetEv => GroundReset(s)
    case FaultResetEv => FaultReset(s)
    case TimingEv(v) => TimingReported(s, v)
    case ThrottleEv(low) => s.(preArm := s.preArm.(current := Put(s.preArm.current, THROTTLE_LOW, low)))
    case DegradeEv(r) => Degraded(s, r)
    case InjectEv(f) => s.(faults := s.faults + {f})
    case UpdateEv(c) => Update(cfg, s, c).0
  }

  function Run(cfg: Config, s: State, es: seq<Event>): State
    decreases |es|
  {
    if es == [] then s else Run(cfg, Next(cfg, s, es[0]), es[1..])
  }

  // ---------- the ladder ----------

  /** Direct is exactly the law that carries a cause. */
  predicate CauseMatchesLaw(s: State) { s.law.Direct? <==> !s.cause.NoCause? }

  lemma DegradedCauseMatchesLaw(s: State, r: Reason)
    requires CauseMatchesLaw(s)
    ensures CauseMatchesLaw(Degraded(s, r))
  {
  }

  lemma CauseMatchesLawCycle(cfg: Config, s: State, c: Cycle)
    requires CauseMatchesLaw(s)
    ensures CauseMatchesLaw(Update(cfg, s, c).0)
  {
  }

  lemma CauseMatchesLawStep(cfg: Config, s: State, e: Event)
    requires CauseMatchesLaw(s)
    ensures CauseMatchesLaw(Next(cfg, s, e))
  {
    match e
    case UpdateEv(c) => CauseMatchesLawCycle(cfg, s, c);
    case DegradeEv(r) => DegradedCauseMatchesLaw(s, r);
    case _ =>
  }

  lemma {:induction false} CauseMatchesLawAlways(cfg: Config, s: State, es: seq<Event>)
    requires CauseMatchesLaw(s)
    ensures CauseMatchesLaw(Run(cfg, s, es))
    decreases |es|
  {
    if es == [] {
    } else {
      CauseMatchesLawStep(cfg, s, es[0]);
      CauseMatchesLawAlways(cfg, Next(cfg, s, es[0]), es[1..]);
    }
  }

  predicate EffectiveReset(s: State, e: Event) { e.GroundResetEv? && !s.init.Armed? }

  predicate ArmsNow(s: State, e: Event) { e.ArmEv? && ArmVerdict(s).Ok? }

  /** Backup is left exactly by a ground reset or by a new arm, both from the ground. */
  lemma BackupLeftOnlyFromTheGround(cfg: Config, s: State, e: Event)
    requires s.law.Backup?
    ensures !Next(cfg, s, e).law.Backup? <==> EffectiveReset(s, e) || ArmsNow(s, e)
  {
  }

  /** A commanded land is left only downwards, or by the same two ground actions. */
  lemma CommandedLeftOnlyDownwards(cfg: Config, s: State, e: Event)
    requires CauseMatchesLaw(s) && s.cause.Commanded? && !Next(cfg, s, e).cause.Commanded?
    ensures Next(cfg, s, e).law.Backup? || EffectiveReset(s, e) || ArmsNow(s, e)
  {
  }

  /** The cycle reaches the terminal release with recency restored. */
  predicate RecencyRestored(cfg: Config, s: State, c: Cycle) {
    && s.init.Armed? && c.command.enumsValid && !Critical(SensorFaults(s.faults, c.sensors))
    && s.law.Direct? && s.cause.CommandLoss? && c.commandAgeMs < cfg.commandTimeoutMs
  }

  /** The cycle's estimate lacks an attitude that is required. */
  predicate AttitudeMissing(s: State, c: Cycle) {
    ATTITUDE_VALID in s.inFlight.required && FlightPhase.ATTITUDE !in c.estimate.validFlags
  }

  /** Timing violations have persisted, so that the in-flight checks are not consulted. */
  predicate TimingPersists(s: State) { s.timing.consecutiveViolations >= TIMING_VIOLATION_THRESHOLD }

  /** An update lowers severity exactly when it releases a command-loss descent and a missing attitude does not
      send it to Backup in the same cycle. */
  lemma SeverityFallsOnlyByRelease(cfg: Config, s: State, c: Cycle)
    ensures Severity(Update(cfg, s, c).0.law) < Severity(s.law)
            <==> RecencyRestored(cfg, s, c) && (TimingPersists(s) || !AttitudeMissing(s, c))
    ensures RecencyRestored(cfg, s, c) ==> !Update(cfg, s, c).0.law.Direct?
  {
  }

  /** The estimate has every position and velocity that is required. */
  predicate Navigates(s: State, c: Cycle) {
    && (POSITION_VALID in s.inFlight.required ==> FlightPhase.POSITION in c.estimate.validFlags)
    && (VELOCITY_VALID in s.inFlight.required ==> FlightPhase.VELOCITY in c.estimate.validFlags)
  }

  /** Why a cycle brings a vehicle down whose setpoint is stale: a critical fault, a missing attitude, or the
      command loss itself. Persistent timing violations preempt the last two, and a missing position or velocity
      preempts the command loss. */
  predicate DescentStarts(s: State, c: Cycle) {
    && c.command.enumsValid
    && (|| Critical(SensorFaults(s.faults, c.sensors))
        || (&& !TimingPersists(s)
            && (AttitudeMissing(s, c) || (COMMAND_RECENT in s.inFlight.required && Navigates(s, c)))))
  }

  predicate Descending(s: State) { s.law.Direct? || s.law.Backup? }

  lemma BlindIsCritical(faults: set<FaultFlag>, sensors: Sensors)
    ensures !AnyGood(sensors.imus) ==> Critical(SensorFaults(faults, sensors))
  {
    if !AnyGood(sensors.imus) {
      assert ALL_IMU_FAILED in SensorFaults(faults, sensors) * CRITICAL_FAULTS;
    }
  }

  /** What the in-flight checks of such a cycle ask for. */
  lemma StaleTrigger(cfg: Config, s: State, c: Cycle)
    requires c.commandAgeMs >= cfg.commandTimeoutMs && AnyGood(c.sensors.imus)
    ensures var t := Trigger(Observed(cfg, s.inFlight, c));
      && (t == Some(AttitudeLost) <==> AttitudeMissing(s, c))
      && (t == Some(CommandTimeout)
          <==> !AttitudeMissing(s, c) && Navigates(s, c) && COMMAND_RECENT in s.inFlight.required)
      && t != Some(LandRequested)
  {
  }

  lemma StaleDecision(cfg: Config, s: State, c: Cycle)
    requires c.command.enumsValid && c.commandAgeMs >= cfg.commandTimeoutMs
    requires !Critical(SensorFaults(s.faults, c.sensors))
    ensures Descending(Decided(cfg, Sensed(s, c), c)) <==> Descending(s) || DescentStarts(s, c)
  {
    BlindIsCritical(s.faults, c.sensors);
    StaleTrigger(cfg, s, c);
  }

  /** An armed cycle with a stale setpoint ends in Direct or Backup exactly when it started there or one of these
      holds; otherwise the vehicle flies on in Primary or Alternate. */
  lemma StaleSetpointDescendsExactly(cfg: Config, s: State, c: Cycle)
    requires s.init.Armed? && c.commandAgeMs >= cfg.commandTimeoutMs
    ensures Descending(Update(cfg, s, c).0) <==> Descending(s) || DescentStarts(s, c)
  {
    if c.command.enumsValid && !Critical(SensorFaults(s.faults, c.sensors)) {
      StaleDecision(cfg, s, c);
    }
  }

  /** A cycle that lacks a required attitude ends in Backup exactly when Backup stood already, a critical
      fault is seen, or timing violations do not preempt the in-flight checks. */
  lemma AttitudeLossForcesBackup(cfg: Config, s: State, c: Cycle)
    requires s.init.Armed? && c.command.enumsValid && AttitudeMissing(s, c)
    ensures Update(cfg, s, c).0.law.Backup?
            <==> s.law.Backup? || Critical(SensorFaults(s.faults, c.sensors)) || !TimingPersists(s)
  {
  }

  /** What preempts them: at the threshold a cycle without critical faults ends in the same law whatever the
      estimate says, Alternate unless the vehicle is in Backup or in a descent that is not released. */
  lemma TimingPreemptsAttitudeLoss(cfg: Config, s: State, c: Cycle)
    requires s.init.Armed? && c.command.enumsValid && !Critical(SensorFaults(s.faults, c.sensors))
    requires TimingPersists(s)
    ensures Update(cfg, s, c).0.law
            == if s.law.Backup? then Backup
               else if s.law.Direct? && !RecencyRestored(cfg, s, c) then Direct
               else Alternate
  {
  }

  /** The vehicle stays armed throughout. */
  predicate AllArmed(cfg: Config, s: State, es: seq<Event>)
    decreases |es|
  {
    s.init.Armed? && (es == [] || AllArmed(cfg, Next(cfg, s, es[0]), es[1..]))
  }

  /** For the rest of an armed flight a commanded land stays commanded or falls to Backup, and Backup
      stays Backup. */
  lemma {:induction false} TerminalsLatchForTheFlight(cfg: Config, s: State, es: seq<Event>)
    requires CauseMatchesLaw(s) && AllArmed(cfg, s, es)
    ensures s.law.Backup? ==> Run(cfg, s, es).law.Backup?
    ensures s.cause.Commanded? ==> Run(cfg, s, es).cause.Commanded? || Run(cfg, s, es).law.Backup?
    decreases |es|
  {
    if es == [] {
    } else {
      CauseMatchesLawStep(cfg, s, es[0]);
      if s.law.Backup? {
        BackupLeftOnlyFromTheGround(cfg, s, es[0]);
      } else if s.cause.Commanded? && !Next(cfg, s, es[0]).cause.Commanded? {
        CommandedLeftOnlyDownwards(cfg, s, es[0]);
      }
      TerminalsLatchForTheFlight(cfg, Next(cfg, s, es[0]), es[1..]);
    }
  }

  // ---------- the fault latch ----------

  /** No effective ground reset occurs in the run. */
  predicate NoReset(cfg: Config, s: State, es: seq<Event>)
    decreases |es|
  {
    es == [] || (!EffectiveReset(s, es[0]) && NoReset(cfg, Next(cfg, s, es[0]), es[1..]))
  }

  /** Every fault that sensors do not own, once set, survives everything but a ground reset. */
  lemma {:induction false} FaultsLatch(cfg: Config, s: State, es: seq<Event>, f: FaultFlag)
    requires f in s.faults && f !in SENSOR_FAULTS && NoReset(cfg, s, es)
    ensures f in Run(cfg, s, es).faults
    decreases |es|
  {
    if es == [] {
    } else {
      FaultsLatch(cfg, Next(cfg, s, es[0]), es[1..], f);
    }
  }

  /** While such a fault is latched the vehicle never becomes armed. */
  lemma {:induction false} LatchedFaultGrounds(cfg: Config, s: State, es: seq<Event>, f: FaultFlag)
    requires f in s.faults && f !in SENSOR_FAULTS && NoReset(cfg, s, es) && !s.init.Armed?
    ensures !Run(cfg, s, es).init.Armed?
    decreases |es|
  {
    if es == [] {
    } else {
      LatchedFaultGrounds(cfg, Next(cfg, s, es[0]), es[1..], f);
    }
  }

  /** A capability lost in flight is not restored by starting a new flight: after a degradation other
      than command loss or a requested land, no run leads from the ground back into the air without a
      ground reset. */
  lemma DegradationOutlivesTheFlight(cfg: Config, s: State, r: Reason, es: seq<Event>, more: seq<Event>)
    requires LatchedFault(r).Some?
    requires NoReset(cfg, Degraded(s, r), es) && !Run(cfg, Degraded(s, r), es).init.Armed?
    requires NoReset(cfg, Run(cfg, Degraded(s, r), es), more)
    ensures !Run(cfg, Run(cfg, Degraded(s, r), es), more).init.Armed?
  {
    var f := LatchedFault(r).value;
    FaultsLatch(cfg, Degraded(s, r), es, f);
    LatchedFaultGrounds(cfg, Run(cfg, Degraded(s, r), es), more, f);
  }

  /** An armed cycle that sees a critical fault ends in Fault and Backup, with exactly the safe pattern:
      the slew limiter is bypassed. */
  lemma CriticalCycle(cfg: Config, s: State, c: Cycle)
    requires s.init.Armed? && c.command.enumsValid && Critical(SensorFaults(s.faults, c.sensors))
    ensures Update(cfg, s, c).0.init.Fault? && Update(cfg, s, c).0.law.Backup?
    ensures Update(cfg, s, c).1 == Output(cfg.safeOutput, Backup, None)
  {
  }

  /** Every update of the run put out exactly the safe pattern. */
  predicate OnlySafeOutputs(cfg: Config, s: State, es: seq<Event>)
    decreases |es|
  {
    es == [] ||
    (&& (es[0].UpdateEv? ==> Update(cfg, s, es[0].cycle).1.outputs == cfg.safeOutput)
     && OnlySafeOutputs(cfg, Next(cfg, s, es[0]), es[1..]))
  }

  /** Numeric error and estimator divergence are final: from any state, until a ground reset, every output
      is exactly the safe pattern, and `reset_from_fault` never succeeds. */
  lemma {:induction false} PersistentCriticalIsFinal(cfg: Config, s: State, es: seq<Event>, f: FaultFlag)
    requires f in s.faults && f in {NUMERIC_ERROR, ESTIMATOR_DIVERGED} && NoReset(cfg, s, es)
    ensures OnlySafeOutputs(cfg, s, es) && !CanResetFromFault(Run(cfg, s, es))
    decreases |es|
  {
    assert f in s.faults * CRITICAL_FAULTS;
    if es == [] {
    } else {
      if es[0].UpdateEv? {
        assert f in SensorFaults(s.faults, es[0].cycle.sensors) * CRITICAL_FAULTS;
      }
      PersistentCriticalIsFinal(cfg, Next(cfg, s, es[0]), es[1..], f);
    }
  }

  /** Fault is left exactly by a permitted reset, an effective ground reset, a disarm of a vehicle not
      airborne, or a terminate. */
  lemma FaultExits(cfg: Config, s: State, e: Event)
    requires s.init.Fault?
    ensures !Next(cfg, s, e).init.Fault? <==>
            || (e.FaultResetEv? && CanResetFromFault(s))
            || e.GroundResetEv?
            || (e.DisarmEv? && !s.phase.phase.Airborne?)
            || e.TerminateEv?
  {
  }

  // ---------- flight period and disarm ----------

  predicate WellFormedCycle(e: Event) { e.UpdateEv? && e.cycle.command.enumsValid }

  /** The cycles of a run that the latch observed. */
  function Seen(cfg: Config, s: State, es: seq<Event>): seq<FlightPhase.Obs>
    decreases |es|
  {
    if es == [] then []
    else
      (if WellFormedCycle(es[0])
       then [FlightPhase.Obs(es[0].cycle.estimate, es[0].cycle.dtSec)] else [])
      + Seen(cfg, Next(cfg, s, es[0]), es[1..])
  }

  lemma {:induction false} AfterPrepend(l: FlightPhase.Latch, o: FlightPhase.Obs, h: seq<FlightPhase.Obs>)
    ensures FlightPhase.After(l, FlightPhase.DEFAULT_LIMITS, [o] + h)
            == FlightPhase.After(FlightPhase.Update(l, o, true, FlightPhase.DEFAULT_LIMITS),
                                 FlightPhase.DEFAULT_LIMITS, h)
  {
    var lim := FlightPhase.DEFAULT_LIMITS;
    if h == [] {
      assert [o] + h == [o] && [o][..0] == [];
      assert FlightPhase.After(l, lim, [o]) == FlightPhase.Update(FlightPhase.After(l, lim, [o][..0]), o, true, lim);
    } else {
      AfterPrepend(l, o, h[..|h| - 1]);
      assert ([o] + h)[..|h|] == [o] + h[..|h| - 1];
    }
  }

  /** The latch observes the estimate of each well-formed cycle and nothing else. */
  lemma PhaseStep(cfg: Config, s: State, e: Event)
    requires s.init.Armed? && Next(cfg, s, e).init.Armed?
    ensures Next(cfg, s, e).phase
            == if WellFormedCycle(e)
               then FlightPhase.Update(s.phase, FlightPhase.Obs(e.cycle.estimate, e.cycle.dtSec), true,
                                       FlightPhase.DEFAULT_LIMITS)
               else s.phase
  {
  }

  lemma {:induction false} PhaseFollowsRun(cfg: Config, s: State, es: seq<Event>)
    requires AllArmed(cfg, s, es)
    ensures Run(cfg, s, es).phase == FlightPhase.After(s.phase, FlightPhase.DEFAULT_LIMITS, Seen(cfg, s, es))
    decreases |es|
  {
    if es == [] {
    } else {
      var s', rest := Next(cfg, s, es[0]), es[1..];
      PhaseFollowsRun(cfg, s', rest);
      PhaseStep(cfg, s, es[0]);
      if WellFormedCycle(es[0]) {
        AfterPrepend(s.phase, FlightPhase.Obs(es[0].cycle.estimate, es[0].cycle.dtSec), Seen(cfg, s', rest));
      } else {
        assert Seen(cfg, s, es) == Seen(cfg, s', rest);
      }
    }
  }

  /** An ordinary disarm is refused exactly when the vehicle was armed on a usable estimate and the history
      since shows it airborne: whatever else happens in the flight, it climbed and no landing was demonstrated
      since. Armed on an unusable one, it can be disarmed at any height. */
  lemma DisarmRefusedExactlyInFlight(cfg: Config, s: State, e: FlightPhase.Estimate, es: seq<Event>)
    requires ArmVerdict(s).Ok? && AllArmed(cfg, ArmAttempt(s, e), es)
    ensures var flown := Run(cfg, ArmAttempt(s, e), es);
      DisarmAttempt(flown) == flown <==>
      && FlightPhase.Usable(e)
      && FlightPhase.AirborneBy(FlightPhase.AltitudeOf(e), FlightPhase.DEFAULT_LIMITS,
                                Seen(cfg, ArmAttempt(s, e), es))
  {
    var armed := ArmAttempt(s, e);
    PhaseFollowsRun(cfg, armed, es);
    RunEndsArmed(cfg, armed, es);
    if FlightPhase.Usable(e) {
      FlightPhase.LatchMeetsHistory(e, FlightPhase.DEFAULT_LIMITS, Seen(cfg, armed, es));
    } else {
      FlightPhase.UnusableDatumNeverLatches(e, FlightPhase.DEFAULT_LIMITS, Seen(cfg, armed, es));
    }
  }

  lemma {:induction false} RunEndsArmed(cfg: Config, s: State, es: seq<Event>)
    requires AllArmed(cfg, s, es)
    ensures Run(cfg, s, es).init.Armed?
    decreases |es|
  {
    if es == [] {
    } else {
      RunEndsArmed(cfg, Next(cfg, s, es[0]), es[1..]);
    }
  }

  // ---------- slew towards the safe pattern ----------

  function Gap(a: real, b: real): real { if a < b then b - a else a - b }

  predicate SameChannels(cfg: Config, s: State) {
    |s.commanded| == |cfg.safeOutput| == |cfg.slewLimit|
  }

  /** In Backup a cycle moves each limited channel towards the safe pattern by its limit, or onto it. */
  lemma BackupCycleCloses(cfg: Config, s: State, c: Cycle, i: nat)
    requires s.init.Armed? && s.law.Backup? && SameChannels(cfg, s) && i < |cfg.safeOutput|
    requires c.command.enumsValid && Update(cfg, s, c).0.init.Armed? && cfg.slewLimit[i] > 0.0
    ensures SameChannels(cfg, Update(cfg, s, c).0)
    ensures Update(cfg, s, c).1.outputs == Update(cfg, s, c).0.commanded
    ensures var before := Gap(s.commanded[i], cfg.safeOutput[i]);
      Gap(Update(cfg, s, c).0.commanded[i], cfg.safeOutput[i])
      == if before <= cfg.slewLimit[i] then 0.0 else before - cfg.slewLimit[i]
  {
    assert Decided(cfg, Sensed(s, c), c).law.Backup?;
  }

  /** The well-formed update cycles among the events. */
  function Cycles(es: seq<Event>): nat {
    if es == [] then 0 else (if WellFormedCycle(es[0]) then 1 else 0) + Cycles(es[1..])
  }

  lemma GapRemaining(n: nat, gap: real, limit: real)
    requires n > 0 && limit > 0.0 && gap <= n as real * limit
    ensures (if gap <= limit then 0.0 else gap - limit) <= (n - 1) as real * limit
  {
    assert n as real * limit == (n - 1) as real * limit + limit;
    assert 0.0 <= (n - 1) as real * limit;
  }

  lemma NoGap(a: real, b: real, limit: real)
    requires Gap(a, b) <= 0 as real * limit
    ensures a == b
  {
  }

  /** In Backup, with at most `n` limits to go on channel `i`. */
  predicate Closing(cfg: Config, s: State, i: nat, n: nat) {
    && s.law.Backup? && SameChannels(cfg, s) && i < |cfg.safeOutput| && cfg.slewLimit[i] > 0.0
    && Gap(s.commanded[i], cfg.safeOutput[i]) <= n as real * cfg.slewLimit[i]
  }

  lemma BackupStays(cfg: Config, s: State, e: Event)
    requires s.init.Armed? && Next(cfg, s, e).init.Armed? && s.law.Backup?
    ensures Next(cfg, s, e).law.Backup?
  {
    BackupLeftOnlyFromTheGround(cfg, s, e);
  }

  lemma OneLimitCloser(cfg: Config, s: State, t: State, i: nat, n: nat)
    requires Closing(cfg, s, i, n) && t.law.Backup? && SameChannels(cfg, t)
    requires var before := Gap(s.commanded[i], cfg.safeOutput[i]);
      Gap(t.commanded[i], cfg.safeOutput[i]) == if before <= cfg.slewLimit[i] then 0.0 else before - cfg.slewLimit[i]
    ensures Closing(cfg, t, i, if n > 0 then n - 1 else 0)
  {
    if n > 0 {
      GapRemaining(n, Gap(s.commanded[i], cfg.safeOutput[i]), cfg.slewLimit[i]);
    }
  }

  lemma ClosingCycle(cfg: Config, s: State, e: Event, i: nat, n: nat)
    requires s.init.Armed? && Next(cfg, s, e).init.Armed? && WellFormedCycle(e)
    requires Closing(cfg, s, i, n)
    ensures Closing(cfg, Next(cfg, s, e), i, if n > 0 then n - 1 else 0)
  {
    BackupCycleCloses(cfg, s, e.cycle, i);
    BackupStays(cfg, s, e);
    OneLimitCloser(cfg, s, Next(cfg, s, e), i, n);
  }

  /** Every other operation leaves an armed vehicle's outputs alone. */
  lemma ClosingOtherwise(cfg: Config, s: State, e: Event, i: nat, n: nat)
    requires s.init.Armed? && Next(cfg, s, e).init.Armed? && !WellFormedCycle(e)
    requires Closing(cfg, s, i, n)
    ensures Closing(cfg, Next(cfg, s, e), i, n)
  {
    BackupStays(cfg, s, e);
    assert Next(cfg, s, e).commanded == s.commanded;
  }

  /** So in an armed Backup, whatever else happens, every limited channel reaches the safe pattern after gap/limit
      well-formed cycles and stays there. */
  lemma {:induction false} BackupReachesSafe(cfg: Config, s: State, es: seq<Event>, i: nat, n: nat)
    requires AllArmed(cfg, s, es) && Closing(cfg, s, i, n) && n <= Cycles(es)
    ensures SameChannels(cfg, Run(cfg, s, es)) && Run(cfg, s, es).commanded[i] == cfg.safeOutput[i]
    decreases |es|
  {
    if es == [] {
      NoGap(s.commanded[i], cfg.safeOutput[i], cfg.slewLimit[i]);
    } else {
      var e, rest := es[0], es[1..];
      if WellFormedCycle(e) {
        ClosingCycle(cfg, s, e, i, n);
        BackupReachesSafe(cfg, Next(cfg, s, e), rest, i, if n > 0 then n - 1 else 0);
      } else {
        ClosingOtherwise(cfg, s, e, i, n);
        BackupReachesSafe(cfg, Next(cfg, s, e), rest, i, n);
      }
    }
  }

  // ---------- reachability from power-on ----------

  lemma {:induction false} RunConcat(cfg: Config, s: State, es: seq<Event>, more: seq<Event>)
    ensures Run(cfg, s, es + more) == Run(cfg, Run(cfg, s, es), more)
    decreases |es|
  {
    if es == [] {
      assert es + more == more;
    } else {
      assert (es + more)[1..] == es[1..] + more;
      RunConcat(cfg, Next(cfg, s, es[0]), es[1..], more);
    }
  }

  lemma RunOne(cfg: Config, s: State, e: Event)
    ensures Run(cfg, s, [e]) == Next(cfg, s, e)
  {
    assert Run(cfg, Next(cfg, s, e), []) == Next(cfg, s, e);
    assert [e][1..] == [];
  }

  lemma RunSnoc(cfg: Config, s: State, es: seq<Event>, e: Event)
    ensures Run(cfg, s, es + [e]) == Next(cfg, Run(cfg, s, es), e)
  {
    RunConcat(cfg, s, es, [e]);
    RunOne(cfg, Run(cfg, s, es), e);
  }

  const HEALTHY: Reading := Reading(true, Good)

  const ALL_HEALTHY: Sensors := Sensors([HEALTHY], [HEALTHY], [HEALTHY], [HEALTHY])

  lemma AllHealthyIsGood()
    ensures AnyGood(ALL_HEALTHY.imus) && AnyGood(ALL_HEALTHY.baros)
    ensures AnyGood(ALL_HEALTHY.mags) && AnyGood(ALL_HEALTHY.gnss)
  {
    assert HEALTHY in [HEALTHY];
  }

  /** One pre-arm step in which every sensor is healthy. */
  function GoodStep(e: FlightPhase.Estimate): Event { InitStepEv(ALL_HEALTHY, e) }

  function GoodSteps(n: nat, e: FlightPhase.Estimate): (es: seq<Event>)
    ensures forall i :: 0 <= i < |es| ==> es[i].InitStepEv?
  {
    if n == 0 then [] else [GoodStep(e)] + GoodSteps(n - 1, e)
  }

  lemma OneGoodStep(cfg: Config, s: State, n: nat, e: FlightPhase.Estimate)
    requires n > 0
    ensures Run(cfg, s, GoodSteps(n, e)) == Run(cfg, InitStepped(s, ALL_HEALTHY, e), GoodSteps(n - 1, e))
  {
    assert GoodSteps(n, e)[1..] == GoodSteps(n - 1, e);
  }

  /** `n` samples of each sensor are in, no fault stands and the throttle is low. */
  predicate Warm(s: State, n: nat) {
    && s.faults == {} && s.preArm.required == QUAD_MINIMUM && THROTTLE_LOW in s.preArm.current
    && n <= U32_MAX && s.preArm.samples == Samples(n, n, n, n, 100)
  }

  /** Where `n` good steps lead: from power-on, or again from a pre-arm state without samples. */
  function Stage(again: bool, n: nat): InitState {
    if again then if n < 100 then PreArm else Ready
    else if n == 0 then PowerOn
    else if n == 1 then ConfigLoading
    else if n == 2 then SensorInit
    else if n < 100 then EstimatorConverging
    else if n == 100 then PreArm
    else Ready
  }

  /** Warm at stage `init`, otherwise as it began. */
  predicate WarmAt(s: State, n: nat, init: InitState, t: State) {
    Warm(t, n) && t.init == init && t.law == s.law && t.cause == s.cause && t.phase == s.phase
  }

  lemma StageStep(s: State, t: State, again: bool, n: nat, e: FlightPhase.Estimate)
    requires WarmAt(s, n, Stage(again, n), t) && n < U32_MAX && FlightPhase.Usable(e)
    ensures WarmAt(s, n + 1, Stage(again, n + 1), InitStepped(t, ALL_HEALTHY, e))
  {
    AllHealthyIsGood();
  }

  /** Every good step below the limit leads from `holds` at one count to `holds` at the next. */
  ghost predicate Advances(holds: (State, nat) -> bool, limit: nat, e: FlightPhase.Estimate) {
    forall t: State, i: nat :: holds(t, i) && i < limit ==> holds(InitStepped(t, ALL_HEALTHY, e), i + 1)
  }

  lemma {:induction false} GoodInduction(
    cfg: Config, t: State, holds: (State, nat) -> bool, m: nat, n: nat, k: nat, e: FlightPhase.Estimate)
    requires holds(t, m) && m + n == k && Advances(holds, k, e)
    ensures holds(Run(cfg, t, GoodSteps(n, e)), k)
    decreases n
  {
    if n == 0 {
      assert GoodSteps(n, e) == [];
    } else {
      GoodInduction(cfg, InitStepped(t, ALL_HEALTHY, e), holds, m + 1, n - 1, k, e);
      OneGoodStep(cfg, t, n, e);
    }
  }

  lemma WarmUp(cfg: Config, s: State, again: bool, n: nat, e: FlightPhase.Estimate)
    requires WarmAt(s, 0, Stage(again, 0), s) && FlightPhase.Usable(e) && n <= U32_MAX
    ensures WarmAt(s, n, Stage(again, n), Run(cfg, s, GoodSteps(n, e)))
  {
    var holds := (t: State, i: nat) => WarmAt(s, i, Stage(again, i), t);
    forall t: State, i: nat | holds(t, i) && i < n ensures holds(InitStepped(t, ALL_HEALTHY, e), i + 1) {
      StageStep(s, t, again, i, e);
    }
    GoodInduction(cfg, s, holds, 0, n, n, e);
  }

  /** Throttle low, `n` good steps, and an arm on the estimate `u`. */
  function ToFirstArmOn(n: nat, e: FlightPhase.Estimate, u: FlightPhase.Estimate): seq<Event> {
    [ThrottleEv(true)] + GoodSteps(n, e) + [ArmEv(u)]
  }

  function ToFirstArm(n: nat, e: FlightPhase.Estimate): seq<Event> { ToFirstArmOn(n, e, e) }

  /** Just armed on the estimate `e`, with `n` samples of each sensor in. */
  predicate FreshlyArmed(s: State, n: nat, e: FlightPhase.Estimate) {
    && Warm(s, n) && s.init.Armed? && s.law.Primary? && s.cause.NoCause?
    && s.phase == FlightPhase.BeginFlightPeriod(e)
  }

  lemma ArmWhenWarm(s: State, n: nat, e: FlightPhase.Estimate)
    requires Warm(s, n) && s.init.Ready?
    ensures FreshlyArmed(ArmAttempt(s, e), n, e)
  {
  }

  lemma LowAtPowerOn(cfg: Config, flight: set<InFlightFlag>, channels: nat)
    ensures var low := Next(cfg, PoweredOn(Quad(flight), channels), ThrottleEv(true)); WarmAt(low, 0, PowerOn, low)
  {
  }

  /** A hundred and one good steps or more make the vehicle ready to arm, on any estimate. */
  lemma FirstArmOn(
    cfg: Config, flight: set<InFlightFlag>, channels: nat, n: nat, e: FlightPhase.Estimate, u: FlightPhase.Estimate)
    requires FlightPhase.Usable(e) && 100 < n <= U32_MAX
    ensures var es := [ThrottleEv(true)] + GoodSteps(n, e);
      ArmVerdict(Run(cfg, PoweredOn(Quad(flight), channels), es)).Ok?
    ensures FreshlyArmed(Run(cfg, PoweredOn(Quad(flight), channels), ToFirstArmOn(n, e, u)), n, u)
  {
    var s := PoweredOn(Quad(flight), channels);
    var low := Next(cfg, s, ThrottleEv(true));
    LowAtPowerOn(cfg, flight, channels);
    WarmUp(cfg, low, false, n, e);
    ArmWhenWarm(Run(cfg, low, GoodSteps(n, e)), n, u);
    RunOne(cfg, s, ThrottleEv(true));
    RunConcat(cfg, s, [ThrottleEv(true)], GoodSteps(n, e));
    RunSnoc(cfg, s, [ThrottleEv(true)] + GoodSteps(n, e), ArmEv(u));
  }

  lemma FirstArm(cfg: Config, flight: set<InFlightFlag>, channels: nat, n: nat, e: FlightPhase.Estimate)
    requires FlightPhase.Usable(e) && 100 < n <= U32_MAX
    ensures FreshlyArmed(Run(cfg, PoweredOn(Quad(flight), channels), ToFirstArm(n, e)), n, e)
  {
    FirstArmOn(cfg, flight, channels, n, e, e);
  }

  /** Disarm, and warm up again: one step to leave Disarmed, then `n` for the samples. */
  function BackToReady(n: nat, e: FlightPhase.Estimate): seq<Event> { [DisarmEv, GoodStep(e)] + GoodSteps(n, e) }

  lemma TwoSteps(cfg: Config, s: State, a: Event, b: Event)
    ensures Run(cfg, s, [a, b]) == Next(cfg, Next(cfg, s, a), b)
  {
    assert [a, b] == [a] + [b];
    RunConcat(cfg, s, [a], [b]);
    RunOne(cfg, s, a);
    RunOne(cfg, Next(cfg, s, a), b);
  }

  lemma DisarmedAndBack(armed: State, k: nat, e: FlightPhase.Estimate)
    requires Warm(armed, k) && !armed.phase.phase.Airborne?
    ensures var again := InitStepped(DisarmAttempt(armed), ALL_HEALTHY, e);
      WarmAt(again, 0, PreArm, again) && again.law.Backup?
  {
    LeavesDisarmed(DisarmAttempt(armed), e);
  }

  lemma ReadyAgain(cfg: Config, armed: State, k: nat, n: nat, e: FlightPhase.Estimate)
    requires Warm(armed, k) && FlightPhase.Usable(e) && !armed.phase.phase.Airborne? && 100 <= n <= U32_MAX
    ensures var t := Run(cfg, armed, BackToReady(n, e)); Warm(t, n) && t.init.Ready? && t.law.Backup?
  {
    var again := InitStepped(DisarmAttempt(armed), ALL_HEALTHY, e);
    DisarmedAndBack(armed, k, e);
    WarmUp(cfg, again, true, n, e);
    TwoSteps(cfg, armed, DisarmEv, GoodStep(e));
    RunConcat(cfg, armed, [DisarmEv, GoodStep(e)], GoodSteps(n, e));
  }

  /** A reachable arm leaves Backup: powered on, armed, disarmed and armed again, with no ground reset. */
  lemma RearmLeavesBackup(cfg: Config, flight: set<InFlightFlag>, channels: nat, n: nat, e: FlightPhase.Estimate)
    requires FlightPhase.Usable(e) && 100 < n <= U32_MAX
    ensures var es := ToFirstArm(n, e) + BackToReady(n, e);
      var before := Run(cfg, PoweredOn(Quad(flight), channels), es);
      && NoReset(cfg, PoweredOn(Quad(flight), channels), es)
      && before.law.Backup? && ArmsNow(before, ArmEv(e)) && Next(cfg, before, ArmEv(e)).law.Primary?
  {
    var s := PoweredOn(Quad(flight), channels);
    FirstArm(cfg, flight, channels, n, e);
    ReadyAgain(cfg, Run(cfg, s, ToFirstArm(n, e)), n, n, e);
    RunConcat(cfg, s, ToFirstArm(n, e), BackToReady(n, e));
    WithoutReset(cfg, s, ToFirstArm(n, e) + BackToReady(n, e));
  }

  lemma LeavesDisarmed(s: State, e: FlightPhase.Estimate)
    requires s.init.Disarmed? && s.faults == {} && s.preArm.required == QUAD_MINIMUM
    requires THROTTLE_LOW in s.preArm.current && s.preArm.samples.minRequired == 100
    ensures var t := InitStepped(s, ALL_HEALTHY, e);
      Warm(t, 0) && t.init.PreArm? && t.law == s.law && t.cause == s.cause && t.phase == s.phase
  {
  }

  lemma {:induction false} WithoutReset(cfg: Config, s: State, es: seq<Event>)
    requires forall i :: 0 <= i < |es| ==> !es[i].GroundResetEv?
    ensures NoReset(cfg, s, es)
    decreases |es|
  {
    if es == [] {
    } else {
      WithoutReset(cfg, Next(cfg, s, es[0]), es[1..]);
    }
  }

  lemma BlindCycleFaults(cfg: Config, s: State, n: nat, e: FlightPhase.Estimate, c: Cycle)
    requires FreshlyArmed(s, n, e) && c.command.enumsValid && !AnyGood(c.sensors.imus)
    ensures var t := Next(cfg, s, UpdateEv(c)); t.init.Fault? && Critical(t.faults) && t.phase.phase.OnGround?
  {
    BlindIsCritical(s.faults, c.sensors);
  }

  /** A reachable disarm leaves Fault: armed as above, one cycle without any IMU, and a disarm, with neither
      a fault reset nor a ground reset. A terminate does the same. */
  lemma DisarmLeavesFault(
    cfg: Config, flight: set<InFlightFlag>, channels: nat, n: nat, e: FlightPhase.Estimate, c: Cycle)
    requires FlightPhase.Usable(e) && 100 < n <= U32_MAX && c.command.enumsValid && !AnyGood(c.sensors.imus)
    ensures var before := Run(cfg, PoweredOn(Quad(flight), channels), ToFirstArm(n, e) + [UpdateEv(c)]);
      && before.init.Fault? && !CanResetFromFault(before)
      && Next(cfg, before, DisarmEv).init.Disarmed? && Next(cfg, before, TerminateEv).init.Disarmed?
  {
    var s := PoweredOn(Quad(flight), channels);
    FirstArm(cfg, flight, channels, n, e);
    BlindCycleFaults(cfg, Run(cfg, s, ToFirstArm(n, e)), n, e, c);
    RunSnoc(cfg, s, ToFirstArm(n, e), UpdateEv(c));
  }

  // ---------- witnesses for what the code lets happen ----------

  /** Cycles that see some good IMU, whatever else they see. */
  predicate SeeingCycles(es: seq<Event>) {
    forall i :: 0 <= i < |es| ==> es[i].UpdateEv? && AnyGood(es[i].cycle.sensors.imus)
  }

  /** The critical faults that sensors do not own. */
  predicate Sane(s: State) { NUMERIC_ERROR !in s.faults && ESTIMATOR_DIVERGED !in s.faults }

  lemma SeeingCycleStaysArmed(cfg: Config, s: State, c: Cycle)
    requires s.init.Armed? && Sane(s) && AnyGood(c.sensors.imus)
    ensures Update(cfg, s, c).0.init.Armed? && Sane(Update(cfg, s, c).0)
  {
  }

  lemma {:induction false} SeeingCyclesStayArmed(cfg: Config, s: State, es: seq<Event>)
    requires s.init.Armed? && Sane(s) && SeeingCycles(es)
    ensures AllArmed(cfg, s, es)
    decreases |es|
  {
    if es == [] {
    } else {
      SeeingCycleStaysArmed(cfg, s, es[0].cycle);
      SeeingCyclesStayArmed(cfg, Next(cfg, s, es[0]), es[1..]);
    }
  }

  /** A reachable flight that can be disarmed at any height: powered on, ready, armed on an unusable estimate, and
      then any cycles with a good IMU, whatever heights they show. */
  lemma DisarmableInFlight(
    cfg: Config, flight: set<InFlightFlag>, channels: nat, n: nat, e: FlightPhase.Estimate, u: FlightPhase.Estimate,
    es: seq<Event>)
    requires FlightPhase.Usable(e) && !FlightPhase.Usable(u) && 100 < n <= U32_MAX && SeeingCycles(es)
    ensures var armed := Run(cfg, PoweredOn(Quad(flight), channels), ToFirstArmOn(n, e, u));
      AllArmed(cfg, armed, es) && DisarmAttempt(Run(cfg, armed, es)).init.Disarmed?
  {
    var ready := Run(cfg, PoweredOn(Quad(flight), channels), [ThrottleEv(true)] + GoodSteps(n, e));
    var armed := Run(cfg, PoweredOn(Quad(flight), channels), ToFirstArmOn(n, e, u));
    FirstArmOn(cfg, flight, channels, n, e, u);
    RunSnoc(cfg, PoweredOn(Quad(flight), channels), [ThrottleEv(true)] + GoodSteps(n, e), ArmEv(u));
    assert armed == ArmAttempt(ready, u);
    SeeingCyclesStayArmed(cfg, armed, es);
    DisarmRefusedExactlyInFlight(cfg, ready, u, es);
  }

  lemma RequirementFixed(cfg: Config, s: State, e: Event)
    ensures Next(cfg, s, e).inFlight.required == s.inFlight.required
  {
  }

  /** No operation changes what is required in flight. */
  lemma {:induction false} RequirementsFixed(cfg: Config, s: State, es: seq<Event>)
    ensures Run(cfg, s, es).inFlight.required == s.inFlight.required
    decreases |es|
  {
    if es == [] {
    } else {
      RequirementFixed(cfg, s, es[0]);
      RequirementsFixed(cfg, Next(cfg, s, es[0]), es[1..]);
    }
  }

  const THREE_VIOLATIONS: seq<Event> := [TimingEv(true), TimingEv(true)] + [TimingEv(true)]

  lemma ThreeViolations(cfg: Config, s: State)
    ensures var t := Run(cfg, s, THREE_VIOLATIONS); TimingPersists(t) && t == s.(timing := t.timing)
  {
    TwoSteps(cfg, s, TimingEv(true), TimingEv(true));
    RunSnoc(cfg, s, [TimingEv(true), TimingEv(true)], TimingEv(true));
  }

  lemma AlternateAfterViolations(cfg: Config, armed: State, c: Cycle)
    requires armed.init.Armed? && armed.law.Primary? && Sane(armed)
    requires c.command.enumsValid && AnyGood(c.sensors.imus)
    ensures var before := Run(cfg, armed, THREE_VIOLATIONS);
      && before.init.Armed? && before.law.Primary? && before.inFlight == armed.inFlight
      && Next(cfg, before, UpdateEv(c)).law.Alternate?
  {
    ThreeViolations(cfg, armed);
    TimingPreemptsAttitudeLoss(cfg, Run(cfg, armed, THREE_VIOLATIONS), c);
  }

  /** A reachable cycle in which neither a missing attitude nor a stale setpoint brings the vehicle down: armed as
      above, three timing violations, and a cycle with a good IMU. Whatever it lacks besides, it ends in Alternate. */
  lemma TimingHidesLosses(
    cfg: Config, flight: set<InFlightFlag>, channels: nat, n: nat, e: FlightPhase.Estimate, c: Cycle)
    requires FlightPhase.Usable(e) && 100 < n <= U32_MAX && c.command.enumsValid && AnyGood(c.sensors.imus)
    ensures var before := Run(cfg, PoweredOn(Quad(flight), channels), ToFirstArm(n, e) + THREE_VIOLATIONS);
      && before.init.Armed? && before.law.Primary?
      && before.inFlight.required == flight
      && Next(cfg, before, UpdateEv(c)).law.Alternate?
  {
    var s := PoweredOn(Quad(flight), channels);
    FirstArm(cfg, flight, channels, n, e);
    RequirementsFixed(cfg, s, ToFirstArm(n, e));
    AlternateAfterViolations(cfg, Run(cfg, s, ToFirstArm(n, e)), c);
    RunConcat(cfg, s, ToFirstArm(n, e), THREE_VIOLATIONS);
  }

  lemma UnplacedTrigger(cfg: Config, f: InFlightStatus, c: Cycle)
    requires f.required == POSITION_FLIGHT
    requires AnyGood(c.sensors.imus) && FlightPhase.ATTITUDE in c.estimate.validFlags
    requires !({FlightPhase.POSITION, FlightPhase.VELOCITY} <= c.estimate.validFlags)
    ensures Trigger(Observed(cfg, f, c)) in {Some(PositionLost), Some(VelocityLost)}
  {
  }

  lemma SeeingIsUncritical(s: State, sensors: Sensors)
    requires Sane(s) && AnyGood(sensors.imus)
    ensures !Critical(SensorFaults(s.faults, sensors))
  {
  }

  lemma UnplacedCycleInAlternate(cfg: Config, s: State, c: Cycle)
    requires s.init.Armed? && s.law.Primary? && Sane(s) && s.inFlight.required == POSITION_FLIGHT
    requires c.command.enumsValid && AnyGood(c.sensors.imus) && FlightPhase.ATTITUDE in c.estimate.validFlags
    requires !({FlightPhase.POSITION, FlightPhase.VELOCITY} <= c.estimate.validFlags)
    ensures Next(cfg, s, UpdateEv(c)).law.Alternate?
  {
    SeeingIsUncritical(s, c.sensors);
    UnplacedTrigger(cfg, s.inFlight, c);
    assert Decided(cfg, Sensed(s, c), c).law.Alternate?;
  }

  /** A reachable cycle in which a stale setpoint does not bring the vehicle down for want of a position: required to
      hold position, armed as above, and a cycle with a good IMU and an attitude but without a position or a velocity.
      However old the setpoint, it ends in Alternate. */
  lemma PositionLossFliesOn(cfg: Config, channels: nat, n: nat, e: FlightPhase.Estimate, c: Cycle)
    requires FlightPhase.Usable(e) && 100 < n <= U32_MAX && c.command.enumsValid && AnyGood(c.sensors.imus)
    requires FlightPhase.ATTITUDE in c.estimate.validFlags
    requires !({FlightPhase.POSITION, FlightPhase.VELOCITY} <= c.estimate.validFlags)
    ensures var before := Run(cfg, PoweredOn(Quad(POSITION_FLIGHT), channels), ToFirstArm(n, e));
      && before.init.Armed? && before.law.Primary? && COMMAND_RECENT in before.inFlight.required
      && Next(cfg, before, UpdateEv(c)).law.Alternate?
  {
    var s := PoweredOn(Quad(POSITION_FLIGHT), channels);
    FirstArm(cfg, POSITION_FLIGHT, channels, n, e);
    RequirementsFixed(cfg, s, ToFirstArm(n, e));
    UnplacedCycleInAlternate(cfg, Run(cfg, s, ToFirstArm(n, e)), c);
  }
}
