/** What the kernel's operations achieve (aviate-core/src/kernel_update.rs, kernel_logic.rs,
    kernel_logic/lifecycle.rs): what a cycle puts out and reports, which faults follow the sensors, what readiness to
    arm takes, and what a ground reset makes possible again. */
module KernelEffects {
  import opened Common
  import opened Kernel
  import FlightPhase

  // ---------- what a cycle puts out ----------

  /** A cycle that flies the vehicle. */
  predicate Flies(s: State, c: Cycle) {
    s.init.Armed? && c.command.enumsValid && !Critical(SensorFaults(s.faults, c.sensors))
  }

  /** The slew limit of channel `i`; zero if it has none. */
  function LimitAt(cfg: Config, s: State, i: nat): real {
    if i < |s.commanded| && i < |cfg.slewLimit| then cfg.slewLimit[i] else 0.0
  }

  /** `out` is the target on a channel without a limit, or within one limit of it, and otherwise exactly one limit
      closer to it than `before`. */
  predicate Approaches(before: real, target: real, limit: real, out: real) {
    if limit <= 0.0 || Gap(before, target) <= limit then out == target
    else Gap(before, out) == limit && Gap(out, target) == Gap(before, target) - limit
  }

  lemma SlewedApproaches(before: real, target: real, limit: real)
    ensures Approaches(before, target, limit, Slewed(before, target, limit))
  {
  }

  /** Every channel of `out` approaches that of `target`. */
  predicate AllApproach(cfg: Config, s: State, target: seq<real>, out: seq<real>) {
    && |out| == |target|
    && forall i :: 0 <= i < |out| ==>
         Approaches(if i < |s.commanded| then s.commanded[i] else 0.0, target[i], LimitAt(cfg, s, i), out[i])
  }

  lemma SlewAllApproaches(cfg: Config, s: State, target: seq<real>)
    ensures AllApproach(cfg, s, target, SlewAll(s.commanded, target, cfg.slewLimit))
  {
    var out := SlewAll(s.commanded, target, cfg.slewLimit);
    forall i | 0 <= i < |out|
      ensures Approaches(if i < |s.commanded| then s.commanded[i] else 0.0, target[i], LimitAt(cfg, s, i), out[i])
    {
      if i < |s.commanded| && i < |cfg.slewLimit| {
        SlewedApproaches(s.commanded[i], target[i], cfg.slewLimit[i]);
      }
    }
  }

  /** The controller's output is flown in Direct, and in Primary and Alternate when the mode is supported. */
  predicate Controlled(l: Law, c: Cycle) { l.Direct? || (!l.Backup? && c.modeSupported) }

  lemma FlyingUpdate(cfg: Config, s: State, c: Cycle)
    requires Flies(s, c)
    ensures var (t, o) := Update(cfg, s, c);
      && t.init.Armed? && o.law == t.law && o.outputs == t.commanded
      && o.outputs
         == SlewAll(s.commanded, if Controlled(t.law, c) then c.mixed else cfg.safeOutput, cfg.slewLimit)
  {
  }

  /** A flying cycle puts out, channel by channel and under the slew limits, the mixer's result if the law it ends in
      is one of control, and the safe pattern otherwise; it reports that law and remembers what it put out. */
  lemma FlyingCycleOutput(cfg: Config, s: State, c: Cycle)
    requires Flies(s, c)
    ensures var (t, o) := Update(cfg, s, c);
      && t.init.Armed? && o.law == t.law && t.commanded == o.outputs
      && AllApproach(cfg, s, if Controlled(t.law, c) then c.mixed else cfg.safeOutput, o.outputs)
  {
    FlyingUpdate(cfg, s, c);
    var t := Update(cfg, s, c).0;
    SlewAllApproaches(cfg, s, if Controlled(t.law, c) then c.mixed else cfg.safeOutput);
  }

  /** Every other cycle puts out exactly the safe pattern, at once, as Backup and without a report. */
  lemma OtherCycleOutput(cfg: Config, s: State, c: Cycle)
    requires !Flies(s, c)
    ensures Update(cfg, s, c).1 == Output(cfg.safeOutput, Backup, None)
    ensures Update(cfg, s, c).0.commanded == s.commanded
  {
  }

  // ---------- what a cycle degrades for ----------

  /** The requirement is met in this cycle; the envelope and the RC link are judged by what was last recorded. */
  predicate Meets(cfg: Config, s: State, c: Cycle, f: InFlightFlag) {
    match f
    case ATTITUDE_VALID => FlightPhase.ATTITUDE in c.estimate.validFlags
    case HEADING_VALID => FlightPhase.ATTITUDE in c.estimate.validFlags
    case POSITION_VALID => FlightPhase.POSITION in c.estimate.validFlags
    case VELOCITY_VALID => FlightPhase.VELOCITY in c.estimate.validFlags
    case IMU_OK => AnyGood(c.sensors.imus)
    case BARO_OK => AnyGood(c.sensors.baros)
    case COMMAND_RECENT => c.commandAgeMs < cfg.commandTimeoutMs
    case ALTITUDE_OK => AltitudeOk(cfg, c.estimate)
    case _ => f in s.inFlight.current
  }

  /** The requirements in order of urgency, what each is degraded for, and the fault that stays. */
  const URGENCY: seq<(InFlightFlag, Reason)> :=
    [(ATTITUDE_VALID, AttitudeLost), (IMU_OK, ImuDegraded), (POSITION_VALID, PositionLost),
     (VELOCITY_VALID, VelocityLost), (COMMAND_RECENT, CommandTimeout), (WITHIN_ENVELOPE, EnvelopeViolation),
     (BARO_OK, BaroDegraded), (RC_AVAILABLE, RcLost)]

  const LATCHES: map<Reason, FaultFlag> :=
    map[AttitudeLost := ATTITUDE_LOST, ImuDegraded := IMU_DEGRADED, PositionLost := POSITION_LOST,
        VelocityLost := VELOCITY_LOST, EnvelopeViolation := ENVELOPE_VIOLATION, BaroDegraded := BARO_DEGRADED,
        RcLost := RC_LOST, TimingViolation := TIMING_PERSISTENT]

  const LEADS_TO: map<Reason, Law> :=
    map[AttitudeLost := Backup, CommandTimeout := Direct, ImuDegraded := Alternate, PositionLost := Alternate,
        VelocityLost := Alternate, EnvelopeViolation := Alternate, BaroDegraded := Alternate, RcLost := Alternate,
        TimingViolation := Alternate]

  /** The first requirement from `k` on, in order of urgency, that is not met. */
  function FirstUnmet(cfg: Config, s: State, c: Cycle, k: nat): Option<Reason>
    requires k <= |URGENCY|
    decreases |URGENCY| - k
  {
    if k == |URGENCY| then None
    else if URGENCY[k].0 in s.inFlight.required && !Meets(cfg, s, c, URGENCY[k].0) then Some(URGENCY[k].1)
    else FirstUnmet(cfg, s, c, k + 1)
  }

  function DegradesFor(cfg: Config, s: State, c: Cycle): Option<Reason> {
    if TimingPersists(s) then Some(TimingViolation) else FirstUnmet(cfg, s, c, 0)
  }

  lemma ObservedMeets(cfg: Config, s: State, c: Cycle, f: InFlightFlag)
    ensures f in Observed(cfg, s.inFlight, c).current <==> Meets(cfg, s, c, f)
  {
  }

  lemma TriggerIsFirstUnmet(cfg: Config, s: State, c: Cycle)
    ensures Trigger(Observed(cfg, s.inFlight, c)) == FirstUnmet(cfg, s, c, 0)
  {
    forall f: InFlightFlag ensures f in Observed(cfg, s.inFlight, c).current <==> Meets(cfg, s, c, f) {
      ObservedMeets(cfg, s, c, f);
    }
    assert FirstUnmet(cfg, s, c, 8) == None;
    assert FirstUnmet(cfg, s, c, 6)
        == if BARO_OK in s.inFlight.required && !Meets(cfg, s, c, BARO_OK) then Some(BaroDegraded)
           else FirstUnmet(cfg, s, c, 7);
    assert FirstUnmet(cfg, s, c, 4)
        == if COMMAND_RECENT in s.inFlight.required && !Meets(cfg, s, c, COMMAND_RECENT) then Some(CommandTimeout)
           else FirstUnmet(cfg, s, c, 5);
    assert FirstUnmet(cfg, s, c, 2)
        == if POSITION_VALID in s.inFlight.required && !Meets(cfg, s, c, POSITION_VALID) then Some(PositionLost)
           else FirstUnmet(cfg, s, c, 3);
  }

  lemma TriggerHasLaw(f: InFlightStatus)
    ensures Trigger(f).Some? ==> Trigger(f).value in LEADS_TO
  {
  }

  lemma LawAndFaultOf(r: Reason)
    requires r in LEADS_TO
    ensures TargetLaw(r) == LEADS_TO[r]
    ensures LatchedFault(r) == if r in LATCHES then Some(LATCHES[r]) else None
  {
  }

  /** The law a flying cycle starts its decision in: a command-loss descent is released first. */
  function ReleasedLaw(cfg: Config, s: State, c: Cycle): Law {
    if RecencyRestored(cfg, s, c) then Primary else s.law
  }

  /** What a reason does to a law and what is reported. */
  function LawAfter(l: Law, r: Option<Reason>): Law {
    if r.Some? && r.value in LEADS_TO && Severity(LEADS_TO[r.value]) > Severity(l) then LEADS_TO[r.value] else l
  }

  /** Where the decision starts. */
  function BeforeDecision(cfg: Config, s: State, c: Cycle): State {
    Released(Sensed(s, c).(inFlight := Observed(cfg, s.inFlight, c)))
  }

  lemma DecisionStarts(cfg: Config, s: State, c: Cycle)
    requires Flies(s, c)
    ensures var mid := BeforeDecision(cfg, s, c);
      && mid.law == ReleasedLaw(cfg, s, c) && mid.faults == SensorFaults(s.faults, c.sensors)
      && ReasonOf(mid) == if TimingPersists(s) then Some(TimingViolation) else Trigger(Observed(cfg, s.inFlight, c))
  {
    ObservedMeets(cfg, s, c, COMMAND_RECENT);
  }

  lemma FlyingDecision(cfg: Config, s: State, c: Cycle)
    requires Flies(s, c)
    ensures var (t, o) := Update(cfg, s, c);
      var mid := BeforeDecision(cfg, s, c);
      match ReasonOf(mid)
      case Some(r) =>
        t.law == Degraded(mid, r).law && t.faults == Degraded(mid, r).faults && o.degradation == DegradedEvent(mid, r)
      case None => t.law == mid.law && t.faults == mid.faults && o.degradation == None
  {
  }

  function LatchOf(r: Option<Reason>): set<FaultFlag> {
    if r.Some? && r.value in LATCHES then {LATCHES[r.value]} else {}
  }

  /** A flying cycle degrades for persistent timing violations, or for the most urgent requirement that is not met:
      it ends in the law that this leads to if that is worse, latches its fault either way, and reports exactly a
      change for the worse, from the law the decision started in. */
  lemma FlyingCycleDegrades(cfg: Config, s: State, c: Cycle)
    requires Flies(s, c)
    ensures var (t, o) := Update(cfg, s, c);
      var from, r := ReleasedLaw(cfg, s, c), DegradesFor(cfg, s, c);
      && t.law == LawAfter(from, r)
      && t.faults == SensorFaults(s.faults, c.sensors) + LatchOf(r)
      && o.degradation == if t.law != from && r.Some? then Some(DegradationEvent(from, t.law, r.value)) else None
  {
    DecisionStarts(cfg, s, c);
    FlyingDecision(cfg, s, c);
    TriggerIsFirstUnmet(cfg, s, c);
    TriggerHasLaw(Observed(cfg, s.inFlight, c));
    var r := DegradesFor(cfg, s, c);
    if r.Some? {
      LawAndFaultOf(r.value);
    }
  }

  /** What a flying cycle leaves recorded is what it judged by, and the envelope as it is now, for the next one; any
      other cycle records nothing. */
  lemma ChecksRecorded(cfg: Config, s: State, c: Cycle, f: InFlightFlag)
    ensures var t := Update(cfg, s, c).0;
      if !Flies(s, c) then t.inFlight == s.inFlight
      else f in t.inFlight.current <==> if f.WITHIN_ENVELOPE? then c.withinEnvelope else Meets(cfg, s, c, f)
  {
    if Flies(s, c) {
      RecordedInCycle(cfg, s, c);
      ObservedMeets(cfg, s, c, f);
    }
  }

  lemma RecordedInCycle(cfg: Config, s: State, c: Cycle)
    requires Flies(s, c)
    ensures Update(cfg, s, c).0.inFlight.current
            == Put(Observed(cfg, s.inFlight, c).current, WITHIN_ENVELOPE, c.withinEnvelope)
  {
  }

  /** A requested land is flown from Primary and Alternate, as a commanded descent that latches no fault; it does not
      touch a descent under way. */
  lemma LandRequestExactly(s: State)
    ensures Degraded(s, LandRequested)
            == if s.law.Primary? || s.law.Alternate? then s.(law := Direct, cause := Commanded) else s
  {
  }

  // ---------- which faults follow the sensors ----------

  /** Each of the four sensor faults stands exactly when no sensor of its kind is good. */
  predicate SensorsShow(faults: set<FaultFlag>, sensors: Sensors) {
    && (ALL_IMU_FAILED in faults <==> !AnyGood(sensors.imus))
    && (BARO_FAILED in faults <==> !AnyGood(sensors.baros))
    && (MAG_FAILED in faults <==> !AnyGood(sensors.mags))
    && (ALL_GNSS_LOST in faults <==> !AnyGood(sensors.gnss))
  }

  lemma SensorFaultsShow(faults: set<FaultFlag>, sensors: Sensors, latched: set<FaultFlag>)
    requires latched !! SENSOR_FAULTS
    ensures SensorsShow(SensorFaults(faults, sensors) + latched, sensors)
  {
  }

  lemma OtherCycleFaults(cfg: Config, s: State, c: Cycle)
    requires c.command.enumsValid && !Flies(s, c)
    ensures Update(cfg, s, c).0.faults == SensorFaults(s.faults, c.sensors)
  {
  }

  lemma LatchIsNoSensor(r: Option<Reason>)
    ensures LatchOf(r) !! SENSOR_FAULTS
  {
  }

  lemma CycleFaults(cfg: Config, s: State, c: Cycle) returns (r: Option<Reason>)
    requires c.command.enumsValid
    ensures Update(cfg, s, c).0.faults == SensorFaults(s.faults, c.sensors) + LatchOf(r)
  {
    if Flies(s, c) {
      FlyingCycleDegrades(cfg, s, c);
      r := DegradesFor(cfg, s, c);
    } else {
      OtherCycleFaults(cfg, s, c);
      r := None;
    }
  }

  /** So it is after every well-formed cycle: the four faults come and go with the sensors. */
  lemma SensorFaultsFollowSensors(cfg: Config, s: State, c: Cycle)
    requires c.command.enumsValid
    ensures SensorsShow(Update(cfg, s, c).0.faults, c.sensors)
  {
    var r := CycleFaults(cfg, s, c);
    LatchIsNoSensor(r);
    SensorFaultsShow(s.faults, c.sensors, LatchOf(r));
  }

  // ---------- what readiness takes ----------

  /** The pre-arm check passes on these readings; a convergence counts the samples up to and including them. */
  predicate Passes(s: State, n: Samples, sensors: Sensors, e: FlightPhase.Estimate, f: PreArmFlag) {
    match f
    case IMU_HEALTHY => AnyGood(sensors.imus)
    case BARO_HEALTHY => AnyGood(sensors.baros)
    case MAG_HEALTHY => AnyGood(sensors.mags)
    case GNSS_AVAILABLE => AnyGood(sensors.gnss)
    case IMU_CONVERGED => n.imu >= n.minRequired
    case BARO_CONVERGED => n.baro >= n.minRequired
    case MAG_CONVERGED => n.mag >= n.minRequired
    case EKF_CONVERGED => FlightPhase.Usable(e)
    case CONFIG_VALID => CONFIG_INVALID !in s.faults
    case NO_FAULTS => s.faults == {}
    case _ => f in s.preArm.current
  }

  /** The samples of each kind, one more where a sensor of it is good. */
  function Sampled(n: Samples, sensors: Sensors): Samples {
    Samples(Min(n.imu + (if AnyGood(sensors.imus) then 1 else 0), U32_MAX),
            Min(n.baro + (if AnyGood(sensors.baros) then 1 else 0), U32_MAX),
            Min(n.mag + (if AnyGood(sensors.mags) then 1 else 0), U32_MAX),
            Min(n.gnss + (if AnyGood(sensors.gnss) then 1 else 0), U32_MAX),
            n.minRequired)
  }

  lemma ObservedPasses(s: State, sensors: Sensors, e: FlightPhase.Estimate, f: PreArmFlag)
    ensures var p := PreArmObserved(s.preArm, sensors, s.faults, e);
      p.samples == Sampled(s.preArm.samples, sensors) && (f in p.current <==> Passes(s, p.samples, sensors, e, f))
  {
  }

  ghost predicate AllPass(s: State, sensors: Sensors, e: FlightPhase.Estimate) {
    forall f :: f in s.preArm.required ==> Passes(s, Sampled(s.preArm.samples, sensors), sensors, e, f)
  }

  lemma AllPassIsObserved(s: State, sensors: Sensors, e: FlightPhase.Estimate)
    ensures AllPass(s, sensors, e) <==> s.preArm.required <= PreArmObserved(s.preArm, sensors, s.faults, e).current
  {
    forall f: PreArmFlag
      ensures f in PreArmObserved(s.preArm, sensors, s.faults, e).current
              <==> Passes(s, Sampled(s.preArm.samples, sensors), sensors, e, f)
    {
      ObservedPasses(s, sensors, e, f);
    }
  }

  /** A step makes or keeps the vehicle ready exactly when its checks were under way or done and every required one
      passes on the readings of this very step. */
  lemma ReadyExactly(s: State, sensors: Sensors, e: FlightPhase.Estimate)
    ensures InitStepped(s, sensors, e).init.Ready? <==> (s.init.PreArm? || s.init.Ready?) && AllPass(s, sensors, e)
  {
    AllPassIsObserved(s, sensors, e);
  }

  /** The other stages: two steps pass by themselves, one waits for an IMU, one for its samples and a usable estimate,
      and a disarmed vehicle starts its samples again. */
  lemma StagesExactly(s: State, sensors: Sensors, e: FlightPhase.Estimate)
    ensures var t, n := InitStepped(s, sensors, e), Sampled(s.preArm.samples, sensors);
      && (s.init.PowerOn? ==> t.init.ConfigLoading?)
      && (s.init.ConfigLoading? ==> t.init.SensorInit?)
      && (s.init.SensorInit? ==>
            t.init == if AnyGood(sensors.imus) then EstimatorConverging else SensorInit)
      && (s.init.EstimatorConverging? ==>
            t.init == if n.imu >= n.minRequired && FlightPhase.Usable(e) then PreArm else EstimatorConverging)
      && (s.init.Disarmed? ==> t.init.PreArm? && t.preArm.samples == Samples(0, 0, 0, 0, n.minRequired))
      && (s.init.PreArm? || s.init.Ready? ==> t.init.PreArm? || t.init.Ready?)
      && (s.init.Armed? || s.init.Fault? ==> t.init == s.init)
      && (!s.init.Disarmed? ==> t.preArm.samples == n)
  {
    forall f: PreArmFlag {
      ObservedPasses(s, sensors, e, f);
    }
  }

  /** The pre-arm steps of a run that saw a good IMU. */
  function GoodImuSteps(es: seq<Event>): nat {
    if es == [] then 0
    else (if es[0].InitStepEv? && AnyGood(es[0].sensors.imus) then 1 else 0) + GoodImuSteps(es[1..])
  }

  /** At most `n` IMU samples are in, and readiness that requires them has a hundred. */
  ghost predicate Sampling(s: State, n: nat) {
    && s.preArm.samples.imu <= n && s.preArm.samples.minRequired == 100
    && (s.init.Ready? && IMU_CONVERGED in s.preArm.required ==> s.preArm.samples.imu >= 100)
  }

  lemma SamplingStep(cfg: Config, s: State, e: Event, n: nat)
    requires Sampling(s, n)
    ensures Sampling(Next(cfg, s, e), n + GoodImuSteps([e]))
    ensures Next(cfg, s, e).preArm.required == s.preArm.required
  {
    if e.InitStepEv? {
      ReadyExactly(s, e.sensors, e.estimate);
      StagesExactly(s, e.sensors, e.estimate);
      assert GoodImuSteps([e]) == if AnyGood(e.sensors.imus) then 1 else 0;
    }
  }

  lemma GoodImuStepsSplit(es: seq<Event>)
    requires es != []
    ensures GoodImuSteps(es) == GoodImuSteps([es[0]]) + GoodImuSteps(es[1..])
  {
    assert [es[0]][1..] == [];
  }

  lemma {:induction false} SamplingFollowsRun(cfg: Config, s: State, es: seq<Event>, n: nat)
    requires Sampling(s, n)
    ensures Sampling(Run(cfg, s, es), n + GoodImuSteps(es))
    ensures Run(cfg, s, es).preArm.required == s.preArm.required
    decreases |es|
  {
    if es == [] {
    } else {
      SamplingStep(cfg, s, es[0], n);
      GoodImuStepsSplit(es);
      SamplingFollowsRun(cfg, Next(cfg, s, es[0]), es[1..], n + GoodImuSteps([es[0]]));
    }
  }

  /** Whatever happens from power-on, an arm that requires a converged IMU is accepted only after a hundred steps that
      saw a good one. */
  lemma ArmNeedsSamples(cfg: Config, needs: Needs, channels: nat, es: seq<Event>)
    requires IMU_CONVERGED in needs.preArm && ArmVerdict(Run(cfg, PoweredOn(needs, channels), es)).Ok?
    ensures GoodImuSteps(es) >= 100
  {
    SamplingFollowsRun(cfg, PoweredOn(needs, channels), es, 0);
  }

  // ---------- timing ----------

  predicate Clears(s: State, e: Event) { e == TimingEv(false) || EffectiveReset(s, e) }

  predicate NeverClears(cfg: Config, s: State, es: seq<Event>)
    decreases |es|
  {
    es == [] || (!Clears(s, es[0]) && NeverClears(cfg, Next(cfg, s, es[0]), es[1..]))
  }

  function Violations(es: seq<Event>): nat {
    if es == [] then 0 else (if es[0] == TimingEv(true) then 1 else 0) + Violations(es[1..])
  }

  lemma StreakStep(cfg: Config, s: State, e: Event)
    ensures Next(cfg, s, e).timing.consecutiveViolations
            == if Clears(s, e) then 0
               else Min(U32_MAX, s.timing.consecutiveViolations + if e == TimingEv(true) then 1 else 0)
  {
  }

  lemma {:induction false} StreakGrows(cfg: Config, s: State, es: seq<Event>)
    requires NeverClears(cfg, s, es)
    ensures Run(cfg, s, es).timing.consecutiveViolations
            == Min(U32_MAX, s.timing.consecutiveViolations + Violations(es))
    decreases |es|
  {
    if es == [] {
    } else {
      StreakStep(cfg, s, es[0]);
      StreakGrows(cfg, Next(cfg, s, es[0]), es[1..]);
    }
  }

  predicate NeverResets(cfg: Config, s: State, es: seq<Event>)
    decreases |es|
  {
    es == [] || (!EffectiveReset(s, es[0]) && NeverResets(cfg, Next(cfg, s, es[0]), es[1..]))
  }

  lemma TotalStep(cfg: Config, s: State, e: Event)
    ensures Next(cfg, s, e).timing.deadlineViolations
            == if EffectiveReset(s, e) then 0
               else Min(U32_MAX, s.timing.deadlineViolations + if e == TimingEv(true) then 1 else 0)
  {
  }

  /** The total forgets none of them before an effective reset. */
  lemma {:induction false} TotalGrows(cfg: Config, s: State, es: seq<Event>)
    requires NeverResets(cfg, s, es)
    ensures Run(cfg, s, es).timing.deadlineViolations
            == Min(U32_MAX, s.timing.deadlineViolations + Violations(es))
    decreases |es|
  {
    if es == [] {
    } else {
      TotalStep(cfg, s, es[0]);
      TotalGrows(cfg, Next(cfg, s, es[0]), es[1..]);
    }
  }

  /** The consecutive count by history: the violations since the last met deadline or effective reset, saturating.
      So timing violations persist exactly when there are three of them with no met deadline in between. */
  lemma StreakByHistory(cfg: Config, s: State, es: seq<Event>, clear: Event, more: seq<Event>)
    requires Clears(Run(cfg, s, es), clear) && NeverClears(cfg, Run(cfg, s, es + [clear]), more)
    ensures var t := Run(cfg, s, es + [clear] + more);
      && t.timing.consecutiveViolations == Min(U32_MAX, Violations(more))
      && (TimingPersists(t) <==> Violations(more) >= 3)
  {
    RunConcat(cfg, s, es + [clear], more);
    RunSnoc(cfg, s, es, clear);
    StreakStep(cfg, Run(cfg, s, es), clear);
    StreakGrows(cfg, Run(cfg, s, es + [clear]), more);
  }

  /** Every cycle is timed, flown or not: the last, the longest, the shortest and how many. */
  lemma CycleTimed(cfg: Config, s: State, c: Cycle)
    ensures var t, u := Update(cfg, s, c).0.timing, s.timing;
      && t.lastCycleUs == c.dtUs && t.totalCycles == Min(u.totalCycles + 1, U64_MAX)
      && t.maxCycleUs in {u.maxCycleUs, c.dtUs} && u.maxCycleUs <= t.maxCycleUs && c.dtUs <= t.maxCycleUs
      && t.minCycleUs in {u.minCycleUs, c.dtUs} && t.minCycleUs <= c.dtUs
      && (if u.minCycleUs == 0 then t.minCycleUs == c.dtUs else t.minCycleUs <= u.minCycleUs)
      && t.deadlineViolations == u.deadlineViolations && t.consecutiveViolations == u.consecutiveViolations
  {
    TimingOfCycle(cfg, s, c);
  }

  lemma TimingOfCycle(cfg: Config, s: State, c: Cycle)
    ensures Update(cfg, s, c).0.timing == TickTiming(s.timing, c.dtUs)
  {
  }

  /** A reset from the fault state takes no standing critical fault, a good IMU and a low throttle; it leads back to the
      checks with the samples started again, and leaves the faults and the law as they are. */
  lemma FaultResetExactly(s: State)
    ensures var t := FaultReset(s);
      if && s.init.Fault? && {ALL_IMU_FAILED, NUMERIC_ERROR, ESTIMATOR_DIVERGED} !! s.faults
         && IMU_HEALTHY in s.preArm.current && THROTTLE_LOW in s.preArm.current
      then
        && t.init.PreArm? && t.faults == s.faults && t.law == s.law && t.cause == s.cause
        && t.inFlight.current == {} && t.preArm.current == s.preArm.current
        && t.preArm.samples == Samples(0, 0, 0, 0, s.preArm.samples.minRequired)
      else t == s
  {
    CriticalIs(s.faults);
  }

  lemma CriticalIs(faults: set<FaultFlag>)
    ensures !Critical(faults) <==> {ALL_IMU_FAILED, NUMERIC_ERROR, ESTIMATOR_DIVERGED} !! faults
  {
    if !Critical(faults) {
      forall f | f in CRITICAL_FAULTS ensures f !in faults {
        assert f in faults ==> f in faults * CRITICAL_FAULTS;
      }
    }
  }

  // ---------- what a ground reset makes possible ----------

  /** An effective reset forgets every fault, the law, the checks, the flight period and the timing. */
  lemma GroundResetForgets(s: State)
    requires !s.init.Armed?
    ensures var t := GroundReset(s);
      && t.faults == {} && t.law.Primary? && t.cause.NoCause? && t.init.ConfigLoading?
      && t.preArm.current == {} && t.inFlight.current == {} && t.preArm.required == s.preArm.required
      && t.inFlight.required == s.inFlight.required && t.preArm.samples.imu == 0
      && t.phase == FlightPhase.POWER_ON && t.timing.consecutiveViolations == 0
      && |t.commanded| == |s.commanded| && forall i :: 0 <= i < |t.commanded| ==> t.commanded[i] == 0.0
  {
  }

  /** Where `n` good steps lead after a reset. */
  function StageAfterReset(n: nat): InitState {
    if n == 0 then ConfigLoading
    else if n == 1 then SensorInit
    else if n < 100 then EstimatorConverging
    else if n == 100 then PreArm
    else Ready
  }

  lemma StageAfterResetStep(t: State, n: nat, e: FlightPhase.Estimate)
    requires Warm(t, n) && t.init == StageAfterReset(n) && n < U32_MAX && FlightPhase.Usable(e)
    ensures Warm(InitStepped(t, ALL_HEALTHY, e), n + 1)
    ensures InitStepped(t, ALL_HEALTHY, e).init == StageAfterReset(n + 1)
  {
    AllHealthyIsGood();
  }

  lemma WarmUpAfterReset(cfg: Config, s: State, n: nat, e: FlightPhase.Estimate)
    requires Warm(s, 0) && s.init.ConfigLoading? && FlightPhase.Usable(e) && 100 < n <= U32_MAX
    ensures Warm(Run(cfg, s, GoodSteps(n, e)), n) && Run(cfg, s, GoodSteps(n, e)).init.Ready?
  {
    var holds := (t: State, i: nat) => Warm(t, i) && t.init == StageAfterReset(i);
    forall t: State, i: nat | holds(t, i) && i < n ensures holds(InitStepped(t, ALL_HEALTHY, e), i + 1) {
      StageAfterResetStep(t, i, e);
    }
    GoodInduction(cfg, s, holds, 0, n, n, e);
  }

  /** Configured as at power-on. */
  predicate Configured(s: State) { s.preArm.required == QUAD_MINIMUM && s.preArm.samples.minRequired == 100 }

  /** From any unarmed state, whatever faults are latched, a ground reset, a low throttle and more than a hundred
      healthy steps make the vehicle ready, and an arm succeeds. */
  lemma ResetLeadsToArm(cfg: Config, s: State, n: nat, e: FlightPhase.Estimate, u: FlightPhase.Estimate)
    requires !s.init.Armed? && Configured(s) && FlightPhase.Usable(e) && 100 < n <= U32_MAX
    ensures FreshlyArmed(Run(cfg, s, [GroundResetEv, ThrottleEv(true)] + GoodSteps(n, e) + [ArmEv(u)]), n, u)
  {
    var low := Next(cfg, Next(cfg, s, GroundResetEv), ThrottleEv(true));
    LowAfterReset(cfg, s);
    WarmUpAfterReset(cfg, low, n, e);
    ArmWhenWarm(Run(cfg, low, GoodSteps(n, e)), n, u);
    TwoSteps(cfg, s, GroundResetEv, ThrottleEv(true));
    RunConcat(cfg, s, [GroundResetEv, ThrottleEv(true)], GoodSteps(n, e));
    RunSnoc(cfg, s, [GroundResetEv, ThrottleEv(true)] + GoodSteps(n, e), ArmEv(u));
  }

  lemma LowAfterReset(cfg: Config, s: State)
    requires !s.init.Armed? && Configured(s)
    ensures var low := Next(cfg, Next(cfg, s, GroundResetEv), ThrottleEv(true)); Warm(low, 0) && low.init.ConfigLoading?
  {
  }
}
