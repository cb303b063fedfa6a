/** The flight runner: scheduler, command ingress, link health and kernel joined
    (aviate-runtime/src/runner.rs; the board step of aviate-boards/micoair-h743-v2/src/hw.rs). */
module Runner {
  import opened Common
  import opened Floats
  import opened CommandIngress
  import FlightPhase
  import Kernel
  import KernelObject
  import opened Scheduler

  const LINK_TIMEOUT_US: U64 := 1_000_000

  const THROTTLE_LOW_MAX_COLLECTIVE: real := 0.01

  // ---------- link health ----------

  datatype Health = Health(linkOk: bool, lastCmdTimeUs: U64, everReceived: bool)

  const NEW_HEALTH: Health := Health(false, 0, false)

  function CommandReceived(h: Health, nowUs: U64): Health { Health(true, nowUs, true) }

  function LinkUpdated(h: Health, nowUs: U64): Health {
    h.(linkOk := WrapSub(nowUs, h.lastCmdTimeUs) < LINK_TIMEOUT_US)
  }

  /** What one tick does to the link health. */
  function LinkTick(h: Health, event: Option<SystemCommand>, nowUs: U64): Health {
    LinkUpdated(if event.Some? then CommandReceived(h, nowUs) else h, nowUs)
  }

  function LinkRun(h: Health, arrivals: seq<(Option<SystemCommand>, U64)>): Health {
    if arrivals == [] then h
    else
      var a := arrivals[|arrivals| - 1];
      LinkTick(LinkRun(h, arrivals[..|arrivals| - 1]), a.0, a.1)
  }

  /** The index of the last tick that carried a command, or -1. */
  function LastHeard(arrivals: seq<(Option<SystemCommand>, U64)>): (k: int)
    ensures -1 <= k < |arrivals|
  {
    if arrivals == [] then -1
    else if arrivals[|arrivals| - 1].0.Some? then |arrivals| - 1
    else LastHeard(arrivals[..|arrivals| - 1])
  }

  /** `link_ok` exactly: within a second of the last command received, and, because the stamp starts at 0,
      during the first second of uptime before any command. */
  lemma {:induction false} LinkOkExactly(arrivals: seq<(Option<SystemCommand>, U64)>)
    requires arrivals != []
    ensures var h, k, now := LinkRun(NEW_HEALTH, arrivals), LastHeard(arrivals), arrivals[|arrivals| - 1].1;
      && h.everReceived == (k >= 0)
      && h.lastCmdTimeUs == (if k >= 0 then arrivals[k].1 else 0)
      && (h.linkOk <==> if k >= 0 then WrapSub(now, arrivals[k].1) < LINK_TIMEOUT_US else now < LINK_TIMEOUT_US)
  {
    var before := arrivals[..|arrivals| - 1];
    if before == [] {
    } else {
      LinkOkExactly(before);
    }
  }

  /** So it is up at every reading of the first second, although nothing was ever received. */
  lemma LinkUpUnheard(nowUs: U64)
    requires nowUs < LINK_TIMEOUT_US
    ensures var h := LinkRun(NEW_HEALTH, [(None, nowUs)]); h.linkOk && !h.everReceived
  {
    LinkOkExactly([(None, nowUs)]);
  }

  // ---------- one control tick ----------

  /** What the board reads and what the pipeline answers in one tick. */
  datatype Input = Input(
    event: Option<SystemCommand>, sensors: Kernel.Sensors, dtSec: Float,
    armEstimate: FlightPhase.Estimate, initEstimate: FlightPhase.Estimate, estimate: FlightPhase.Estimate,
    withinEnvelope: bool, modeSupported: bool, mixed: seq<real>)

  datatype Reading = Reading(nowUs: U64, input: Input)

  datatype Flight = Flight(kernel: Kernel.State, ingress: IngressState, health: Health)

  const DEFAULT_COMMAND: FlightCommand := FlightCommand(0, 0.0, true)

  function Dispatched(k: Kernel.State, i: Input): Kernel.State {
    match i.event
    case None => k
    case Some(Arm) => Kernel.ArmAttempt(k, i.armEstimate)
    case Some(Disarm) => Kernel.DisarmAttempt(k)
    case Some(EmergencyTerminate) => Kernel.EndedFlight(k)
    case Some(FlightControl(c)) =>
      k.(preArm := k.preArm.(current := Kernel.Put(k.preArm.current, Kernel.THROTTLE_LOW,
                                                   c.collectiveThrust < THROTTLE_LOW_MAX_COLLECTIVE)))
  }

  function CommandOf(setpoint: Option<SystemCommand>): FlightCommand {
    match setpoint case Some(FlightControl(c)) => c case _ => DEFAULT_COMMAND
  }

  function CycleOf(i: Input, ingress: IngressState, nowUs: U64, dtUs: U32): Kernel.Cycle {
    Kernel.Cycle(dtUs, i.dtSec, i.sensors, CommandOf(ingress.setpoint), AgeMs(ingress, nowUs),
                 i.estimate, i.withinEnvelope, i.modeSupported, i.mixed)
  }

  function BoardStepped(cfg: Kernel.Config, k: Kernel.State, ingress: IngressState, r: Reading, dtUs: U32)
    : Kernel.State
  {
    var k := Dispatched(k, r.input);
    var k := if k.init.Ready? then k else Kernel.InitStepped(k, r.input.sensors, r.input.initEstimate);
    Kernel.Update(cfg, k, CycleOf(r.input, ingress, r.nowUs, dtUs)).0
  }

  function Heard(ingress: IngressState, r: Reading): IngressState {
    match r.input.event case Some(c) => Received(ingress, Receipt(c, r.nowUs)) case None => ingress
  }

  function Stepped(cfg: Kernel.Config, f: Flight, r: Reading, dtUs: U32): Flight {
    var ingress := Heard(f.ingress, r);
    Flight(BoardStepped(cfg, f.kernel, ingress, r, dtUs), ingress, LinkTick(f.health, r.input.event, r.nowUs))
  }

  function SteppedAll(cfg: Kernel.Config, f: Flight, rs: seq<Reading>, dtUs: U32): Flight
    decreases |rs|
  {
    if rs == [] then f else SteppedAll(cfg, Stepped(cfg, f, rs[0], dtUs), rs[1..], dtUs)
  }

  lemma {:induction false} SteppedAllAppend(cfg: Kernel.Config, f: Flight, rs: seq<Reading>, r: Reading, dtUs: U32)
    ensures SteppedAll(cfg, f, rs + [r], dtUs) == Stepped(cfg, SteppedAll(cfg, f, rs, dtUs), r, dtUs)
    decreases |rs|
  {
    if rs == [] {
      assert rs + [r] == [r] && [r][1..] == [];
    } else {
      assert (rs + [r])[1..] == rs[1..] + [r];
      SteppedAllAppend(cfg, Stepped(cfg, f, rs[0], dtUs), rs[1..], r, dtUs);
    }
  }

  // ---------- command loss is released by setpoints only ----------

  /** The setpoint age that this tick hands to the kernel has reached the timeout. */
  predicate Stale(cfg: Kernel.Config, f: Flight, r: Reading) {
    AgeMs(Heard(f.ingress, r), r.nowUs) >= cfg.commandTimeoutMs
  }

  /** The tick ends the flight period: a terminate, or a disarm of a vehicle not airborne. */
  predicate EndsFlight(k: Kernel.State, i: Input) {
    i.event == Some(EmergencyTerminate) || (i.event == Some(Disarm) && !k.phase.phase.Airborne?)
  }

  /** Descending for command loss, or worse. */
  predicate HeldDown(k: Kernel.State) {
    || (k.init.Armed? && k.law.Direct? && k.cause.CommandLoss?)
    || ((k.init.Armed? || k.init.Fault?) && k.law.Backup? && k.cause.NoCause?)
  }

  lemma StaleTickHolds(cfg: Kernel.Config, f: Flight, r: Reading, dtUs: U32)
    requires HeldDown(f.kernel) && Stale(cfg, f, r) && !EndsFlight(f.kernel, r.input)
    ensures HeldDown(Stepped(cfg, f, r, dtUs).kernel)
  {
    var ingress := Heard(f.ingress, r);
    var k := Dispatched(f.kernel, r.input);
    assert HeldDown(k);
    assert !k.init.Ready?;
    var k1 := Kernel.InitStepped(k, r.input.sensors, r.input.initEstimate);
    assert HeldDown(k1);
    var c := CycleOf(r.input, ingress, r.nowUs, dtUs);
    UpdateHolds(cfg, k1, c);
  }

  lemma UpdateHolds(cfg: Kernel.Config, k: Kernel.State, c: Kernel.Cycle)
    requires HeldDown(k) && c.commandAgeMs >= cfg.commandTimeoutMs
    ensures HeldDown(Kernel.Update(cfg, k, c).0)
  {
  }

  /** What the kernel's update is given in this tick. */
  function CycleInTick(f: Flight, r: Reading, dtUs: U32): Kernel.Cycle {
    CycleOf(r.input, Heard(f.ingress, r), r.nowUs, dtUs)
  }

  /** What a tick before its update leaves alone in an armed vehicle, unless it ends the flight. */
  lemma UpToUpdate(cfg: Kernel.Config, f: Flight, r: Reading, dtUs: U32) returns (k: Kernel.State)
    requires f.kernel.init.Armed? && !EndsFlight(f.kernel, r.input)
    ensures k == f.kernel.(preArm := k.preArm)
    ensures Stepped(cfg, f, r, dtUs).kernel == Kernel.Update(cfg, k, CycleInTick(f, r, dtUs)).0
  {
    var dispatched := Dispatched(f.kernel, r.input);
    assert dispatched.init.Armed?;
    k := Kernel.InitStepped(dispatched, r.input.sensors, r.input.initEstimate);
  }

  /** On an armed tick that finds the setpoint stale the vehicle descends afterwards exactly when it did before, or
      a critical fault is seen, an attitude is missing, or the command loss counts: persistent timing violations
      preempt the last two, a missing position or velocity preempts the command loss. A descent that starts here
      and is not commanded is held down from then on. */
  lemma StaleTickDescendsExactly(cfg: Kernel.Config, f: Flight, r: Reading, dtUs: U32)
    requires f.kernel.init.Armed? && Stale(cfg, f, r) && !EndsFlight(f.kernel, r.input)
    ensures Kernel.Descending(Stepped(cfg, f, r, dtUs).kernel)
            <==> Kernel.Descending(f.kernel) || Kernel.DescentStarts(f.kernel, CycleInTick(f, r, dtUs))
    ensures !Kernel.Descending(f.kernel) && Kernel.Descending(Stepped(cfg, f, r, dtUs).kernel) ==>
              HeldDown(Stepped(cfg, f, r, dtUs).kernel)
  {
    var k := UpToUpdate(cfg, f, r, dtUs);
    Kernel.StaleSetpointDescendsExactly(cfg, k, CycleInTick(f, r, dtUs));
    if !Kernel.Descending(k) && Kernel.Descending(Kernel.Update(cfg, k, CycleInTick(f, r, dtUs)).0) {
      StartsHeldDown(cfg, k, CycleInTick(f, r, dtUs));
    }
  }

  lemma StartsHeldDown(cfg: Kernel.Config, k: Kernel.State, c: Kernel.Cycle)
    requires k.init.Armed? && !Kernel.Descending(k) && Kernel.Descending(Kernel.Update(cfg, k, c).0)
    ensures HeldDown(Kernel.Update(cfg, k, c).0)
  {
  }

  /** No tick of the run ends the flight, and each finds the setpoint stale. */
  predicate StaleRun(cfg: Kernel.Config, f: Flight, rs: seq<Reading>, dtUs: U32)
    decreases |rs|
  {
    rs == [] ||
    (&& Stale(cfg, f, rs[0]) && !EndsFlight(f.kernel, rs[0].input)
     && StaleRun(cfg, Stepped(cfg, f, rs[0], dtUs), rs[1..], dtUs))
  }

  lemma {:induction false} StaleRunHolds(cfg: Kernel.Config, f: Flight, rs: seq<Reading>, dtUs: U32)
    requires HeldDown(f.kernel) && StaleRun(cfg, f, rs, dtUs)
    ensures HeldDown(SteppedAll(cfg, f, rs, dtUs).kernel)
    decreases |rs|
  {
    if rs == [] {
    } else {
      StaleTickHolds(cfg, f, rs[0], dtUs);
      StaleRunHolds(cfg, Stepped(cfg, f, rs[0], dtUs), rs[1..], dtUs);
    }
  }

  /** Ticks that carry nothing, or arms, all at least the timeout after the last setpoint. */
  predicate OnlyArms(cfg: Kernel.Config, rxUs: U64, rs: seq<Reading>) {
    forall i :: 0 <= i < |rs| ==>
      && (rs[i].input.event == None || rs[i].input.event == Some(Arm))
      && rs[i].nowUs >= rxUs + 1000 * cfg.commandTimeoutMs
  }

  /** However many redundant arms arrive, a command-loss descent is not released while the last setpoint is
      at least the timeout old: the link is alive, and the vehicle still comes down. */
  lemma {:induction false} ArmsNeverRelease(cfg: Kernel.Config, f: Flight, rxUs: U64, rs: seq<Reading>, dtUs: U32)
    requires HeldDown(f.kernel) && f.ingress.setpointRxUs == Some(rxUs) && OnlyArms(cfg, rxUs, rs)
    ensures HeldDown(SteppedAll(cfg, f, rs, dtUs).kernel)
    ensures SteppedAll(cfg, f, rs, dtUs).ingress == f.ingress
    decreases |rs|
  {
    if rs == [] {
    } else {
      var r := rs[0];
      assert Heard(f.ingress, r) == f.ingress;
      assert (r.nowUs - rxUs) / 1000 >= cfg.commandTimeoutMs;
      StaleTickHolds(cfg, f, r, dtUs);
      ArmsNeverRelease(cfg, Stepped(cfg, f, r, dtUs), rxUs, rs[1..], dtUs);
    }
  }

  // ---------- what a run from power-on can arm on ----------

  function PoweredOn(cfg: Kernel.Config, needs: Kernel.Needs): Flight {
    Flight(Kernel.PoweredOn(needs, |cfg.safeOutput|), INITIAL, NEW_HEALTH)
  }

  /** No reading of the run has a good GNSS fix, as on a board without a receiver. */
  predicate WithoutGnss(rs: seq<Reading>) {
    forall i :: 0 <= i < |rs| ==> !Kernel.AnyGood(rs[i].input.sensors.gnss)
  }

  /** Unarmed, and after the first cycle some fault stands in the way of arming. */
  predicate Grounded(k: Kernel.State) {
    !k.init.Armed? && !k.init.Fault? && (k.faults == {} ==> k.init.PowerOn?)
  }

  lemma TickWithoutGnss(cfg: Kernel.Config, f: Flight, r: Reading, dtUs: U32)
    requires Grounded(f.kernel) && !Kernel.AnyGood(r.input.sensors.gnss)
    ensures Grounded(Stepped(cfg, f, r, dtUs).kernel)
  {
    var ingress, k := Heard(f.ingress, r), Dispatched(f.kernel, r.input);
    assert !k.init.Armed? && !k.init.Fault?;
    var k1 := if k.init.Ready? then k else Kernel.InitStepped(k, r.input.sensors, r.input.initEstimate);
    assert !k1.init.Armed? && !k1.init.Fault?;
    CycleWithoutGnss(cfg, k1, CycleOf(r.input, ingress, r.nowUs, dtUs));
  }

  lemma CycleWithoutGnss(cfg: Kernel.Config, k: Kernel.State, c: Kernel.Cycle)
    requires !k.init.Armed? && !k.init.Fault? && !Kernel.AnyGood(c.sensors.gnss)
    ensures Grounded(Kernel.Update(cfg, k, c).0)
  {
    assert Kernel.ALL_GNSS_LOST in Kernel.SensorFaults(k.faults, c.sensors);
    assert Kernel.ENUM_INVALID in k.faults + {Kernel.ENUM_INVALID};
  }

  lemma {:induction false} GroundedWithoutGnss(cfg: Kernel.Config, f: Flight, rs: seq<Reading>, dtUs: U32)
    requires Grounded(f.kernel) && WithoutGnss(rs)
    ensures Grounded(SteppedAll(cfg, f, rs, dtUs).kernel)
    decreases |rs|
  {
    if rs == [] {
    } else {
      TickWithoutGnss(cfg, f, rs[0], dtUs);
      GroundedWithoutGnss(cfg, Stepped(cfg, f, rs[0], dtUs), rs[1..], dtUs);
    }
  }

  /** Whatever the pre-arm requirements and the commands, a vehicle without a good GNSS reading never arms: the
      lost GNSS is a standing fault, and arming refuses any fault. No descent is ever held down there either. */
  lemma NeverArmsWithoutGnss(cfg: Kernel.Config, needs: Kernel.Needs, rs: seq<Reading>, dtUs: U32)
    requires WithoutGnss(rs)
    ensures var k := SteppedAll(cfg, PoweredOn(cfg, needs), rs, dtUs).kernel;
      !k.init.Armed? && !HeldDown(k)
  {
    GroundedWithoutGnss(cfg, PoweredOn(cfg, needs), rs, dtUs);
  }

  /** The tick has a good reading of every kind of sensor. */
  predicate AllGood(sensors: Kernel.Sensors) {
    && Kernel.AnyGood(sensors.imus) && Kernel.AnyGood(sensors.baros)
    && Kernel.AnyGood(sensors.mags) && Kernel.AnyGood(sensors.gnss)
  }

  lemma CleanCycleIsGood(cfg: Kernel.Config, k: Kernel.State, c: Kernel.Cycle)
    requires Kernel.Update(cfg, k, c).0.faults == {}
    ensures AllGood(c.sensors) && c.command.enumsValid
  {
    var seen := Kernel.SensorFaults(k.faults, c.sensors);
    assert Kernel.ENUM_INVALID in k.faults + {Kernel.ENUM_INVALID};
    assert c.command.enumsValid ==> seen <= Kernel.Update(cfg, k, c).0.faults;
    assert Kernel.ALL_IMU_FAILED !in seen && Kernel.BARO_FAILED !in seen;
    assert Kernel.MAG_FAILED !in seen && Kernel.ALL_GNSS_LOST !in seen;
  }

  /** Whatever is required, an arm is accepted only right after a tick that had a good GNSS, IMU, barometer and
      magnetometer reading and a well-formed setpoint. */
  lemma ArmNeedsGoodReadings(cfg: Kernel.Config, needs: Kernel.Needs, rs: seq<Reading>, dtUs: U32)
    requires Kernel.ArmVerdict(SteppedAll(cfg, PoweredOn(cfg, needs), rs, dtUs).kernel).Ok?
    ensures rs != [] && AllGood(rs[|rs| - 1].input.sensors)
    ensures CommandOf(SteppedAll(cfg, PoweredOn(cfg, needs), rs, dtUs).ingress.setpoint).enumsValid
  {
    if rs != [] {
      var n := |rs| - 1;
      var f, r := SteppedAll(cfg, PoweredOn(cfg, needs), rs[..n], dtUs), rs[n];
      assert rs == rs[..n] + [r];
      SteppedAllAppend(cfg, PoweredOn(cfg, needs), rs[..n], r, dtUs);
      TickCleanIsGood(cfg, f, r, dtUs);
    }
  }

  lemma TickCleanIsGood(cfg: Kernel.Config, f: Flight, r: Reading, dtUs: U32)
    requires Stepped(cfg, f, r, dtUs).kernel.faults == {}
    ensures AllGood(r.input.sensors) && CommandOf(Heard(f.ingress, r).setpoint).enumsValid
  {
    var k := Dispatched(f.kernel, r.input);
    var k1 := if k.init.Ready? then k else Kernel.InitStepped(k, r.input.sensors, r.input.initEstimate);
    CleanCycleIsGood(cfg, k1, CycleInTick(f, r, dtUs));
  }

  /** The throttle flag after a tick with this event. */
  predicate LowAfter(event: Option<SystemCommand>, low: bool) {
    match event
    case Some(FlightControl(c)) => c.collectiveThrust < THROTTLE_LOW_MAX_COLLECTIVE
    case _ => low
  }

  /** The last setpoint of the run had its throttle low. */
  predicate ThrottleLow(rs: seq<Reading>) {
    rs != [] && LowAfter(rs[|rs| - 1].input.event, ThrottleLow(rs[..|rs| - 1]))
  }

  /** How the pre-arm gate stands after a run: the requirements never change, the throttle flag follows the last
      setpoint, and once ready everything else required still reads as it did. */
  ghost predicate Gate(k: Kernel.State, required: set<Kernel.PreArmFlag>, low: bool) {
    && k.preArm.required == required
    && (Kernel.THROTTLE_LOW in k.preArm.current <==> low)
    && (k.init.Ready? ==> required - {Kernel.THROTTLE_LOW} <= k.preArm.current)
  }

  lemma GateDispatched(k: Kernel.State, i: Input, required: set<Kernel.PreArmFlag>, low: bool)
    requires Gate(k, required, low)
    ensures Gate(Dispatched(k, i), required, LowAfter(i.event, low))
  {
  }

  lemma GateInitStepped(
    k: Kernel.State, sensors: Kernel.Sensors, e: FlightPhase.Estimate, required: set<Kernel.PreArmFlag>, low: bool)
    requires Gate(k, required, low)
    ensures Gate(Kernel.InitStepped(k, sensors, e), required, low)
  {
  }

  lemma GateTick(cfg: Kernel.Config, f: Flight, r: Reading, dtUs: U32, required: set<Kernel.PreArmFlag>, low: bool)
    requires Gate(f.kernel, required, low)
    ensures Gate(Stepped(cfg, f, r, dtUs).kernel, required, LowAfter(r.input.event, low))
  {
    var k := Dispatched(f.kernel, r.input);
    var k1 := if k.init.Ready? then k else Kernel.InitStepped(k, r.input.sensors, r.input.initEstimate);
    GateDispatched(f.kernel, r.input, required, low);
    GateInitStepped(k, r.input.sensors, r.input.initEstimate, required, LowAfter(r.input.event, low));
    GateCycle(cfg, k1, CycleInTick(f, r, dtUs));
  }

  lemma GateCycle(cfg: Kernel.Config, k: Kernel.State, c: Kernel.Cycle)
    ensures Kernel.Update(cfg, k, c).0.preArm == k.preArm
    ensures Kernel.Update(cfg, k, c).0.init.Ready? ==> k.init.Ready?
  {
  }

  lemma {:induction false} GateFollowsRun(cfg: Kernel.Config, needs: Kernel.Needs, rs: seq<Reading>, dtUs: U32)
    ensures Gate(SteppedAll(cfg, PoweredOn(cfg, needs), rs, dtUs).kernel, needs.preArm, ThrottleLow(rs))
  {
    if rs == [] {
    } else {
      var before, r := rs[..|rs| - 1], rs[|rs| - 1];
      GateFollowsRun(cfg, needs, before, dtUs);
      assert rs == before + [r];
      SteppedAllAppend(cfg, PoweredOn(cfg, needs), before, r, dtUs);
      GateTick(cfg, SteppedAll(cfg, PoweredOn(cfg, needs), before, dtUs), r, dtUs, needs.preArm, ThrottleLow(before));
    }
  }

  /** The pre-arm gate is not looked at again once ready: an arm that succeeds after a run meets the required
      checks exactly when the throttle is not among them or the last setpoint had it low. */
  lemma ArmMeetsGateExactly(cfg: Kernel.Config, needs: Kernel.Needs, rs: seq<Reading>, dtUs: U32)
    requires Kernel.ArmVerdict(SteppedAll(cfg, PoweredOn(cfg, needs), rs, dtUs).kernel).Ok?
    ensures var k := SteppedAll(cfg, PoweredOn(cfg, needs), rs, dtUs).kernel;
      k.preArm.required <= k.preArm.current <==> Kernel.THROTTLE_LOW !in needs.preArm || ThrottleLow(rs)
  {
    GateFollowsRun(cfg, needs, rs, dtUs);
  }

  /** The setpoint of a reading. */
  function SetpointOf(r: Reading): Option<FlightCommand> {
    match r.input.event case Some(FlightControl(c)) => Some(c) case _ => None
  }

  /** Nothing arrives, every sensor is healthy and the estimate usable. */
  predicate Quiet(r: Reading) {
    r.input.event.None? && r.input.sensors == Kernel.ALL_HEALTHY && FlightPhase.Usable(r.input.initEstimate)
  }

  predicate AllQuiet(rs: seq<Reading>) { forall i :: 0 <= i < |rs| ==> Quiet(rs[i]) }

  /** A well-formed setpoint with the throttle low or not, on an otherwise healthy tick. */
  predicate HealthySetpoint(r: Reading, low: bool) {
    && SetpointOf(r).Some? && SetpointOf(r).value.enumsValid
    && (SetpointOf(r).value.collectiveThrust < THROTTLE_LOW_MAX_COLLECTIVE <==> low)
    && r.input.sensors == Kernel.ALL_HEALTHY && FlightPhase.Usable(r.input.initEstimate)
  }

  /** The samples taken in `n` healthy ticks: once ready, no more are taken. */
  function Taken(n: nat): nat { if n < 101 then n else 101 }

  /** `n` healthy ticks after power-on, with a low throttle and a well-formed setpoint retained. */
  ghost predicate WarmedUp(f: Flight, n: nat) {
    && Kernel.Warm(f.kernel, Taken(n)) && f.kernel.init == Kernel.Stage(false, Taken(n))
    && CommandOf(f.ingress.setpoint).enumsValid
  }

  /** A healthy cycle of an unarmed kernel without faults changes its timing only. */
  lemma HealthyCycle(cfg: Kernel.Config, k: Kernel.State, c: Kernel.Cycle)
    requires !k.init.Armed? && k.faults == {} && c.command.enumsValid && c.sensors == Kernel.ALL_HEALTHY
    ensures var t := Kernel.Update(cfg, k, c).0; t == k.(timing := t.timing)
  {
    Kernel.AllHealthyIsGood();
  }

  lemma WarmTick(cfg: Kernel.Config, k: Kernel.State, n: nat, r: Reading, c: Kernel.Cycle)
    requires Kernel.Warm(k, Taken(n)) && k.init == Kernel.Stage(false, Taken(n))
    requires r.input.sensors == c.sensors == Kernel.ALL_HEALTHY && c.command.enumsValid
    requires FlightPhase.Usable(r.input.initEstimate)
    ensures var k1 := if k.init.Ready? then k
                      else Kernel.InitStepped(k, r.input.sensors, r.input.initEstimate);
      && Kernel.Warm(Kernel.Update(cfg, k1, c).0, Taken(n + 1))
      && Kernel.Update(cfg, k1, c).0.init == Kernel.Stage(false, Taken(n + 1))
  {
    if k.init.Ready? {
      HealthyCycle(cfg, k, c);
    } else {
      Kernel.StageStep(k, k, false, n, r.input.initEstimate);
      HealthyCycle(cfg, Kernel.InitStepped(k, r.input.sensors, r.input.initEstimate), c);
    }
  }

  lemma {:induction false} QuietTicksWarmUp(cfg: Kernel.Config, f: Flight, m: nat, rs: seq<Reading>, dtUs: U32)
    requires WarmedUp(f, m) && AllQuiet(rs)
    ensures WarmedUp(SteppedAll(cfg, f, rs, dtUs), m + |rs|)
    decreases |rs|
  {
    if rs == [] {
    } else {
      assert Quiet(rs[0]);
      WarmTick(cfg, f.kernel, m, rs[0], CycleInTick(f, rs[0], dtUs));
      QuietTicksWarmUp(cfg, Stepped(cfg, f, rs[0], dtUs), m + 1, rs[1..], dtUs);
    }
  }

  lemma LowTickWarmsUp(cfg: Kernel.Config, flight: set<Kernel.InFlightFlag>, r: Reading, dtUs: U32)
    requires HealthySetpoint(r, true)
    ensures WarmedUp(Stepped(cfg, PoweredOn(cfg, Kernel.Quad(flight)), r, dtUs), 1)
  {
    var f := PoweredOn(cfg, Kernel.Quad(flight));
    WarmTick(cfg, Dispatched(f.kernel, r.input), 0, r, CycleInTick(f, r, dtUs));
  }

  lemma HighTickStaysReady(cfg: Kernel.Config, f: Flight, r: Reading, dtUs: U32)
    requires Kernel.Warm(f.kernel, 101) && f.kernel.init.Ready? && HealthySetpoint(r, false)
    ensures var k := Stepped(cfg, f, r, dtUs).kernel;
      && Kernel.ArmVerdict(k).Ok?
      && Kernel.THROTTLE_LOW in k.preArm.required && Kernel.THROTTLE_LOW !in k.preArm.current
  {
    HealthyCycle(cfg, Dispatched(f.kernel, r.input), CycleInTick(f, r, dtUs));
  }

  /** A reachable arm with the throttle high: from power-on, a setpoint with the throttle low, a hundred healthy
      ticks or more and a setpoint with the throttle high, and an arm is accepted although the gate requires it low. */
  lemma ArmsWithThrottleHigh(
    cfg: Kernel.Config, flight: set<Kernel.InFlightFlag>, low: Reading, rs: seq<Reading>, high: Reading, dtUs: U32)
    requires HealthySetpoint(low, true) && AllQuiet(rs) && |rs| >= 100 && HealthySetpoint(high, false)
    ensures var k := SteppedAll(cfg, PoweredOn(cfg, Kernel.Quad(flight)), [low] + rs + [high], dtUs).kernel;
      && Kernel.ArmVerdict(k).Ok?
      && Kernel.THROTTLE_LOW in k.preArm.required && Kernel.THROTTLE_LOW !in k.preArm.current
  {
    var f := PoweredOn(cfg, Kernel.Quad(flight));
    LowTickWarmsUp(cfg, flight, low, dtUs);
    assert ([low] + rs)[1..] == rs;
    QuietTicksWarmUp(cfg, Stepped(cfg, f, low, dtUs), 1, rs, dtUs);
    SteppedAllAppend(cfg, f, [low] + rs, high, dtUs);
    HighTickStaysReady(cfg, SteppedAll(cfg, f, [low] + rs, dtUs), high, dtUs);
  }

  // ---------- the runner object ----------

  /** What happens at one clock reading of `run`. */
  function Served(cfg: Kernel.Config, f: Flight, s: Schedule, period: U32, r: Reading): Flight {
    if NotYet(r.nowUs, s.nextTick) then f else Stepped(cfg, f, r, period)
  }

  function ServedAll(cfg: Kernel.Config, f: Flight, s: Schedule, period: U32, rs: seq<Reading>): Flight {
    if rs == [] then f
    else
      var before := rs[..|rs| - 1];
      Served(cfg, ServedAll(cfg, f, s, period, before), ReadAll(s, period, Nows(before)), period, rs[|rs| - 1])
  }

  function Nows(rs: seq<Reading>): (nows: seq<U64>)
    ensures |nows| == |rs|
  {
    seq(|rs|, i requires 0 <= i < |rs| => rs[i].nowUs)
  }

  /** Taking one more reading takes one more step of the scheduler and of the flight. */
  lemma OneMoreReading(cfg: Kernel.Config, f: Flight, s: Schedule, period: U32, rs: seq<Reading>, i: nat)
    requires i < |rs|
    ensures var sched := ReadAll(s, period, Nows(rs[..i]));
      && ReadAll(s, period, Nows(rs[..i + 1])) == Read(sched, period, rs[i].nowUs)
      && ServedAll(cfg, f, s, period, rs[..i + 1])
         == Served(cfg, ServedAll(cfg, f, s, period, rs[..i]), sched, period, rs[i])
  {
    assert rs[..i + 1][..i] == rs[..i];
    assert Nows(rs[..i + 1])[..i] == Nows(rs[..i]);
  }

  /** The scheduler stands at `tick` with `done` steps of the current pass made. */
  ghost predicate At(s: Schedule, period: U32, rs: seq<Reading>, tick: U64, done: nat) {
    var sched := ReadAll(s, period, Nows(rs));
    sched.nextTick == tick && sched.inPass == done
  }

  /** The kicks and overruns that a log accounts for. */
  lemma OneMoreEntry(s: Schedule, period: U32, now: U64)
    requires !NotYet(now, s.nextTick)
    ensures var log := Read(s, period, now).log;
      |log| == |s.log| + 1
      && Resyncs(log, |log|) == Resyncs(s.log, |s.log|) + if s.inPass + 1 >= MAX_CATCH_UP then 1 else 0
  {
    LogGrows(s.log, Exec(s.nextTick, now, s.pass, s.inPass + 1 >= MAX_CATCH_UP), |s.log|);
  }

  /** The readings at which a tick was executed. */
  function Executed(s: Schedule, period: U32, rs: seq<Reading>): seq<Reading> {
    if rs == [] then []
    else
      var before := rs[..|rs| - 1];
      Executed(s, period, before)
      + if NotYet(rs[|rs| - 1].nowUs, ReadAll(s, period, Nows(before)).nextTick) then [] else [rs[|rs| - 1]]
  }

  /** Whatever the clock does, a scheduled run is the plain sequence of its executed ticks, one per entry
      of the scheduler's log. */
  lemma {:induction false} ScheduleOnlySelects(
    cfg: Kernel.Config, f: Flight, s: Schedule, period: U32, rs: seq<Reading>)
    ensures ServedAll(cfg, f, s, period, rs) == SteppedAll(cfg, f, Executed(s, period, rs), period)
    ensures |ReadAll(s, period, Nows(rs)).log| == |s.log| + |Executed(s, period, rs)|
  {
    if rs == [] {
    } else {
      var before, r := rs[..|rs| - 1], rs[|rs| - 1];
      ScheduleOnlySelects(cfg, f, s, period, before);
      assert Nows(rs)[..|before|] == Nows(before);
      if NotYet(r.nowUs, ReadAll(s, period, Nows(before)).nextTick) {
        assert Executed(s, period, rs) == Executed(s, period, before);
      } else {
        SteppedAllAppend(cfg, f, Executed(s, period, before), r, period);
      }
    }
  }

  class FlightRunner {
    const kernel: KernelObject.AviateKernel
    const ingress: Ingress
    var linkOk: bool
    var lastCmdTimeUs: U64
    var everReceived: bool
    var overrunCount: U32
    var watchdogKicks: nat

    ghost function View(): Flight
      reads this, kernel, kernel.flightPhase, ingress
    {
      Flight(kernel.View(), ingress.View(), Health(linkOk, lastCmdTimeUs, everReceived))
    }

    constructor (cfg: Kernel.Config, needs: Kernel.Needs)
      ensures fresh(kernel) && fresh(kernel.flightPhase) && fresh(ingress) && kernel.cfg == cfg
      ensures View() == PoweredOn(cfg, needs)
      ensures overrunCount == 0 && watchdogKicks == 0
    {
      kernel := new KernelObject.AviateKernel(cfg, needs);
      ingress := new Ingress();
      linkOk, lastCmdTimeUs, everReceived := false, 0, false;
      overrunCount, watchdogKicks := 0, 0;
    }

    method BoardStep(nowUs: U64, dtUs: U32, input: Input, ageMs: U32)
      requires ageMs == AgeMs(ingress.View(), nowUs)
      modifies kernel, kernel.flightPhase
      ensures kernel.View()
              == BoardStepped(kernel.cfg, old(kernel.View()), ingress.View(), Reading(nowUs, input), dtUs)
    {
      match input.event {
        case Some(Arm) => var _ := kernel.Arm(input.armEstimate);
        case Some(Disarm) => var _ := kernel.Disarm();
        case Some(EmergencyTerminate) => kernel.EndFlightPeriod();
        case Some(FlightControl(c)) =>
          kernel.preArm := kernel.preArm.(current :=
            Kernel.Put(kernel.preArm.current, Kernel.THROTTLE_LOW, c.collectiveThrust < THROTTLE_LOW_MAX_COLLECTIVE));
        case None =>
      }
      if !kernel.initState.Ready? {
        kernel.InitStep(input.sensors, input.initEstimate);
      }
      var command := CommandOf(ingress.setpoint);
      var _ := kernel.RunCycle(
        Kernel.Cycle(dtUs, input.dtSec, input.sensors, command, ageMs, input.estimate,
                     input.withinEnvelope, input.modeSupported, input.mixed));
    }

    method Step(nowUs: U64, dtUs: U32, input: Input)
      modifies this, kernel, kernel.flightPhase, ingress
      ensures View() == Stepped(kernel.cfg, old(View()), Reading(nowUs, input), dtUs)
      ensures watchdogKicks == old(watchdogKicks) + 1 && overrunCount == old(overrunCount)
    {
      if input.event.Some? {
        lastCmdTimeUs := nowUs;
        everReceived := true;
        linkOk := true;
        var _ := ingress.Receive(input.event.value, nowUs);
      }
      linkOk := WrapSub(nowUs, lastCmdTimeUs) < LINK_TIMEOUT_US;
      var ageMs := ingress.SetpointAgeMs(nowUs);
      BoardStep(nowUs, dtUs, input, ageMs);
      watchdogKicks := watchdogKicks + 1;
    }

    /** One kick per executed tick, one overrun per resync, saturating. */
    ghost predicate Accounted(before: Schedule, after: Schedule, kicks: nat, overruns: U32)
      reads this
    {
      && watchdogKicks + |before.log| == kicks + |after.log|
      && var m, n := Resyncs(before.log, |before.log|), Resyncs(after.log, |after.log|);
         m <= n && overrunCount == Min(overruns + n - m, U32_MAX)
    }

    /** The runner stands where serving `rs` from flight `f0` and schedule `s0` leads. */
    ghost predicate Reached(f0: Flight, s0: Schedule, period: U32, rs: seq<Reading>, kicks: nat, overruns: U32)
      reads this, kernel, kernel.flightPhase, ingress
    {
      && View() == ServedAll(kernel.cfg, f0, s0, period, rs)
      && Accounted(s0, ReadAll(s0, period, Nows(rs)), kicks, overruns)
    }

    /** One clock reading inside a pass: the pass ends, or a tick runs and the schedule advances. `f0` and
        `s0` are where the run began. */
    method Attempt(period: U32, tick: U64, done: nat, readings: seq<Reading>, i: nat,
                   ghost f0: Flight, ghost s0: Schedule, ghost kicks: nat, ghost overruns: U32)
      returns (nextTick: U64, steps: nat, passEnded: bool)
      requires i < |readings| && Reached(f0, s0, period, readings[..i], kicks, overruns)
      requires At(s0, period, readings[..i], tick, done) && done < MAX_CATCH_UP
      modifies this, kernel, kernel.flightPhase, ingress
      ensures Reached(f0, s0, period, readings[..i + 1], kicks, overruns)
      ensures At(s0, period, readings[..i + 1], nextTick, if passEnded then 0 else steps)
      ensures steps < MAX_CATCH_UP
    {
      var r := readings[i];
      ghost var sched := ReadAll(s0, period, Nows(readings[..i]));
      OneMoreReading(kernel.cfg, f0, s0, period, readings, i);
      nextTick, steps, passEnded := tick, done, false;
      if NotYet(r.nowUs, nextTick) {
        passEnded := true;
        return;
      }
      OneMoreEntry(sched, period, r.nowUs);
      Step(r.nowUs, period, r.input);
      nextTick := WrapAdd(nextTick, period);
      if steps + 1 >= MAX_CATCH_UP {
        overrunCount := if overrunCount == U32_MAX then U32_MAX else overrunCount + 1;
        nextTick := r.nowUs;
        passEnded := true;
      } else {
        steps := steps + 1;
      }
    }

    /** One outer pass of `run`, from reading `first` on: the bounded catch-up loop. */
    method Pass(period: U32, tick: U64, readings: seq<Reading>, first: nat,
                ghost f0: Flight, ghost s0: Schedule, ghost kicks: nat, ghost overruns: U32)
      returns (nextTick: U64, i: nat)
      requires first < |readings| && Reached(f0, s0, period, readings[..first], kicks, overruns)
      requires At(s0, period, readings[..first], tick, 0)
      modifies this, kernel, kernel.flightPhase, ingress
      ensures first < i <= |readings| && Reached(f0, s0, period, readings[..i], kicks, overruns)
      ensures i < |readings| ==> At(s0, period, readings[..i], nextTick, 0)
    {
      nextTick, i := tick, first;
      var steps: nat, passEnded := 0, false;
      while !passEnded && i < |readings|
        invariant first <= i <= |readings| && (i == first ==> !passEnded) && steps < MAX_CATCH_UP
        invariant At(s0, period, readings[..i], nextTick, if passEnded then 0 else steps)
        invariant Reached(f0, s0, period, readings[..i], kicks, overruns)
        decreases |readings| - i
      {
        nextTick, steps, passEnded := Attempt(period, nextTick, steps, readings, i, f0, s0, kicks, overruns);
        i := i + 1;
      }
    }

    /** `run`, up to the point where `readings` clock readings have been taken: the nested loops execute
        exactly the ticks of the scheduler machine, with one watchdog kick per executed tick. */
    method Run(period: U32, start: U64, readings: seq<Reading>)
      modifies this, kernel, kernel.flightPhase, ingress
      ensures View() == ServedAll(kernel.cfg, old(View()), Started(start), period, readings)
      ensures Accounted(Started(start), ReadAll(Started(start), period, Nows(readings)),
                        old(watchdogKicks), old(overrunCount))
    {
      var nextTick, i := start, 0;
      ghost var s0 := Started(start);
      assert Nows(readings[..0]) == [];
      while i < |readings|
        invariant 0 <= i <= |readings|
        invariant i < |readings| ==> At(s0, period, readings[..i], nextTick, 0)
        invariant Reached(old(View()), s0, period, readings[..i], old(watchdogKicks), old(overrunCount))
        decreases |readings| - i
      {
        nextTick, i := Pass(period, nextTick, readings, i, old(View()), s0, old(watchdogKicks), old(overrunCount));
      }
      assert readings[..i] == readings;
    }
  }
}
