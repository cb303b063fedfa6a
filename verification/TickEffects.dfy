/** What the events of a tick achieve (the board step of aviate-boards/micoair-h743-v2/src/hw.rs with the kernel
    operations it calls): how a flight is ended, when it is begun, which setpoint is flown and what is put out. */
module TickEffects {
  import opened Common
  import opened CommandIngress
  import opened Runner
  import FlightPhase
  import Kernel
  import Effects = KernelEffects

  /** The kernel that the update of a tick finds. */
  function FoundByUpdate(k: Kernel.State, i: Input): Kernel.State {
    var k := Dispatched(k, i);
    if k.init.Ready? then k else Kernel.InitStepped(k, i.sensors, i.initEstimate)
  }

  lemma TickIsUpdate(cfg: Kernel.Config, f: Flight, r: Reading, dtUs: U32)
    ensures Stepped(cfg, f, r, dtUs).kernel
            == Kernel.Update(cfg, FoundByUpdate(f.kernel, r.input), CycleInTick(f, r, dtUs)).0
  {
  }

  /** The same readings with another event. */
  function With(r: Reading, event: Option<SystemCommand>): Reading { r.(input := r.input.(event := event)) }

  // ---------- ending a flight ----------

  /** The flight is over: on the way to the checks before the next one, in Backup with nothing observed. */
  predicate Ended(k: Kernel.State) {
    && k.init.PreArm? && k.law.Backup? && k.cause.NoCause?
    && k.phase == FlightPhase.POWER_ON && k.inFlight.current == {} && k.preArm.samples.imu == 0
  }

  lemma UnarmedUpdate(cfg: Kernel.Config, k: Kernel.State, c: Kernel.Cycle)
    requires !k.init.Armed?
    ensures var t := Kernel.Update(cfg, k, c).0; t == k.(timing := t.timing, faults := t.faults)
  {
  }

  lemma EndingTick(cfg: Kernel.Config, f: Flight, r: Reading, dtUs: U32)
    requires Dispatched(f.kernel, r.input) == Kernel.EndedFlight(f.kernel)
    ensures Ended(Stepped(cfg, f, r, dtUs).kernel)
  {
    TickIsUpdate(cfg, f, r, dtUs);
    UnarmedUpdate(cfg, FoundByUpdate(f.kernel, r.input), CycleInTick(f, r, dtUs));
  }

  /** A terminate ends the flight in its own tick, whatever the state and the readings. */
  lemma TerminateTick(cfg: Kernel.Config, f: Flight, r: Reading, dtUs: U32)
    requires r.input.event == Some(EmergencyTerminate)
    ensures Ended(Stepped(cfg, f, r, dtUs).kernel)
  {
    EndingTick(cfg, f, r, dtUs);
  }

  /** A disarm does so exactly when the vehicle is not airborne, and in flight it changes nothing. */
  lemma DisarmTick(cfg: Kernel.Config, f: Flight, r: Reading, dtUs: U32)
    requires r.input.event == Some(Disarm)
    ensures var k := Stepped(cfg, f, r, dtUs).kernel;
      if f.kernel.phase.phase.Airborne? then k == Stepped(cfg, f, With(r, None), dtUs).kernel else Ended(k)
    ensures Stepped(cfg, f, r, dtUs).ingress == f.ingress
  {
    if !f.kernel.phase.phase.Airborne? {
      EndingTick(cfg, f, r, dtUs);
    }
  }

  lemma ArmedUpdate(cfg: Kernel.Config, k: Kernel.State, c: Kernel.Cycle)
    requires k.init.Armed?
    ensures var t := Kernel.Update(cfg, k, c).0;
      if c.command.enumsValid && Kernel.Critical(Kernel.SensorFaults(k.faults, c.sensors)) then t.init.Fault?
      else t.init.Armed?
  {
  }

  /** An armed vehicle is armed after a tick unless the tick ends the flight, or its cycle is well-formed and meets a
      critical fault. */
  lemma ArmedLeftExactly(cfg: Kernel.Config, f: Flight, r: Reading, dtUs: U32)
    requires f.kernel.init.Armed?
    ensures Stepped(cfg, f, r, dtUs).kernel.init.Armed? <==>
              !EndsFlight(f.kernel, r.input)
              && (CycleInTick(f, r, dtUs).command.enumsValid ==>
                    !Kernel.Critical(Kernel.SensorFaults(f.kernel.faults, r.input.sensors)))
  {
    if EndsFlight(f.kernel, r.input) {
      EndingTick(cfg, f, r, dtUs);
    } else {
      var k := UpToUpdate(cfg, f, r, dtUs);
      ArmedUpdate(cfg, k, CycleInTick(f, r, dtUs));
    }
  }

  // ---------- beginning one ----------

  /** What an accepted arm leaves. */
  function JustArmed(k: Kernel.State, e: FlightPhase.Estimate): Kernel.State {
    k.(init := Kernel.Armed, law := Kernel.Primary, cause := Kernel.NoCause, phase := FlightPhase.BeginFlightPeriod(e))
  }

  lemma ArmDispatched(k: Kernel.State, i: Input)
    requires i.event == Some(Arm)
    ensures Dispatched(k, i) == if k.init.Ready? && k.faults == {} then JustArmed(k, i.armEstimate) else k
  {
  }

  lemma ArmReachesUpdate(cfg: Kernel.Config, f: Flight, r: Reading, dtUs: U32) returns (k: Kernel.State)
    requires r.input.event == Some(Arm) && f.kernel.init.Ready? && f.kernel.faults == {}
    ensures k == JustArmed(f.kernel, r.input.armEstimate).(preArm := k.preArm)
    ensures Stepped(cfg, f, r, dtUs).kernel == Kernel.Update(cfg, k, CycleInTick(f, r, dtUs)).0
  {
    ArmDispatched(f.kernel, r.input);
    TickIsUpdate(cfg, f, r, dtUs);
    k := FoundByUpdate(f.kernel, r.input);
  }

  lemma CriticalWithoutFaults(sensors: Kernel.Sensors)
    ensures Kernel.Critical(Kernel.SensorFaults({}, sensors)) <==> !Kernel.AnyGood(sensors.imus)
  {
    if !Kernel.AnyGood(sensors.imus) {
      assert Kernel.ALL_IMU_FAILED in Kernel.SensorFaults({}, sensors) * Kernel.CRITICAL_FAULTS;
    }
  }

  lemma FlyingPhase(cfg: Kernel.Config, k: Kernel.State, c: Kernel.Cycle)
    requires Effects.Flies(k, c)
    ensures Kernel.Update(cfg, k, c).0.phase
            == FlightPhase.Update(k.phase, FlightPhase.Obs(c.estimate, c.dtSec), true, FlightPhase.DEFAULT_LIMITS)
  {
  }

  lemma {:induction false} SameDecision(cfg: Kernel.Config, k: Kernel.State, t: Kernel.State, c: Kernel.Cycle, n: nat)
    requires n <= |Effects.URGENCY| && k.inFlight == t.inFlight && k.timing == t.timing
    ensures Effects.FirstUnmet(cfg, k, c, n) == Effects.FirstUnmet(cfg, t, c, n)
    decreases |Effects.URGENCY| - n
  {
    if n < |Effects.URGENCY| {
      SameDecision(cfg, k, t, c, n + 1);
    }
  }

  /** An arm on a kernel that is ready and has no fault arms it, with the datum of the estimate of that moment and in
      Primary, and the update of the same tick flies it from there; only a malformed setpoint keeps the update from
      looking at the vehicle, and only the loss of every IMU in this very tick is critical. */
  lemma ArmTick(cfg: Kernel.Config, f: Flight, r: Reading, dtUs: U32)
    requires r.input.event == Some(Arm) && f.kernel.init.Ready? && f.kernel.faults == {}
    ensures var t, c := Stepped(cfg, f, r, dtUs).kernel, CycleInTick(f, r, dtUs);
      var begun := FlightPhase.BeginFlightPeriod(r.input.armEstimate);
      if !c.command.enumsValid then t.init.Armed? && t.law.Primary? && t.phase == begun
      else if !Kernel.AnyGood(r.input.sensors.imus) then t.init.Fault? && t.law.Backup?
      else
        && t.init.Armed?
        && t.law == Effects.LawAfter(Kernel.Primary, Effects.DegradesFor(cfg, f.kernel, c))
        && t.phase == FlightPhase.Update(begun, FlightPhase.Obs(c.estimate, c.dtSec), true, FlightPhase.DEFAULT_LIMITS)
  {
    var k := ArmReachesUpdate(cfg, f, r, dtUs);
    var c := CycleInTick(f, r, dtUs);
    CriticalWithoutFaults(r.input.sensors);
    ArmedUpdate(cfg, k, c);
    if Effects.Flies(k, c) {
      Effects.FlyingCycleDegrades(cfg, k, c);
      SameDecision(cfg, k, f.kernel, c, 0);
      FlyingPhase(cfg, k, c);
    }
  }

  /** Any other arm is without effect. */
  lemma ArmRefusedTick(cfg: Kernel.Config, f: Flight, r: Reading, dtUs: U32)
    requires r.input.event == Some(Arm) && !(f.kernel.init.Ready? && f.kernel.faults == {})
    ensures Stepped(cfg, f, r, dtUs).kernel == Stepped(cfg, f, With(r, None), dtUs).kernel
    ensures Stepped(cfg, f, r, dtUs).ingress == f.ingress
  {
    ArmDispatched(f.kernel, r.input);
  }

  lemma UpdateArmsNothing(cfg: Kernel.Config, k: Kernel.State, c: Kernel.Cycle)
    requires !k.init.Armed?
    ensures Kernel.Update(cfg, k, c).0.init == k.init
  {
  }

  /** A vehicle that is not armed becomes armed in a tick exactly by such an arm. */
  lemma ArmedOnlyByArm(cfg: Kernel.Config, f: Flight, r: Reading, dtUs: U32)
    requires !f.kernel.init.Armed?
    ensures Stepped(cfg, f, r, dtUs).kernel.init.Armed? <==>
              && r.input.event == Some(Arm) && f.kernel.init.Ready? && f.kernel.faults == {}
              && (CycleInTick(f, r, dtUs).command.enumsValid ==> Kernel.AnyGood(r.input.sensors.imus))
  {
    if r.input.event == Some(Arm) && f.kernel.init.Ready? && f.kernel.faults == {} {
      ArmTick(cfg, f, r, dtUs);
    } else {
      TickIsUpdate(cfg, f, r, dtUs);
      UpdateArmsNothing(cfg, FoundByUpdate(f.kernel, r.input), CycleInTick(f, r, dtUs));
    }
  }

  // ---------- what is flown and put out ----------

  /** The index of the last reading that carried a setpoint, or -1. */
  function LastSetpoint(rs: seq<Reading>): (k: int)
    ensures -1 <= k < |rs| && (k >= 0 ==> SetpointOf(rs[k]).Some?)
  {
    if rs == [] then -1
    else if SetpointOf(rs[|rs| - 1]).Some? then |rs| - 1
    else LastSetpoint(rs[..|rs| - 1])
  }

  /** What `rs` leaves in an ingress: the last setpoint with the time it was read. */
  ghost predicate Retains(s: IngressState, rs: seq<Reading>) {
    var k := LastSetpoint(rs);
    if k < 0 then s == INITIAL
    else s.setpoint == Some(FlightControl(SetpointOf(rs[k]).value)) && s.setpointRxUs == Some(rs[k].nowUs)
  }

  lemma RetainsStep(s: IngressState, rs: seq<Reading>, r: Reading)
    requires Retains(s, rs)
    ensures Retains(Heard(s, r), rs + [r])
  {
    assert (rs + [r])[..|rs|] == rs;
  }

  lemma {:induction false} IngressFollowsReadings(cfg: Kernel.Config, needs: Kernel.Needs, rs: seq<Reading>, dtUs: U32)
    ensures Retains(SteppedAll(cfg, PoweredOn(cfg, needs), rs, dtUs).ingress, rs)
  {
    if rs == [] {
    } else {
      var before, r := rs[..|rs| - 1], rs[|rs| - 1];
      IngressFollowsReadings(cfg, needs, before, dtUs);
      SteppedAllAppend(cfg, PoweredOn(cfg, needs), before, r, dtUs);
      RetainsStep(SteppedAll(cfg, PoweredOn(cfg, needs), before, dtUs).ingress, before, r);
      assert rs == before + [r];
    }
  }

  /** The cycle flies the last setpoint of `rs`, at its age in whole milliseconds; the default, as old as can be, if
      there is none. */
  predicate FliesLast(c: Kernel.Cycle, rs: seq<Reading>, nowUs: U64) {
    var k := LastSetpoint(rs);
    && (k < 0 ==> c.command == DEFAULT_COMMAND && c.commandAgeMs == U32_MAX)
    && (k >= 0 ==> c.command == SetpointOf(rs[k]).value)
    && (k >= 0 && rs[k].nowUs <= nowUs ==> c.commandAgeMs == Min((nowUs - rs[k].nowUs) / 1000, U32_MAX))
  }

  lemma RetainedIsFlown(s: IngressState, rs: seq<Reading>, i: Input, nowUs: U64, dtUs: U32)
    requires Retains(s, rs)
    ensures FliesLast(CycleOf(i, s, nowUs, dtUs), rs, nowUs)
  {
  }

  /** The cycle of every tick of a run flies the last setpoint read up to and including this tick. */
  lemma TickFliesLastSetpoint(cfg: Kernel.Config, needs: Kernel.Needs, rs: seq<Reading>, r: Reading, dtUs: U32)
    ensures FliesLast(CycleInTick(SteppedAll(cfg, PoweredOn(cfg, needs), rs, dtUs), r, dtUs), rs + [r], r.nowUs)
  {
    var s := SteppedAll(cfg, PoweredOn(cfg, needs), rs, dtUs).ingress;
    IngressFollowsReadings(cfg, needs, rs, dtUs);
    RetainsStep(s, rs, r);
    RetainedIsFlown(Heard(s, r), rs + [r], r.input, r.nowUs, dtUs);
  }

  /** What the readings brought, and when. */
  function Arrivals(rs: seq<Reading>): (a: seq<(Option<SystemCommand>, U64)>)
    ensures |a| == |rs|
  {
    seq(|rs|, i requires 0 <= i < |rs| => (rs[i].input.event, rs[i].nowUs))
  }

  /** The link health of a flight is that of its readings, so `LinkOkExactly` says when the link is up. */
  lemma {:induction false} LinkFollowsReadings(cfg: Kernel.Config, needs: Kernel.Needs, rs: seq<Reading>, dtUs: U32)
    ensures SteppedAll(cfg, PoweredOn(cfg, needs), rs, dtUs).health == LinkRun(NEW_HEALTH, Arrivals(rs))
  {
    if rs == [] {
    } else {
      var before, r := rs[..|rs| - 1], rs[|rs| - 1];
      LinkFollowsReadings(cfg, needs, before, dtUs);
      SteppedAllAppend(cfg, PoweredOn(cfg, needs), before, r, dtUs);
      TickHealth(cfg, SteppedAll(cfg, PoweredOn(cfg, needs), before, dtUs), r, dtUs);
      ArrivalsAppend(before, r);
      assert rs == before + [r];
    }
  }

  lemma ArrivalsAppend(rs: seq<Reading>, r: Reading)
    ensures LinkRun(NEW_HEALTH, Arrivals(rs + [r]))
            == LinkTick(LinkRun(NEW_HEALTH, Arrivals(rs)), r.input.event, r.nowUs)
  {
    assert Arrivals(rs + [r])[..|rs|] == Arrivals(rs);
  }

  lemma TickHealth(cfg: Kernel.Config, f: Flight, r: Reading, dtUs: U32)
    ensures Stepped(cfg, f, r, dtUs).health == LinkTick(f.health, r.input.event, r.nowUs)
  {
  }

  /** What an armed vehicle is commanded after a tick that neither ends its flight, nor is malformed, nor meets a
      critical fault: the mixer's result of this tick in a law of control, and otherwise the safe pattern, each
      approached under the slew limits from what it was commanded before. */
  lemma FlyingTickOutput(cfg: Kernel.Config, f: Flight, r: Reading, dtUs: U32)
    requires !EndsFlight(f.kernel, r.input) && Effects.Flies(f.kernel, CycleInTick(f, r, dtUs))
    ensures var t, c := Stepped(cfg, f, r, dtUs).kernel, CycleInTick(f, r, dtUs);
      && t.init.Armed?
      && Effects.AllApproach(
           cfg, f.kernel, if Effects.Controlled(t.law, c) then r.input.mixed else cfg.safeOutput, t.commanded)
  {
    var k := UpToUpdate(cfg, f, r, dtUs);
    var c := CycleInTick(f, r, dtUs);
    Effects.FlyingCycleOutput(cfg, k, c);
    var t := Kernel.Update(cfg, k, c).0;
    var target := if Effects.Controlled(t.law, c) then c.mixed else cfg.safeOutput;
    forall i | 0 <= i < |t.commanded| ensures Effects.LimitAt(cfg, f.kernel, i) == Effects.LimitAt(cfg, k, i) {
    }
    assert Effects.AllApproach(cfg, f.kernel, target, t.commanded);
  }
}
