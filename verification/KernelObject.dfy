/** The kernel object: the fields the source updates step by step, each operation proved to take the
    step of `Kernel` (aviate-core/src/kernel_logic.rs, kernel_logic/lifecycle.rs, kernel_update.rs). */
module KernelObject {
  import opened Common
  import FlightPhase
  import opened Kernel

  class AviateKernel {
    const cfg: Config
    const flightPhase: FlightPhase.FlightPhaseState
    var initState: InitState
    var faults: set<FaultFlag>
    var controlLaw: Law
    var terminalCause: TerminalCause
    var preArm: PreArmStatus
    var inFlight: InFlightStatus
    var timing: Timing
    var commanded: seq<real>

    ghost function View(): State
      reads this, flightPhase
    {
      State(initState, faults, controlLaw, terminalCause, preArm, inFlight, timing,
            flightPhase.View(), commanded)
    }

    constructor (config: Config, needs: Needs)
      ensures cfg == config && fresh(flightPhase)
      ensures View() == PoweredOn(needs, |config.safeOutput|)
    {
      cfg := config;
      flightPhase := new FlightPhase.FlightPhaseState();
      initState, faults, controlLaw, terminalCause := PowerOn, {}, Primary, NoCause;
      preArm := PreArmStatus(needs.preArm, {}, Samples(0, 0, 0, 0, 100));
      inFlight := InFlightStatus(needs.inFlight, {});
      timing := Timing(0, 0, 0, 0, 0, 0);
      commanded := seq(|config.safeOutput|, _ => 0.0);
    }

    method UpdateSensorFaults(sensors: Sensors)
      modifies this`faults
      ensures faults == SensorFaults(old(faults), sensors)
    {
      faults := Put(faults, ALL_IMU_FAILED, !AnyGood(sensors.imus));
      faults := Put(faults, BARO_FAILED, !AnyGood(sensors.baros));
      faults := Put(faults, MAG_FAILED, !AnyGood(sensors.mags));
      faults := Put(faults, ALL_GNSS_LOST, !AnyGood(sensors.gnss));
    }

    method CheckCriticalFaults() returns (entered: bool)
      modifies this`initState, this`controlLaw, this`terminalCause
      ensures entered == Critical(faults)
      ensures View() == if entered then EnteredFault(old(View())) else old(View())
    {
      entered := faults * CRITICAL_FAULTS != {};
      if entered {
        initState := Fault;
        controlLaw := Backup;
        terminalCause := NoCause;
      }
    }

    method HandleDegradation(reason: Reason) returns (event: Option<DegradationEvent>)
      modifies this`faults, this`controlLaw, this`terminalCause
      ensures View() == Degraded(old(View()), reason)
      ensures event == DegradedEvent(old(View()), reason)
    {
      var latched := LatchedFault(reason);
      if latched.Some? {
        faults := faults + {latched.value};
      }
      var from, to := controlLaw, TargetLaw(reason);
      if Severity(to) > Severity(from) {
        controlLaw := to;
        terminalCause := if !to.Direct? then NoCause
                         else if reason.CommandTimeout? then CommandLoss else Commanded;
        event := Some(DegradationEvent(from, to, reason));
      } else {
        event := None;
      }
    }

    method ReportTimingViolation(violation: bool)
      modifies this`timing
      ensures View() == TimingReported(old(View()), violation)
    {
      if violation {
        timing := timing.(deadlineViolations := SatInc(timing.deadlineViolations));
        timing := timing.(consecutiveViolations := SatInc(timing.consecutiveViolations));
      } else {
        timing := timing.(consecutiveViolations := 0);
      }
    }

    method Arm(estimate: FlightPhase.Estimate) returns (r: Result<(), ArmError>)
      modifies this`initState, this`controlLaw, this`terminalCause, flightPhase
      ensures r == ArmVerdict(old(View())) && View() == ArmAttempt(old(View()), estimate)
    {
      if initState.Armed? {
        return Err(AlreadyArmed);
      }
      if faults != {} {
        return Err(Faulted);
      }
      if !initState.Ready? {
        return Err(NotReady);
      }
      flightPhase.Begin(estimate);
      controlLaw := Primary;
      terminalCause := NoCause;
      initState := Armed;
      r := Ok(());
    }

    /** A refused disarm changes nothing. */
    method Disarm() returns (ok: bool)
      modifies this, flightPhase
      ensures ok == !old(View()).phase.phase.Airborne?
      ensures View() == DisarmAttempt(old(View()))
    {
      if flightPhase.phase.Airborne? {
        return false;
      }
      EndFlightPeriod();
      ok := true;
    }

    method EndFlightPeriod()
      modifies this, flightPhase
      ensures View() == EndedFlight(old(View()))
    {
      initState := Disarmed;
      controlLaw := Backup;
      terminalCause := NoCause;
      inFlight := inFlight.(current := {});
      flightPhase.Reset();
    }

    method ResetFromFault() returns (r: Result<(), ArmError>)
      modifies this`preArm, this`inFlight, this`initState
      ensures r.Ok? <==> CanResetFromFault(old(View()))
      ensures View() == FaultReset(old(View()))
    {
      if !initState.Fault? {
        return Err(NotReady);
      }
      var noCritical := faults * CRITICAL_FAULTS == {};
      if !(noCritical && IMU_HEALTHY in preArm.current && THROTTLE_LOW in preArm.current) {
        return Err(Faulted);
      }
      preArm := NoSamples(preArm);
      inFlight := inFlight.(current := {});
      initState := PreArm;
      r := Ok(());
    }

    method GroundResetKernel()
      modifies this, flightPhase
      ensures View() == GroundReset(old(View()))
    {
      if initState.Armed? {
        return;
      }
      faults := {};
      terminalCause := NoCause;
      preArm := preArm.(current := {});
      preArm := NoSamples(preArm);
      inFlight := inFlight.(current := {});
      flightPhase.Reset();
      initState := ConfigLoading;
      commanded := seq(|commanded|, _ => 0.0);
      timing := Timing(0, 0, 0, 0, 0, 0);
      controlLaw := Primary;
    }

    method ObservePreArm(sensors: Sensors, estimate: FlightPhase.Estimate)
      modifies this`preArm
      ensures preArm == PreArmObserved(old(preArm), sensors, faults, estimate)
    {
      var current, n := preArm.current, preArm.samples;
      var imu, baro := AnyGood(sensors.imus), AnyGood(sensors.baros);
      var mag, gnss := AnyGood(sensors.mags), AnyGood(sensors.gnss);
      current := Put(Put(current, IMU_HEALTHY, imu), BARO_HEALTHY, baro);
      current := Put(Put(current, MAG_HEALTHY, mag), GNSS_AVAILABLE, gnss);
      if imu { n := n.(imu := SatInc(n.imu)); }
      if baro { n := n.(baro := SatInc(n.baro)); }
      if mag { n := n.(mag := SatInc(n.mag)); }
      if gnss { n := n.(gnss := SatInc(n.gnss)); }
      current := Put(current, IMU_CONVERGED, n.imu >= n.minRequired);
      current := Put(current, BARO_CONVERGED, n.baro >= n.minRequired);
      current := Put(current, MAG_CONVERGED, n.mag >= n.minRequired);
      current := Put(current, NO_FAULTS, faults == {});
      current := Put(current, CONFIG_VALID, CONFIG_INVALID !in faults);
      current := Put(current, EKF_CONVERGED, FlightPhase.Usable(estimate));
      preArm := preArm.(current := current, samples := n);
    }

    method InitStep(sensors: Sensors, estimate: FlightPhase.Estimate)
      modifies this`preArm, this`initState
      ensures View() == InitStepped(old(View()), sensors, estimate)
    {
      ObservePreArm(sensors, estimate);
      var current := preArm.current;
      match initState {
        case PowerOn => initState := ConfigLoading;
        case ConfigLoading =>
          preArm := preArm.(current := preArm.current + {CONFIG_VALID});
          initState := SensorInit;
        case SensorInit =>
          if IMU_HEALTHY in current { initState := EstimatorConverging; }
        case EstimatorConverging =>
          if IMU_CONVERGED in current && EKF_CONVERGED in current { initState := PreArm; }
        case PreArm =>
          if preArm.required <= current { initState := Ready; }
        case Ready =>
          if !(preArm.required <= current) { initState := PreArm; }
        case Armed =>
        case Disarmed =>
          preArm := NoSamples(preArm);
          initState := PreArm;
        case Fault =>
      }
    }

    /** The in-flight flags of one observed cycle. */
    method ObserveChecks(c: Cycle)
      modifies this`inFlight
      ensures inFlight == Observed(cfg, old(inFlight), c)
    {
      var current, flags := inFlight.current, c.estimate.validFlags;
      current := Put(current, ATTITUDE_VALID, FlightPhase.ATTITUDE in flags);
      current := Put(current, VELOCITY_VALID, FlightPhase.VELOCITY in flags);
      current := Put(current, POSITION_VALID, FlightPhase.POSITION in flags);
      current := Put(current, HEADING_VALID, FlightPhase.ATTITUDE in flags);
      current := Put(current, IMU_OK, AnyGood(c.sensors.imus));
      current := Put(current, BARO_OK, AnyGood(c.sensors.baros));
      current := Put(current, ALTITUDE_OK, AltitudeOk(cfg, c.estimate));
      current := Put(current, COMMAND_RECENT, c.commandAgeMs < cfg.commandTimeoutMs);
      inFlight := inFlight.(current := current);
    }

    method ReleaseTerminal()
      modifies this`controlLaw, this`terminalCause
      ensures View() == Released(old(View()))
    {
      if controlLaw.Direct? && terminalCause.CommandLoss? && COMMAND_RECENT in inFlight.current {
        controlLaw := Primary;
        terminalCause := NoCause;
      }
    }

    method DegradeForCycle() returns (event: Option<DegradationEvent>)
      modifies this`faults, this`controlLaw, this`terminalCause
      ensures View() == match ReasonOf(old(View())) case Some(r) => Degraded(old(View()), r) case None => old(View())
      ensures event == match ReasonOf(old(View())) case Some(r) => DegradedEvent(old(View()), r) case None => None
    {
      if timing.consecutiveViolations >= TIMING_VIOLATION_THRESHOLD {
        event := HandleDegradation(TimingViolation);
      } else {
        var trigger := Trigger(inFlight);
        if trigger.Some? {
          event := HandleDegradation(trigger.value);
        } else {
          event := None;
        }
      }
    }

    /** One control cycle, with the early returns of the source in their order. */
    method RunCycle(c: Cycle) returns (out: Output)
      modifies this, flightPhase
      ensures View() == Update(cfg, old(View()), c).0
      ensures out == Update(cfg, old(View()), c).1
    {
      timing := TickTiming(timing, c.dtUs);
      if !c.command.enumsValid {
        faults := faults + {ENUM_INVALID};
        return Output(cfg.safeOutput, Backup, None);
      }
      UpdateSensorFaults(c.sensors);
      if !initState.Armed? {
        return Output(cfg.safeOutput, Backup, None);
      }
      var entered := CheckCriticalFaults();
      if entered {
        return Output(cfg.safeOutput, Backup, None);
      }
      ghost var sensed := View();
      ObserveChecks(c);
      flightPhase.Fold(c.estimate, initState.Armed?, c.dtSec, FlightPhase.DEFAULT_LIMITS);
      ReleaseTerminal();
      var event := DegradeForCycle();
      assert View() == Decided(cfg, sensed, c);
      inFlight := inFlight.(current := Put(inFlight.current, WITHIN_ENVELOPE, c.withinEnvelope));
      var safeControl := controlLaw.Backup? || (!controlLaw.Direct? && !c.modeSupported);
      var target := if safeControl then cfg.safeOutput else c.mixed;
      var outputs := SlewAll(commanded, target, cfg.slewLimit);
      commanded := outputs;
      out := Output(outputs, controlLaw, event);
    }
  }
}
