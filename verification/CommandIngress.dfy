/** Commands and the ingress that retains setpoints (aviate-hal/io/src/comm.rs,
    aviate-runtime/src/command_ingress.rs). */
module CommandIngress {
  import opened Common

  /** The part of a flight command the modelled code reads. */
  datatype FlightCommand = FlightCommand(sequence: U32, collectiveThrust: real, enumsValid: bool)

  datatype SystemCommand =
    | FlightControl(command: FlightCommand)
    | Arm
    | Disarm
    | EmergencyTerminate

  datatype CommandClass = Setpoint | Discrete

  function Class(c: SystemCommand): CommandClass {
    if c.FlightControl? then Setpoint else Discrete
  }

  /** One call of `receive`. */
  datatype Receipt = Receipt(command: SystemCommand, nowUs: U64)

  datatype IngressState = IngressState(setpoint: Option<SystemCommand>, setpointRxUs: Option<U64>)

  const INITIAL: IngressState := IngressState(None, None)

  function Received(s: IngressState, r: Receipt): IngressState {
    if Class(r.command).Setpoint? then IngressState(Some(r.command), Some(r.nowUs)) else s
  }

  function AgeMs(s: IngressState, nowUs: U64): U32 {
    match s.setpointRxUs
    case Some(rx) => Min(WrapSub(nowUs, rx) / 1000, U32_MAX)
    case None => U32_MAX
  }

  function ReceivedAll(s: IngressState, rs: seq<Receipt>): IngressState
    decreases |rs|
  {
    if rs == [] then s else ReceivedAll(Received(s, rs[0]), rs[1..])
  }

  function SetpointsOf(rs: seq<Receipt>): seq<Receipt> {
    Filter(rs, (r: Receipt) => r.command.FlightControl?)
  }

  /** Arms, disarms and terminates can be erased from any receive sequence. */
  lemma {:induction false} DiscreteErasure(s: IngressState, rs: seq<Receipt>)
    ensures ReceivedAll(s, rs) == ReceivedAll(s, SetpointsOf(rs))
    decreases |rs|
  {
    if rs == [] {
    } else {
      var rest := SetpointsOf(rs[1..]);
      DiscreteErasure(Received(s, rs[0]), rs[1..]);
      if rs[0].command.FlightControl? {
        assert SetpointsOf(rs) == [rs[0]] + rest && ([rs[0]] + rest)[1..] == rest;
      }
    }
  }

  /** The retained setpoint and its stamp are those of the last setpoint received, so its age is
      independent of everything that came after it. */
  lemma {:induction false} LastSetpointGoverns(s: IngressState, rs: seq<Receipt>, k: nat, nowUs: U64)
    requires k < |rs| && rs[k].command.FlightControl?
    requires forall i :: k < i < |rs| ==> !rs[i].command.FlightControl?
    ensures ReceivedAll(s, rs) == IngressState(Some(rs[k].command), Some(rs[k].nowUs))
    ensures rs[k].nowUs <= nowUs
            ==> AgeMs(ReceivedAll(s, rs), nowUs) == Min((nowUs - rs[k].nowUs) / 1000, U32_MAX)
    decreases |rs|
  {
    if k == 0 {
      DiscreteErasure(Received(s, rs[0]), rs[1..]);
      NoSetpoints(rs[1..]);
    } else {
      LastSetpointGoverns(Received(s, rs[0]), rs[1..], k - 1, nowUs);
    }
  }

  lemma {:induction false} NoSetpoints(rs: seq<Receipt>)
    requires forall i :: 0 <= i < |rs| ==> !rs[i].command.FlightControl?
    ensures SetpointsOf(rs) == []
  {
    if rs == [] {
    } else {
      NoSetpoints(rs[1..]);
    }
  }

  /** Exactly a flight command changes what is retained, command or stamp, unless it repeats both. */
  lemma OnlySetpointsAreRetained(s: IngressState, r: Receipt)
    ensures Class(r.command).Setpoint? <==> r.command.FlightControl?
    ensures Received(s, r) != s <==> r.command.FlightControl? && s != IngressState(Some(r.command), Some(r.nowUs))
    ensures r.command.FlightControl? ==>
              Received(s, r).setpoint == Some(r.command) && Received(s, r).setpointRxUs == Some(r.nowUs)
  {
  }

  /** Until the first one there is no command, and its age is the greatest there is. */
  lemma NeverHeardIsOldest(rs: seq<Receipt>, nowUs: U64)
    requires forall i :: 0 <= i < |rs| ==> !rs[i].command.FlightControl?
    ensures ReceivedAll(INITIAL, rs).setpoint == None && AgeMs(ReceivedAll(INITIAL, rs), nowUs) == U32_MAX
  {
    DiscreteErasure(INITIAL, rs);
    NoSetpoints(rs);
  }

  class Ingress {
    var setpoint: Option<SystemCommand>
    var setpointRxUs: Option<U64>

    ghost function View(): IngressState
      reads this
    {
      IngressState(setpoint, setpointRxUs)
    }

    constructor ()
      ensures View() == INITIAL
    {
      setpoint, setpointRxUs := None, None;
    }

    method Receive(cmd: SystemCommand, nowUs: U64) returns (c: CommandClass)
      modifies this
      ensures c == Class(cmd)
      ensures View() == Received(old(View()), Receipt(cmd, nowUs))
    {
      c := Class(cmd);
      if c.Setpoint? {
        setpoint := Some(cmd);
        setpointRxUs := Some(nowUs);
      }
    }

    method SetpointAgeMs(nowUs: U64) returns (age: U32)
      ensures age == AgeMs(View(), nowUs)
    {
      match setpointRxUs
      case Some(rx) =>
        var ms := WrapSub(nowUs, rx) / 1000;
        age := if ms <= U32_MAX then ms else U32_MAX;
      case None => age := U32_MAX;
    }
  }
}
