/** The kernel state's canonical encoding (aviate-core/src/kernel/state.rs), for the shipped estimator and either
    controller state: none, or the multirotor cascade's. */
module Replication {
  import opened Common
  import opened Bytes
  import opened Records
  import Kernel

  datatype ConfigMode = Hover | Cruise | Transition | DegradedMode

  datatype ControllerState = NoController | Multirotor(state: MultirotorState)

  datatype KernelState = KernelState(
    init: Kernel.InitState, mode: ConfigMode, faults: U64, law: Kernel.Law, cause: Kernel.TerminalCause,
    checks: KernelChecks, actuators: ActuatorState, timing: TimingStats, estimator: EkfState,
    fallback: FallbackState, controller: ControllerState, flight: FlightPhaseState)

  // ---------- encodings ----------

  function CauseBytes(c: Kernel.TerminalCause): (s: seq<Byte>) ensures |s| == 1 {
    match c case NoCause => [0] case CommandLoss => [1] case Commanded => [2]
  }

  function InitBytes(s: Kernel.InitState): (r: seq<Byte>) ensures |r| == 1 {
    match s
    case PowerOn => [0] case ConfigLoading => [1] case SensorInit => [2] case EstimatorConverging => [3]
    case PreArm => [4] case Ready => [5] case Armed => [6] case Disarmed => [7] case Fault => [8]
  }

  function LawBytes(l: Kernel.Law): (s: seq<Byte>) ensures |s| == 1 { [Kernel.Severity(l)] }

  function ModeBytes(m: ConfigMode): (s: seq<Byte>) ensures |s| == 1 {
    match m case Hover => [0] case Cruise => [1] case Transition => [2] case DegradedMode => [3]
  }

  /** The types of the kernel state's fields: one copy, or an encoder of their own. */
  datatype Field =
    | Leaf(code: seq<Byte>) | Checks(c: KernelChecks) | Actuators(a: ActuatorState) | Timing(t: TimingStats)
    | Estimator(e: EkfState) | Fallback(b: FallbackState) | Controller(m: MultirotorState)
    | Flight(f: FlightPhaseState)

  function FieldBytes(field: Field): seq<Byte> {
    match field
    case Leaf(code) => code
    case Checks(c) => ChecksBytes(c)
    case Actuators(a) => ActuatorBytes(a)
    case Timing(t) => TimingBytes(t)
    case Estimator(e) => EkfBytes(e)
    case Fallback(b) => FallbackBytes(b)
    case Controller(m) => MultirotorBytes(m)
    case Flight(f) => FlightBytes(f)
  }

  /** The controller without state encodes to nothing. */
  function ControllerField(c: ControllerState): Field {
    match c case NoController => Leaf([]) case Multirotor(m) => Controller(m)
  }

  /** The fields in declaration order. */
  function Fields(k: KernelState): (fs: seq<Field>)
    ensures |fs| == 12
  {
    [Leaf(InitBytes(k.init)), Leaf(ModeBytes(k.mode)), Leaf(LE(k.faults, 8)), Leaf(LawBytes(k.law)),
     Leaf(CauseBytes(k.cause)), Checks(k.checks), Actuators(k.actuators), Timing(k.timing),
     Estimator(k.estimator), Fallback(k.fallback), ControllerField(k.controller), Flight(k.flight)]
  }

  function StateBytes(k: KernelState): seq<Byte> { All(Fields(k), FieldBytes) }

  // ---------- its length ----------

  /** What the length depends on: whether the build carries the multirotor controller. */
  predicate Of(k: KernelState, multirotor: bool) { k.controller.Multirotor? == multirotor }

  function EncodedLen(multirotor: bool): nat { if multirotor then 1922 else 1827 }

  function Width(multirotor: bool, i: nat): nat {
    if i == 2 then 8
    else if i == 5 then 60
    else if i == 6 then 154
    else if i == 7 then 28
    else if i == 8 then 995
    else if i == 9 then 568
    else if i == 10 then if multirotor then 95 else 0
    else if i == 11 then 10
    else 1
  }

  lemma FieldLength(k: KernelState, i: nat)
    requires i < 12
    ensures |FieldBytes(Fields(k)[i])| == Width(k.controller.Multirotor?, i)
  {
    if i == 5 {
      ChecksLength(k.checks);
    } else if i == 6 {
      ActuatorLength(k.actuators);
    } else if i == 8 {
      EkfLength(k.estimator);
    } else if i == 9 {
      FallbackLength(k.fallback);
    } else if i == 10 && k.controller.Multirotor? {
      MultirotorLength(k.controller.state);
    }
  }

  function Widths(multirotor: bool, k: nat): nat {
    if k == 0 then 0 else Widths(multirotor, k - 1) + Width(multirotor, k - 1)
  }

  lemma {:induction false} PrefixLength(k: KernelState, n: nat)
    requires n <= 12
    ensures |Flat(Fields(k), FieldBytes, n)| == Widths(k.controller.Multirotor?, n)
  {
    if n == 0 {
    } else {
      PrefixLength(k, n - 1);
      FieldLength(k, n - 1);
    }
  }

  lemma StateLength(k: KernelState)
    ensures |StateBytes(k)| == EncodedLen(k.controller.Multirotor?)
  {
    var b := k.controller.Multirotor?;
    PrefixLength(k, 12);
    assert Widths(b, 1) == 1;
    assert Widths(b, 2) == 2;
    assert Widths(b, 4) == 11;
    assert Widths(b, 6) == 72;
    assert Widths(b, 8) == 254;
    assert Widths(b, 10) == 1817;
  }

  // ---------- where its fields lie ----------

  lemma {:induction false} PrefixStays(fs: seq<Field>, n: nat, m: nat)
    requires n <= m <= |fs|
    ensures |Flat(fs, FieldBytes, n)| <= |Flat(fs, FieldBytes, m)|
    ensures Flat(fs, FieldBytes, m)[..|Flat(fs, FieldBytes, n)|] == Flat(fs, FieldBytes, n)
  {
    if n < m {
      PrefixStays(fs, n, m - 1);
      assert Flat(fs, FieldBytes, m)[..|Flat(fs, FieldBytes, m - 1)|] == Flat(fs, FieldBytes, m - 1);
    }
  }

  /** Field `n` lies at the widths of those before it. */
  lemma FieldLiesAt(k: KernelState, n: nat, from: nat, to: nat)
    requires n < 12 && from == Widths(k.controller.Multirotor?, n) && to == Widths(k.controller.Multirotor?, n + 1)
    ensures from <= to <= |StateBytes(k)| && StateBytes(k)[from..to] == FieldBytes(Fields(k)[n])
  {
    var fs := Fields(k);
    PrefixLength(k, n);
    PrefixLength(k, n + 1);
    PrefixStays(fs, n + 1, 12);
    assert StateBytes(k)[from..to] == StateBytes(k)[..to][from..];
    assert Flat(fs, FieldBytes, n + 1)[from..] == FieldBytes(fs[n]);
  }

  lemma Offsets(b: bool)
    ensures Widths(b, 0) == 0 && Widths(b, 1) == 1 && Widths(b, 2) == 2 && Widths(b, 3) == 10 && Widths(b, 4) == 11
    ensures Widths(b, 5) == 12 && Widths(b, 6) == 72 && Widths(b, 7) == 226 && Widths(b, 8) == 254
    ensures Widths(b, 9) == 1249 && Widths(b, 10) == 1817 && Widths(b, 11) == (if b then 1912 else 1817)
    ensures Widths(b, 12) == Widths(b, 11) + 10
  {
  }

  /** The fixed offsets of the fields, the first six. */
  lemma FrontLiesAt(k: KernelState)
    ensures var s := StateBytes(k);
      && |s| >= 72
      && s[0..1] == InitBytes(k.init) && s[1..2] == ModeBytes(k.mode) && s[2..10] == LE(k.faults, 8)
      && s[10..11] == LawBytes(k.law) && s[11..12] == CauseBytes(k.cause) && s[12..72] == ChecksBytes(k.checks)
  {
    Offsets(k.controller.Multirotor?);
    FieldLiesAt(k, 0, 0, 1);
    FieldLiesAt(k, 1, 1, 2);
    FieldLiesAt(k, 2, 2, 10);
    FieldLiesAt(k, 3, 10, 11);
    FieldLiesAt(k, 4, 11, 12);
    FieldLiesAt(k, 5, 12, 72);
  }

  /** The next four. */
  lemma MiddleLiesAt(k: KernelState)
    ensures var s := StateBytes(k);
      && |s| >= 1817
      && s[72..226] == ActuatorBytes(k.actuators) && s[226..254] == TimingBytes(k.timing)
      && s[254..1249] == EkfBytes(k.estimator) && s[1249..1817] == FallbackBytes(k.fallback)
  {
    Offsets(k.controller.Multirotor?);
    FieldLiesAt(k, 6, 72, 226);
    FieldLiesAt(k, 7, 226, 254);
    FieldLiesAt(k, 8, 254, 1249);
    FieldLiesAt(k, 9, 1249, 1817);
  }

  /** And the end: the controller's bytes are there in its build only, and the flight phase comes last. */
  lemma EndLiesAt(k: KernelState)
    ensures var s, c := StateBytes(k), if k.controller.Multirotor? then 1912 else 1817;
      && |s| == c + 10
      && (k.controller.Multirotor? ==> s[1817..1912] == MultirotorBytes(k.controller.state))
      && s[c..c + 10] == FlightBytes(k.flight)
  {
    var c := if k.controller.Multirotor? then 1912 else 1817;
    Offsets(k.controller.Multirotor?);
    StateLength(k);
    FieldLiesAt(k, 10, 1817, c);
    FieldLiesAt(k, 11, c, c + 10);
  }

  // ---------- what it distinguishes ----------

  lemma FieldsAgree(k: KernelState, l: KernelState, b: bool)
    requires Of(k, b) && Of(l, b) && StateBytes(k) == StateBytes(l)
    ensures forall i :: 0 <= i < 12 ==> FieldBytes(Fields(k)[i]) == FieldBytes(Fields(l)[i])
  {
    var f, g := Fields(k), Fields(l);
    forall i | 0 <= i < 12 ensures |FieldBytes(f[i])| == |FieldBytes(g[i])| {
      FieldLength(k, i);
      FieldLength(l, i);
    }
    FlatAligned(f, g, FieldBytes, 12);
  }

  lemma InitInjective(x: Kernel.InitState, y: Kernel.InitState)
    requires InitBytes(x) == InitBytes(y)
    ensures x == y
  {
  }

  lemma CodesInjective(k: KernelState, l: KernelState)
    requires ModeBytes(k.mode) == ModeBytes(l.mode) && LawBytes(k.law) == LawBytes(l.law)
    requires CauseBytes(k.cause) == CauseBytes(l.cause)
    ensures k.mode == l.mode && k.law == l.law && k.cause == l.cause
  {
  }

  lemma RecordsInjective(k: KernelState, l: KernelState)
    requires ActuatorBytes(k.actuators) == ActuatorBytes(l.actuators)
    requires TimingBytes(k.timing) == TimingBytes(l.timing)
    requires FallbackBytes(k.fallback) == FallbackBytes(l.fallback)
    requires FlightBytes(k.flight) == FlightBytes(l.flight)
    ensures k.actuators == l.actuators && k.timing == l.timing && k.fallback == l.fallback && k.flight == l.flight
  {
    ActuatorInjective(k.actuators, l.actuators);
    TimingInjective(k.timing, l.timing);
    FallbackInjective(k.fallback, l.fallback);
    FlightInjective(k.flight, l.flight);
  }

  lemma ControllerInjective(c: ControllerState, d: ControllerState)
    requires c.Multirotor? == d.Multirotor?
    requires FieldBytes(ControllerField(c)) == FieldBytes(ControllerField(d))
    ensures c == d
  {
    if c.Multirotor? {
      MultirotorInjective(c.state, d.state);
    }
  }

  /** The codes field by field, the first six. */
  lemma FrontAgrees(k: KernelState, l: KernelState, b: bool)
    requires Of(k, b) && Of(l, b) && StateBytes(k) == StateBytes(l)
    ensures InitBytes(k.init) == InitBytes(l.init) && ModeBytes(k.mode) == ModeBytes(l.mode)
    ensures LE(k.faults, 8) == LE(l.faults, 8) && LawBytes(k.law) == LawBytes(l.law)
    ensures CauseBytes(k.cause) == CauseBytes(l.cause) && ChecksBytes(k.checks) == ChecksBytes(l.checks)
  {
    FieldsAgree(k, l, b);
    var f, g := Fields(k), Fields(l);
    assert FieldBytes(f[0]) == FieldBytes(g[0]) && FieldBytes(f[1]) == FieldBytes(g[1]);
    assert FieldBytes(f[2]) == FieldBytes(g[2]) && FieldBytes(f[3]) == FieldBytes(g[3]);
    assert FieldBytes(f[4]) == FieldBytes(g[4]) && FieldBytes(f[5]) == FieldBytes(g[5]);
  }

  /** And the last six. */
  lemma BackAgrees(k: KernelState, l: KernelState, b: bool)
    requires Of(k, b) && Of(l, b) && StateBytes(k) == StateBytes(l)
    ensures ActuatorBytes(k.actuators) == ActuatorBytes(l.actuators) && TimingBytes(k.timing) == TimingBytes(l.timing)
    ensures EkfBytes(k.estimator) == EkfBytes(l.estimator) && FallbackBytes(k.fallback) == FallbackBytes(l.fallback)
    ensures FieldBytes(ControllerField(k.controller)) == FieldBytes(ControllerField(l.controller))
    ensures FlightBytes(k.flight) == FlightBytes(l.flight)
  {
    FieldsAgree(k, l, b);
    var f, g := Fields(k), Fields(l);
    assert FieldBytes(f[6]) == FieldBytes(g[6]) && FieldBytes(f[7]) == FieldBytes(g[7]);
    assert FieldBytes(f[8]) == FieldBytes(g[8]) && FieldBytes(f[9]) == FieldBytes(g[9]);
    assert FieldBytes(f[10]) == FieldBytes(g[10]) && FieldBytes(f[11]) == FieldBytes(g[11]);
  }

  /** A state as far as its encoding goes: all of it but the estimator's three aiding ages. */
  function Replicated(k: KernelState): KernelState { k.(estimator := WithoutAges(k.estimator)) }

  lemma StateInjective(k: KernelState, l: KernelState, b: bool)
    requires Of(k, b) && Of(l, b) && StateBytes(k) == StateBytes(l)
    ensures Replicated(k) == Replicated(l)
  {
    FrontAgrees(k, l, b);
    BackAgrees(k, l, b);
    InitInjective(k.init, l.init);
    CodesInjective(k, l);
    Words64(k.faults, l.faults);
    RecordsInjective(k, l);
    ChecksInjective(k.checks, l.checks);
    EkfEncodesAllButAges(k.estimator, l.estimator);
    ControllerInjective(k.controller, l.controller);
  }

  lemma {:induction false} SamePrefix(f: seq<Field>, g: seq<Field>, n: nat)
    requires n <= |f| == |g| && forall i :: 0 <= i < n ==> FieldBytes(f[i]) == FieldBytes(g[i])
    ensures Flat(f, FieldBytes, n) == Flat(g, FieldBytes, n)
  {
    if n == 0 {
    } else {
      SamePrefix(f, g, n - 1);
    }
  }

  lemma AgesNotEncoded(k: KernelState)
    ensures StateBytes(Replicated(k)) == StateBytes(k)
  {
    assert EkfBytes(WithoutAges(k.estimator)) == EkfBytes(k.estimator);
    SamePrefix(Fields(Replicated(k)), Fields(k), 12);
  }

  /** The contract asks that distinguishable states have distinct encodings. Exactly: two states of one build
      have equal encodings if and only if they agree on everything but the estimator's aiding ages. */
  lemma EncodingDistinguishesExactly(k: KernelState, l: KernelState, b: bool)
    requires Of(k, b) && Of(l, b)
    ensures StateBytes(k) == StateBytes(l) <==> Replicated(k) == Replicated(l)
  {
    AgesNotEncoded(k);
    AgesNotEncoded(l);
    if StateBytes(k) == StateBytes(l) {
      StateInjective(k, l, b);
    }
  }

  // ---------- the encoder ----------

  method EncodeField(buf: array<Byte>, start: nat, field: Field) returns (n: nat)
    requires start <= buf.Length
    modifies buf
    ensures Written(buf[..], old(buf[..]), start, FieldBytes(field), n)
  {
    match field {
      case Leaf(code) => n := EncodeLeaf(buf, start, code);
      case Checks(c) => n := EncodeKernelChecks(buf, start, c);
      case Actuators(a) => n := EncodeActuatorState(buf, start, a);
      case Timing(t) => n := EncodeTimingStats(buf, start, t);
      case Estimator(e) => n := EncodeEkfState(buf, start, e);
      case Fallback(b) => n := EncodeFallbackState(buf, start, b);
      case Controller(m) => n := EncodeMultirotorState(buf, start, m);
      case Flight(f) => n := EncodeFlightPhaseState(buf, start, f);
    }
  }

  /** One `step!`: a field is encoded only while there is room. */
  method Step(buf: array<Byte>, w: nat, field: Field, ghost before: seq<Byte>, ghost acc: seq<Byte>)
    returns (next: nat)
    requires Written(buf[..], before, 0, acc, w)
    modifies buf
    ensures Written(buf[..], before, 0, acc + FieldBytes(field), next)
  {
    next := w;
    if w < buf.Length {
      ghost var mid := buf[..];
      var n := EncodeField(buf, w, field);
      Nested(before, 0, acc, w, mid, buf[..], FieldBytes(field), n);
      next := w + n;
    } else {
      NoRoom(before, 0, acc, w, buf[..], FieldBytes(field));
    }
  }

  method EncodeKernelState(buf: array<Byte>, k: KernelState) returns (w: nat)
    modifies buf
    ensures Written(buf[..], old(buf[..]), 0, StateBytes(k), w)
  {
    ghost var before := buf[..];
    NothingWritten(before, 0);
    var fields := Fields(k);
    w := 0;
    for i := 0 to |fields|
      invariant Written(buf[..], before, 0, Flat(fields, FieldBytes, i), w)
    {
      w := Step(buf, w, fields[i], before, Flat(fields, FieldBytes, i));
    }
  }
}
