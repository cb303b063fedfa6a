/** The records of the kernel state and their canonical encodings (the `Replicable` implementations in
    aviate-core/src/kernel_types.rs, flight_phase.rs, mixer/replicable.rs, checks/, ekf/replicable.rs and
    control/multirotor.rs). Floats are their bit patterns. */
module Records {
  import opened Common
  import opened Bytes
  import FlightPhase

  const MAX_ACTUATORS: nat := 16
  const MAX_GROUPS: nat := 8

  type Bits = U32
  type Lanes = s: seq<Bits> | |s| == MAX_ACTUATORS witness seq(16, i => 0)
  type Counters = s: seq<U16> | |s| == MAX_GROUPS witness seq(8, i => 0)

  const NO_LANES: Lanes := seq(MAX_ACTUATORS, i => 0)

  datatype TimingStats = TimingStats(
    lastCycle: U32, maxCycle: U32, minCycle: U32, violations: U32, consecutive: U32, totalCycles: U64)

  datatype FlightPhaseState = FlightPhaseState(
    phase: FlightPhase.Phase, groundDatum: Bits, datumValid: bool, landedElapsed: Bits)

  datatype ActuatorHealth = Good | Degraded | Failed | Stuck | Unknown
  type Healths = s: seq<ActuatorHealth> | |s| == MAX_ACTUATORS witness seq(16, i => Good)

  datatype TimeSource = Internal | Gps | Ptp

  datatype ActuatorState = ActuatorState(
    health: Healths, commanded: Lanes, actual: Option<Lanes>, ticks: U64, source: TimeSource)

  datatype GroupVector = GroupVector(outputs: Lanes, mask: U16, valid: bool)
  type Groups = s: seq<GroupVector> | |s| == MAX_GROUPS
    witness seq(8, i => GroupVector(NO_LANES, 0, false))

  datatype FallbackState = FallbackState(lastGood: Groups, age: Counters, consecutive: Counters)

  datatype SampleCounts = SampleCounts(imu: U32, baro: U32, mag: U32, gnss: U32, minRequired: U32)

  datatype TransitionLimits = TransitionLimits(
    minAltitude: Bits, maxAttitudeRate: Bits, minAirspeed: Bits, maxAsymmetry: Bits)

  /** The flag sets of the three statuses are their raw bits. */
  datatype PreArmStatus = PreArmStatus(required: U32, current: U32, samples: SampleCounts)
  datatype InFlightStatus = InFlightStatus(required: U32, current: U32)
  datatype TransitionStatus = TransitionStatus(required: U32, current: U32, limits: TransitionLimits)

  datatype KernelChecks = KernelChecks(preArm: PreArmStatus, inFlight: InFlightStatus, transition: TransitionStatus)

  const STATE_DIM: nat := 15

  /** Quaternion, position, velocity, the two biases and the last gyro sample. */
  type Navigation = s: seq<Bits> | |s| == 19 witness seq(19, i => 0)
  type RowEntries = s: seq<Bits> | |s| == STATE_DIM witness seq(15, i => 0)
  const NO_ENTRIES: RowEntries := seq(STATE_DIM, i => 0)
  datatype CovarianceRow = CovarianceRow(entries: RowEntries)
  type CovarianceRows = s: seq<CovarianceRow> | |s| == STATE_DIM witness seq(15, i => CovarianceRow(NO_ENTRIES))

  datatype EkfState = EkfState(
    navigation: Navigation, covariance: CovarianceRows, initialized: bool, quatFault: bool,
    baroRef: Option<Bits>, baroRefVar: Bits,
    gnssPosAge: Bits, gnssVelAge: Bits, baroAge: Bits, imuAge: Bits, accelClip: Bits)

  datatype ControlMode = Rate | Attitude | AltitudeHold | PositionHold | VelocityControl | DeviationTracking

  datatype Topology = Position | Velocity | Vertical | DirectAttitude | ZeroThrust | Unsupported

  /** The velocity and rate loops' memories and the last velocity setpoint. */
  type LoopMemory = s: seq<Bits> | |s| == 15 witness seq(15, i => 0)
  type AxisCommand = s: seq<Bits> | |s| == 4 witness seq(4, i => 0)

  datatype MultirotorState = MultirotorState(
    loops: LoopMemory, setpointPrimed: bool, derivativePrimed: bool, ratePrimed: bool, dt: Bits,
    mode: Option<ControlMode>, topology: Option<Topology>, axes: AxisCommand, axesPrimed: bool)

  // ---------- encodings ----------

  function Word16(x: U16): (s: seq<Byte>) ensures |s| == 2 { LE(x, 2) }

  function Word32(x: U32): (s: seq<Byte>) ensures |s| == 4 { LE(x, 4) }

  function Flag(b: bool): (s: seq<Byte>) ensures |s| == 1 { [if b then 1 else 0] }

  function PhaseBytes(p: FlightPhase.Phase): (s: seq<Byte>) ensures |s| == 1 {
    match p case OnGround => [0] case Airborne => [1]
  }

  function HealthBytes(h: ActuatorHealth): (s: seq<Byte>) ensures |s| == 1 {
    match h case Good => [0] case Degraded => [1] case Failed => [2] case Stuck => [3] case Unknown => [4]
  }

  function SourceBytes(t: TimeSource): (s: seq<Byte>) ensures |s| == 1 {
    match t case Internal => [0] case Gps => [1] case Ptp => [2]
  }

  /** The codes of the first `k` elements, one after another. */
  function Flat<T>(xs: seq<T>, code: T -> seq<Byte>, k: nat): seq<Byte>
    requires k <= |xs|
  {
    if k == 0 then [] else Flat(xs, code, k - 1) + code(xs[k - 1])
  }

  lemma OneMore(k: nat, width: nat)
    requires k > 0
    ensures (k - 1) * width + width == k * width
  {
  }

  lemma {:induction false} FlatLength<T(!new)>(xs: seq<T>, code: T -> seq<Byte>, width: nat, k: nat)
    requires k <= |xs| && forall x :: |code(x)| == width
    ensures |Flat(xs, code, k)| == k * width
  {
    if k == 0 {
    } else {
      FlatLength(xs, code, width, k - 1);
      OneMore(k, width);
    }
  }

  ghost predicate FixedCode<T(!new)>(code: T -> seq<Byte>, width: nat) {
    && (forall x :: |code(x)| == width)
    && forall x, y :: code(x) == code(y) ==> x == y
  }

  lemma {:induction false} FlatInjective<T(!new)>(xs: seq<T>, ys: seq<T>, code: T -> seq<Byte>, width: nat, k: nat)
    requires FixedCode(code, width) && k <= |xs| == |ys| && Flat(xs, code, k) == Flat(ys, code, k)
    ensures xs[..k] == ys[..k]
  {
    if k == 0 {
    } else {
      FlatLength(xs, code, width, k - 1);
      FlatLength(ys, code, width, k - 1);
      Split(Flat(xs, code, k - 1), code(xs[k - 1]), Flat(ys, code, k - 1), code(ys[k - 1]));
      FlatInjective(xs, ys, code, width, k - 1);
      assert xs[..k] == xs[..k - 1] + [xs[k - 1]];
      assert ys[..k] == ys[..k - 1] + [ys[k - 1]];
    }
  }

  lemma {:induction false} FlatAligned<T>(xs: seq<T>, ys: seq<T>, code: T -> seq<Byte>, k: nat)
    requires k <= |xs| == |ys| && Flat(xs, code, k) == Flat(ys, code, k)
    requires forall i :: 0 <= i < k ==> |code(xs[i])| == |code(ys[i])|
    ensures forall i :: 0 <= i < k ==> code(xs[i]) == code(ys[i])
  {
    if k == 0 {
    } else {
      FlatSameLength(xs, ys, code, k - 1);
      Split(Flat(xs, code, k - 1), code(xs[k - 1]), Flat(ys, code, k - 1), code(ys[k - 1]));
      FlatAligned(xs, ys, code, k - 1);
    }
  }

  lemma {:induction false} FlatSameLength<T>(xs: seq<T>, ys: seq<T>, code: T -> seq<Byte>, k: nat)
    requires k <= |xs| == |ys|
    requires forall i :: 0 <= i < k ==> |code(xs[i])| == |code(ys[i])|
    ensures |Flat(xs, code, k)| == |Flat(ys, code, k)|
  {
    if k == 0 {
    } else {
      FlatSameLength(xs, ys, code, k - 1);
    }
  }

  function All<T>(xs: seq<T>, code: T -> seq<Byte>): seq<Byte> { Flat(xs, code, |xs|) }

  lemma AllInjective<T(!new)>(xs: seq<T>, ys: seq<T>, code: T -> seq<Byte>, width: nat)
    requires FixedCode(code, width) && |xs| == |ys| && All(xs, code) == All(ys, code)
    ensures xs == ys
  {
    FlatInjective(xs, ys, code, width, |xs|);
    assert xs == xs[..|xs|] && ys == ys[..|ys|];
  }

  lemma AllLength<T(!new)>(xs: seq<T>, code: T -> seq<Byte>, width: nat)
    requires FixedCode(code, width)
    ensures |All(xs, code)| == |xs| * width
  {
    FlatLength(xs, code, width, |xs|);
  }

  lemma Word32Fixed()
    ensures FixedCode(Word32, 4)
  {
    forall x, y | Word32(x) == Word32(y) ensures x == y { Words32(x, y); }
  }

  lemma Word16Fixed()
    ensures FixedCode(Word16, 2)
  {
    forall x, y | Word16(x) == Word16(y) ensures x == y { Words16(x, y); }
  }

  lemma HealthFixed()
    ensures FixedCode(HealthBytes, 1)
  {
  }

  // ---------- encodings of the records: field after field ----------

  function TimingBytes(t: TimingStats): (s: seq<Byte>)
    ensures |s| == 28
  {
    Word32(t.lastCycle) + Word32(t.maxCycle) + Word32(t.minCycle) + Word32(t.violations) + Word32(t.consecutive)
    + LE(t.totalCycles, 8)
  }

  function FlightBytes(f: FlightPhaseState): (s: seq<Byte>)
    ensures |s| == 10
  {
    PhaseBytes(f.phase) + Word32(f.groundDatum) + Flag(f.datumValid) + Word32(f.landedElapsed)
  }

  /** A missing feedback block is encoded as a zero tag and sixteen zero lanes. */
  function FeedbackBytes(actual: Option<Lanes>): seq<Byte> {
    match actual
    case Some(lanes) => [1] + All(lanes, Word32)
    case None => [0] + All(NO_LANES, Word32)
  }

  function ActuatorBytes(a: ActuatorState): seq<Byte> {
    All(a.health, HealthBytes) + All(a.commanded, Word32) + FeedbackBytes(a.actual) + LE(a.ticks, 8)
    + SourceBytes(a.source)
  }

  function GroupBytes(g: GroupVector): seq<Byte> { All(g.outputs, Word32) + Word16(g.mask) + Flag(g.valid) }

  function FallbackBytes(f: FallbackState): seq<Byte> {
    All(f.lastGood, GroupBytes) + All(f.age, Word16) + All(f.consecutive, Word16)
  }

  function SampleWords(c: SampleCounts): seq<U32> { [c.imu, c.baro, c.mag, c.gnss, c.minRequired] }

  function LimitWords(l: TransitionLimits): seq<Bits> {
    [l.minAltitude, l.maxAttitudeRate, l.minAirspeed, l.maxAsymmetry]
  }

  function PreArmWords(p: PreArmStatus): seq<U32> { [p.required] + [p.current] + SampleWords(p.samples) }

  function InFlightWords(f: InFlightStatus): seq<U32> { [f.required] + [f.current] }

  function TransitionWords(t: TransitionStatus): seq<U32> { [t.required] + [t.current] + LimitWords(t.limits) }

  function CheckWords(c: KernelChecks): seq<U32> {
    PreArmWords(c.preArm) + InFlightWords(c.inFlight) + TransitionWords(c.transition)
  }

  function Words(ws: seq<U32>): seq<Byte> { All(ws, Word32) }

  function ChecksBytes(c: KernelChecks): seq<Byte> { Words(CheckWords(c)) }

  function RowBytes(row: CovarianceRow): seq<Byte> { Words(row.entries) }

  /** Everything but the three aiding ages. */
  function EkfBytes(e: EkfState): seq<Byte> {
    Words(e.navigation) + All(e.covariance, RowBytes) + Flag(e.initialized) + Flag(e.quatFault)
    + Flag(e.baroRef.Some?) + Word32(if e.baroRef.Some? then e.baroRef.value else 0)
    + Word32(e.baroRefVar) + Word32(e.imuAge) + Word32(e.accelClip)
  }

  const ONE: Bits := 0x3F80_0000

  /** A flag as 1.0 or 0.0. */
  function Lane(b: bool): Bits { if b then ONE else 0 }

  function ModeTag(m: Option<ControlMode>): (s: seq<Byte>) ensures |s| == 1 {
    match m
    case None => [0]
    case Some(Attitude) => [1] case Some(AltitudeHold) => [2] case Some(PositionHold) => [3]
    case Some(VelocityControl) => [4] case Some(Rate) => [5] case Some(DeviationTracking) => [6]
  }

  function TopologyTag(t: Option<Topology>): (s: seq<Byte>) ensures |s| == 1 {
    match t
    case None => [0]
    case Some(DirectAttitude) => [1] case Some(Vertical) => [2] case Some(Velocity) => [3]
    case Some(Position) => [4] case Some(ZeroThrust) => [5] case Some(Unsupported) => [6]
  }

  function MultirotorLanes(m: MultirotorState): seq<Bits> {
    m.loops + [Lane(m.setpointPrimed), Lane(m.derivativePrimed), Lane(m.ratePrimed), m.dt]
  }

  function MultirotorBytes(m: MultirotorState): seq<Byte> {
    Words(MultirotorLanes(m)) + ModeTag(m.mode) + TopologyTag(m.topology) + Words(m.axes) + Flag(m.axesPrimed)
  }

  // ---------- distinct states have distinct encodings ----------

  lemma TimingInjective(t: TimingStats, u: TimingStats)
    requires TimingBytes(t) == TimingBytes(u)
    ensures t == u
  {
    var a0, b0 := Word32(t.lastCycle), Word32(u.lastCycle);
    var a1, b1 := a0 + Word32(t.maxCycle), b0 + Word32(u.maxCycle);
    var a2, b2 := a1 + Word32(t.minCycle), b1 + Word32(u.minCycle);
    var a3, b3 := a2 + Word32(t.violations), b2 + Word32(u.violations);
    var a4, b4 := a3 + Word32(t.consecutive), b3 + Word32(u.consecutive);
    Split(a4, LE(t.totalCycles, 8), b4, LE(u.totalCycles, 8));
    Split(a3, Word32(t.consecutive), b3, Word32(u.consecutive));
    Split(a2, Word32(t.violations), b2, Word32(u.violations));
    Split(a1, Word32(t.minCycle), b1, Word32(u.minCycle));
    Split(a0, Word32(t.maxCycle), b0, Word32(u.maxCycle));
    Words64(t.totalCycles, u.totalCycles);
    Word32Fixed();
  }

  lemma FlightInjective(f: FlightPhaseState, g: FlightPhaseState)
    requires FlightBytes(f) == FlightBytes(g)
    ensures f == g
  {
    var a0, b0 := PhaseBytes(f.phase), PhaseBytes(g.phase);
    var a1, b1 := a0 + Word32(f.groundDatum), b0 + Word32(g.groundDatum);
    var a2, b2 := a1 + Flag(f.datumValid), b1 + Flag(g.datumValid);
    Split(a2, Word32(f.landedElapsed), b2, Word32(g.landedElapsed));
    Split(a1, Flag(f.datumValid), b1, Flag(g.datumValid));
    Split(a0, Word32(f.groundDatum), b0, Word32(g.groundDatum));
    Word32Fixed();
  }

  lemma FeedbackLength(actual: Option<Lanes>)
    ensures |FeedbackBytes(actual)| == 65
  {
    Word32Fixed();
    AllLength(if actual.Some? then actual.value else NO_LANES, Word32, 4);
  }

  lemma FeedbackInjective(x: Option<Lanes>, y: Option<Lanes>)
    requires FeedbackBytes(x) == FeedbackBytes(y)
    ensures x == y
  {
    assert FeedbackBytes(x)[0] == FeedbackBytes(y)[0];
    if x.Some? && y.Some? {
      Split([1], All(x.value, Word32), [1], All(y.value, Word32));
      Word32Fixed();
      AllInjective(x.value, y.value, Word32, 4);
    }
  }

  lemma ActuatorLength(a: ActuatorState)
    ensures |ActuatorBytes(a)| == 154
  {
    HealthFixed();
    Word32Fixed();
    AllLength(a.health, HealthBytes, 1);
    AllLength(a.commanded, Word32, 4);
    FeedbackLength(a.actual);
  }

  lemma ActuatorInjective(a: ActuatorState, b: ActuatorState)
    requires ActuatorBytes(a) == ActuatorBytes(b)
    ensures a == b
  {
    HealthFixed();
    Word32Fixed();
    AllLength(a.health, HealthBytes, 1);
    AllLength(b.health, HealthBytes, 1);
    AllLength(a.commanded, Word32, 4);
    AllLength(b.commanded, Word32, 4);
    FeedbackLength(a.actual);
    FeedbackLength(b.actual);
    var a0, b0 := All(a.health, HealthBytes), All(b.health, HealthBytes);
    var a1, b1 := a0 + All(a.commanded, Word32), b0 + All(b.commanded, Word32);
    var a2, b2 := a1 + FeedbackBytes(a.actual), b1 + FeedbackBytes(b.actual);
    var a3, b3 := a2 + LE(a.ticks, 8), b2 + LE(b.ticks, 8);
    Split(a3, SourceBytes(a.source), b3, SourceBytes(b.source));
    Split(a2, LE(a.ticks, 8), b2, LE(b.ticks, 8));
    Split(a1, FeedbackBytes(a.actual), b1, FeedbackBytes(b.actual));
    Split(a0, All(a.commanded, Word32), b0, All(b.commanded, Word32));
    AllInjective(a.health, b.health, HealthBytes, 1);
    AllInjective(a.commanded, b.commanded, Word32, 4);
    FeedbackInjective(a.actual, b.actual);
    Words64(a.ticks, b.ticks);
  }

  lemma GroupFixed()
    ensures FixedCode(GroupBytes, 67)
  {
    Word32Fixed();
    forall g ensures |GroupBytes(g)| == 67 {
      AllLength(g.outputs, Word32, 4);
    }
    forall g, h | GroupBytes(g) == GroupBytes(h) ensures g == h {
      AllLength(g.outputs, Word32, 4);
      AllLength(h.outputs, Word32, 4);
      var a0, b0 := All(g.outputs, Word32), All(h.outputs, Word32);
      Split(a0 + Word16(g.mask), Flag(g.valid), b0 + Word16(h.mask), Flag(h.valid));
      Split(a0, Word16(g.mask), b0, Word16(h.mask));
      AllInjective(g.outputs, h.outputs, Word32, 4);
      Word16Fixed();
    }
  }

  lemma FallbackLength(f: FallbackState)
    ensures |FallbackBytes(f)| == 568
  {
    GroupFixed();
    Word16Fixed();
    AllLength(f.lastGood, GroupBytes, 67);
    AllLength(f.age, Word16, 2);
    AllLength(f.consecutive, Word16, 2);
  }

  lemma FallbackInjective(f: FallbackState, g: FallbackState)
    requires FallbackBytes(f) == FallbackBytes(g)
    ensures f == g
  {
    GroupFixed();
    Word16Fixed();
    AllLength(f.lastGood, GroupBytes, 67);
    AllLength(g.lastGood, GroupBytes, 67);
    AllLength(f.age, Word16, 2);
    AllLength(g.age, Word16, 2);
    var a0, b0 := All(f.lastGood, GroupBytes), All(g.lastGood, GroupBytes);
    Split(a0 + All(f.age, Word16), All(f.consecutive, Word16), b0 + All(g.age, Word16), All(g.consecutive, Word16));
    Split(a0, All(f.age, Word16), b0, All(g.age, Word16));
    AllInjective(f.lastGood, g.lastGood, GroupBytes, 67);
    AllInjective(f.age, g.age, Word16, 2);
    AllInjective(f.consecutive, g.consecutive, Word16, 2);
  }

  lemma WordsLength(ws: seq<U32>)
    ensures |Words(ws)| == 4 * |ws|
  {
    Word32Fixed();
    AllLength(ws, Word32, 4);
  }

  lemma WordsInjective(ws: seq<U32>, vs: seq<U32>)
    requires |ws| == |vs| && Words(ws) == Words(vs)
    ensures ws == vs
  {
    Word32Fixed();
    AllInjective(ws, vs, Word32, 4);
  }

  lemma ChecksLength(c: KernelChecks)
    ensures |ChecksBytes(c)| == 60
  {
    WordsLength(CheckWords(c));
  }

  lemma ChecksInjective(c: KernelChecks, d: KernelChecks)
    requires ChecksBytes(c) == ChecksBytes(d)
    ensures c == d
  {
    var v, w := CheckWords(c), CheckWords(d);
    WordsInjective(v, w);
    assert v[0] == w[0] && v[1] == w[1] && v[2] == w[2] && v[3] == w[3] && v[4] == w[4];
    assert v[5] == w[5] && v[6] == w[6] && v[7] == w[7] && v[8] == w[8] && v[9] == w[9];
    assert v[10] == w[10] && v[11] == w[11] && v[12] == w[12] && v[13] == w[13] && v[14] == w[14];
  }

  lemma RowFixed()
    ensures FixedCode(RowBytes, 60)
  {
    forall r ensures |RowBytes(r)| == 60 { WordsLength(r.entries); }
    forall r, t | RowBytes(r) == RowBytes(t) ensures r == t { WordsInjective(r.entries, t.entries); }
  }

  lemma EkfLength(e: EkfState)
    ensures |EkfBytes(e)| == 995
  {
    WordsLength(e.navigation);
    RowFixed();
    AllLength(e.covariance, RowBytes, 60);
  }

  /** The estimator's state as far as its encoding goes: the aiding ages are not in it. */
  function WithoutAges(e: EkfState): EkfState { e.(gnssPosAge := 0, gnssVelAge := 0, baroAge := 0) }

  /** Two estimator states have equal encodings exactly when they agree on everything but the aiding ages. */
  lemma EkfEncodesAllButAges(e: EkfState, f: EkfState)
    ensures EkfBytes(e) == EkfBytes(f) <==> WithoutAges(e) == WithoutAges(f)
  {
    assert EkfBytes(WithoutAges(e)) == EkfBytes(e) && EkfBytes(WithoutAges(f)) == EkfBytes(f);
    if EkfBytes(e) == EkfBytes(f) {
      EkfInjective(e, f);
    }
  }

  lemma EkfInjective(e: EkfState, f: EkfState)
    requires EkfBytes(e) == EkfBytes(f)
    ensures WithoutAges(e) == WithoutAges(f)
  {
    WordsLength(e.navigation);
    WordsLength(f.navigation);
    RowFixed();
    AllLength(e.covariance, RowBytes, 60);
    AllLength(f.covariance, RowBytes, 60);
    var x, y := if e.baroRef.Some? then e.baroRef.value else 0, if f.baroRef.Some? then f.baroRef.value else 0;
    var a0, b0 := Words(e.navigation), Words(f.navigation);
    var a1, b1 := a0 + All(e.covariance, RowBytes), b0 + All(f.covariance, RowBytes);
    var a2, b2 := a1 + Flag(e.initialized), b1 + Flag(f.initialized);
    var a3, b3 := a2 + Flag(e.quatFault), b2 + Flag(f.quatFault);
    var a4, b4 := a3 + Flag(e.baroRef.Some?), b3 + Flag(f.baroRef.Some?);
    var a5, b5 := a4 + Word32(x), b4 + Word32(y);
    var a6, b6 := a5 + Word32(e.baroRefVar), b5 + Word32(f.baroRefVar);
    var a7, b7 := a6 + Word32(e.imuAge), b6 + Word32(f.imuAge);
    Split(a7, Word32(e.accelClip), b7, Word32(f.accelClip));
    Split(a6, Word32(e.imuAge), b6, Word32(f.imuAge));
    Split(a5, Word32(e.baroRefVar), b5, Word32(f.baroRefVar));
    Split(a4, Word32(x), b4, Word32(y));
    Split(a3, Flag(e.baroRef.Some?), b3, Flag(f.baroRef.Some?));
    Split(a2, Flag(e.quatFault), b2, Flag(f.quatFault));
    Split(a1, Flag(e.initialized), b1, Flag(f.initialized));
    Split(a0, All(e.covariance, RowBytes), b0, All(f.covariance, RowBytes));
    WordsInjective(e.navigation, f.navigation);
    AllInjective(e.covariance, f.covariance, RowBytes, 60);
    Word32Fixed();
  }

  lemma MultirotorLength(m: MultirotorState)
    ensures |MultirotorBytes(m)| == 95
  {
    WordsLength(MultirotorLanes(m));
    WordsLength(m.axes);
  }

  lemma TagsInjective(m: MultirotorState, n: MultirotorState)
    requires ModeTag(m.mode) == ModeTag(n.mode) && TopologyTag(m.topology) == TopologyTag(n.topology)
    ensures m.mode == n.mode && m.topology == n.topology
  {
  }

  lemma LanesInjective(m: MultirotorState, n: MultirotorState)
    requires MultirotorLanes(m) == MultirotorLanes(n)
    ensures m.loops == n.loops && m.setpointPrimed == n.setpointPrimed
    ensures m.derivativePrimed == n.derivativePrimed && m.ratePrimed == n.ratePrimed && m.dt == n.dt
  {
    var v, w := MultirotorLanes(m), MultirotorLanes(n);
    assert m.loops == v[..15] && n.loops == w[..15];
    assert v[15] == w[15] && v[16] == w[16] && v[17] == w[17] && v[18] == w[18];
  }

  lemma MultirotorInjective(m: MultirotorState, n: MultirotorState)
    requires MultirotorBytes(m) == MultirotorBytes(n)
    ensures m == n
  {
    WordsLength(MultirotorLanes(m));
    WordsLength(MultirotorLanes(n));
    WordsLength(m.axes);
    WordsLength(n.axes);
    var a0, b0 := Words(MultirotorLanes(m)), Words(MultirotorLanes(n));
    var a1, b1 := a0 + ModeTag(m.mode), b0 + ModeTag(n.mode);
    var a2, b2 := a1 + TopologyTag(m.topology), b1 + TopologyTag(n.topology);
    var a3, b3 := a2 + Words(m.axes), b2 + Words(n.axes);
    Split(a3, Flag(m.axesPrimed), b3, Flag(n.axesPrimed));
    Split(a2, Words(m.axes), b2, Words(n.axes));
    Split(a1, TopologyTag(m.topology), b1, TopologyTag(n.topology));
    Split(a0, ModeTag(m.mode), b0, ModeTag(n.mode));
    WordsInjective(MultirotorLanes(m), MultirotorLanes(n));
    WordsInjective(m.axes, n.axes);
    LanesInjective(m, n);
    TagsInjective(m, n);
  }

  // ---------- the encoders ----------

  /** A nested encoder's writing joins the enclosing one's. */
  lemma Nested(before: seq<Byte>, start: nat, acc: seq<Byte>, w: nat, mid: seq<Byte>, now: seq<Byte>,
               code: seq<Byte>, n: nat)
    requires Written(mid, before, start, acc, w) && Written(now, mid, start + w, code, n)
    ensures Written(now, before, start, acc + code, w + n)
  {
    OverlayChain(before, start, acc, code);
  }

  /** A skipped step is a step for which no room is left. */
  lemma NoRoom(before: seq<Byte>, start: nat, acc: seq<Byte>, w: nat, mid: seq<Byte>, code: seq<Byte>)
    requires Written(mid, before, start, acc, w) && start + w >= |before|
    ensures Written(mid, before, start, acc + code, w)
  {
    Nested(before, start, acc, w, mid, mid, code, 0);
  }

  method PutLanes(buf: array<Byte>, start: nat, w: nat, xs: seq<Bits>, ghost before: seq<Byte>, ghost acc: seq<Byte>)
    returns (next: nat)
    requires Written(buf[..], before, start, acc, w)
    modifies buf
    ensures Written(buf[..], before, start, acc + All(xs, Word32), next)
  {
    next := w;
    assert acc + [] == acc;
    for k := 0 to |xs|
      invariant Written(buf[..], before, start, acc + Flat(xs, Word32, k), next)
    {
      next := Put(buf, start, next, Word32(xs[k]), before, acc + Flat(xs, Word32, k));
      assert acc + Flat(xs, Word32, k) + Word32(xs[k]) == acc + Flat(xs, Word32, k + 1);
    }
  }

  method PutCounters(buf: array<Byte>, start: nat, w: nat, xs: seq<U16>, ghost before: seq<Byte>, ghost acc: seq<Byte>)
    returns (next: nat)
    requires Written(buf[..], before, start, acc, w)
    modifies buf
    ensures Written(buf[..], before, start, acc + All(xs, Word16), next)
  {
    next := w;
    assert acc + [] == acc;
    for k := 0 to |xs|
      invariant Written(buf[..], before, start, acc + Flat(xs, Word16, k), next)
    {
      next := Put(buf, start, next, Word16(xs[k]), before, acc + Flat(xs, Word16, k));
      assert acc + Flat(xs, Word16, k) + Word16(xs[k]) == acc + Flat(xs, Word16, k + 1);
    }
  }

  /** The one-field encoders: a single copy at offset zero. */
  method EncodeLeaf(buf: array<Byte>, start: nat, code: seq<Byte>) returns (w: nat)
    requires start <= buf.Length
    modifies buf
    ensures Written(buf[..], old(buf[..]), start, code, w)
  {
    w := CopyInto(buf, start, 0, code);
  }

  method EncodeTimingStats(buf: array<Byte>, start: nat, t: TimingStats) returns (w: nat)
    requires start <= buf.Length
    modifies buf
    ensures Written(buf[..], old(buf[..]), start, TimingBytes(t), w)
  {
    ghost var before, acc := buf[..], Word32(t.lastCycle);
    w := CopyInto(buf, start, 0, Word32(t.lastCycle));
    w := Put(buf, start, w, Word32(t.maxCycle), before, acc);
    acc := acc + Word32(t.maxCycle);
    w := Put(buf, start, w, Word32(t.minCycle), before, acc);
    acc := acc + Word32(t.minCycle);
    w := Put(buf, start, w, Word32(t.violations), before, acc);
    acc := acc + Word32(t.violations);
    w := Put(buf, start, w, Word32(t.consecutive), before, acc);
    acc := acc + Word32(t.consecutive);
    w := Put(buf, start, w, LE(t.totalCycles, 8), before, acc);
  }

  method EncodeFlightPhaseState(buf: array<Byte>, start: nat, f: FlightPhaseState) returns (w: nat)
    requires start <= buf.Length
    modifies buf
    ensures Written(buf[..], old(buf[..]), start, FlightBytes(f), w)
  {
    ghost var before, acc := buf[..], PhaseBytes(f.phase);
    w := EncodeLeaf(buf, start, PhaseBytes(f.phase));
    w := Put(buf, start, w, Word32(f.groundDatum), before, acc);
    acc := acc + Word32(f.groundDatum);
    w := Put(buf, start, w, Flag(f.datumValid), before, acc);
    acc := acc + Flag(f.datumValid);
    w := Put(buf, start, w, Word32(f.landedElapsed), before, acc);
  }

  method EncodeGroupVector(buf: array<Byte>, start: nat, g: GroupVector) returns (w: nat)
    requires start <= buf.Length
    modifies buf
    ensures Written(buf[..], old(buf[..]), start, GroupBytes(g), w)
  {
    ghost var before := buf[..];
    NothingWritten(before, start);
    w := PutLanes(buf, start, 0, g.outputs, before, []);
    assert [] + All(g.outputs, Word32) == All(g.outputs, Word32);
    w := Put(buf, start, w, Word16(g.mask), before, All(g.outputs, Word32));
    w := Put(buf, start, w, Flag(g.valid), before, All(g.outputs, Word32) + Word16(g.mask));
  }

  /** One channel: `off = w.min(buf.len())`, then the encoder on `&mut buf[off..]`. */
  method PutHealth(buf: array<Byte>, start: nat, w: nat, h: ActuatorHealth, ghost before: seq<Byte>,
                   ghost acc: seq<Byte>)
    returns (next: nat)
    requires Written(buf[..], before, start, acc, w)
    modifies buf
    ensures Written(buf[..], before, start, acc + HealthBytes(h), next)
  {
    ghost var mid := buf[..];
    var off := Min(w, buf.Length - start);
    var code := HealthBytes(h);
    var n := EncodeLeaf(buf, start + off, code);
    Nested(before, start, acc, w, mid, buf[..], code, n);
    next := w + n;
  }

  method PutHealths(buf: array<Byte>, start: nat, hs: Healths) returns (w: nat)
    requires start <= buf.Length
    modifies buf
    ensures Written(buf[..], old(buf[..]), start, All(hs, HealthBytes), w)
  {
    ghost var before := buf[..];
    NothingWritten(before, start);
    w := 0;
    for k := 0 to MAX_ACTUATORS
      invariant Written(buf[..], before, start, Flat(hs, HealthBytes, k), w)
    {
      w := PutHealth(buf, start, w, hs[k], before, Flat(hs, HealthBytes, k));
    }
  }

  method PutFeedback(buf: array<Byte>, start: nat, w: nat, actual: Option<Lanes>, ghost before: seq<Byte>,
                     ghost acc: seq<Byte>)
    returns (next: nat)
    requires Written(buf[..], before, start, acc, w)
    modifies buf
    ensures Written(buf[..], before, start, acc + FeedbackBytes(actual), next)
  {
    match actual {
      case Some(lanes) =>
        next := Put(buf, start, w, [1], before, acc);
        next := PutLanes(buf, start, next, lanes, before, acc + [1]);
        assert acc + [1] + All(lanes, Word32) == acc + FeedbackBytes(actual);
      case None =>
        next := Put(buf, start, w, [0], before, acc);
        next := PutLanes(buf, start, next, NO_LANES, before, acc + [0]);
        assert acc + [0] + All(NO_LANES, Word32) == acc + FeedbackBytes(actual);
    }
  }

  method EncodeActuatorState(buf: array<Byte>, start: nat, a: ActuatorState) returns (w: nat)
    requires start <= buf.Length
    modifies buf
    ensures Written(buf[..], old(buf[..]), start, ActuatorBytes(a), w)
  {
    ghost var before, acc := buf[..], All(a.health, HealthBytes);
    w := PutHealths(buf, start, a.health);
    w := PutLanes(buf, start, w, a.commanded, before, acc);
    acc := acc + All(a.commanded, Word32);
    w := PutFeedback(buf, start, w, a.actual, before, acc);
    acc := acc + FeedbackBytes(a.actual);
    w := Put(buf, start, w, LE(a.ticks, 8), before, acc);
    acc := acc + LE(a.ticks, 8);
    w := Put(buf, start, w, SourceBytes(a.source), before, acc);
  }

  method EncodeFallbackState(buf: array<Byte>, start: nat, f: FallbackState) returns (w: nat)
    requires start <= buf.Length
    modifies buf
    ensures Written(buf[..], old(buf[..]), start, FallbackBytes(f), w)
  {
    ghost var before := buf[..];
    NothingWritten(before, start);
    w := 0;
    for k := 0 to MAX_GROUPS
      invariant Written(buf[..], before, start, Flat(f.lastGood, GroupBytes, k), w)
    {
      ghost var mid := buf[..];
      var off := Min(w, buf.Length - start);
      var n := EncodeGroupVector(buf, start + off, f.lastGood[k]);
      Nested(before, start, Flat(f.lastGood, GroupBytes, k), w, mid, buf[..], GroupBytes(f.lastGood[k]), n);
      w := w + n;
    }
    ghost var acc := All(f.lastGood, GroupBytes);
    w := PutCounters(buf, start, w, f.age, before, acc);
    acc := acc + All(f.age, Word16);
    w := PutCounters(buf, start, w, f.consecutive, before, acc);
  }

  // ---------- encoders of the checks ----------

  lemma {:induction false} FlatConcat<T>(xs: seq<T>, ys: seq<T>, code: T -> seq<Byte>, k: nat)
    requires k <= |ys|
    ensures Flat(xs + ys, code, |xs| + k) == All(xs, code) + Flat(ys, code, k)
  {
    if k == 0 {
      FlatPrefix(xs, ys, code, |xs|);
      assert All(xs, code) + [] == All(xs, code);
    } else {
      FlatConcat(xs, ys, code, k - 1);
      assert (xs + ys)[|xs| + k - 1] == ys[k - 1];
    }
  }

  lemma {:induction false} FlatPrefix<T>(xs: seq<T>, ys: seq<T>, code: T -> seq<Byte>, k: nat)
    requires k <= |xs|
    ensures Flat(xs + ys, code, k) == Flat(xs, code, k)
  {
    if k == 0 {
    } else {
      FlatPrefix(xs, ys, code, k - 1);
    }
  }

  lemma WordsConcat(ws: seq<U32>, vs: seq<U32>)
    ensures Words(ws + vs) == Words(ws) + Words(vs)
  {
    FlatConcat(ws, vs, Word32, |vs|);
  }

  /** One `copy_into` per word. */
  method EncodeWords(buf: array<Byte>, start: nat, ws: seq<U32>) returns (w: nat)
    requires start <= buf.Length
    modifies buf
    ensures Written(buf[..], old(buf[..]), start, Words(ws), w)
  {
    NothingWritten(buf[..], start);
    w := PutLanes(buf, start, 0, ws, buf[..], []);
    assert [] + Words(ws) == Words(ws);
  }

  /** A nested encoder of words that is called only while there is room. */
  method GuardedWords(buf: array<Byte>, start: nat, w: nat, ws: seq<U32>, ghost before: seq<Byte>, ghost done: seq<U32>)
    returns (next: nat)
    requires Written(buf[..], before, start, Words(done), w)
    modifies buf
    ensures Written(buf[..], before, start, Words(done + ws), next)
  {
    WordsConcat(done, ws);
    next := w;
    if w < buf.Length - start {
      ghost var mid := buf[..];
      var n := EncodeWords(buf, start + w, ws);
      Nested(before, start, Words(done), w, mid, buf[..], Words(ws), n);
      next := w + n;
    } else {
      NoRoom(before, start, Words(done), w, buf[..], Words(ws));
    }
  }

  method EncodePreArm(buf: array<Byte>, start: nat, p: PreArmStatus) returns (w: nat)
    requires start <= buf.Length
    modifies buf
    ensures Written(buf[..], old(buf[..]), start, Words(PreArmWords(p)), w)
  {
    ghost var before := buf[..];
    w := EncodeWords(buf, start, [p.required]);
    w := GuardedWords(buf, start, w, [p.current], before, [p.required]);
    w := GuardedWords(buf, start, w, SampleWords(p.samples), before, [p.required] + [p.current]);
  }

  method EncodeInFlight(buf: array<Byte>, start: nat, f: InFlightStatus) returns (w: nat)
    requires start <= buf.Length
    modifies buf
    ensures Written(buf[..], old(buf[..]), start, Words(InFlightWords(f)), w)
  {
    ghost var before := buf[..];
    w := EncodeWords(buf, start, [f.required]);
    w := GuardedWords(buf, start, w, [f.current], before, [f.required]);
  }

  method EncodeTransition(buf: array<Byte>, start: nat, t: TransitionStatus) returns (w: nat)
    requires start <= buf.Length
    modifies buf
    ensures Written(buf[..], old(buf[..]), start, Words(TransitionWords(t)), w)
  {
    ghost var before := buf[..];
    w := EncodeWords(buf, start, [t.required]);
    w := GuardedWords(buf, start, w, [t.current], before, [t.required]);
    w := GuardedWords(buf, start, w, LimitWords(t.limits), before, [t.required] + [t.current]);
  }

  /** The two further fields of the checks, each encoded only while there is room. */
  method StepInFlight(buf: array<Byte>, start: nat, w: nat, f: InFlightStatus, ghost before: seq<Byte>,
                      ghost done: seq<U32>)
    returns (next: nat)
    requires Written(buf[..], before, start, Words(done), w)
    modifies buf
    ensures Written(buf[..], before, start, Words(done + InFlightWords(f)), next)
  {
    ghost var ws := InFlightWords(f);
    WordsConcat(done, ws);
    next := w;
    if w < buf.Length - start {
      ghost var mid := buf[..];
      var n := EncodeInFlight(buf, start + w, f);
      Nested(before, start, Words(done), w, mid, buf[..], Words(ws), n);
      next := w + n;
    } else {
      NoRoom(before, start, Words(done), w, buf[..], Words(ws));
    }
  }

  method StepTransition(buf: array<Byte>, start: nat, w: nat, t: TransitionStatus, ghost before: seq<Byte>,
                        ghost done: seq<U32>)
    returns (next: nat)
    requires Written(buf[..], before, start, Words(done), w)
    modifies buf
    ensures Written(buf[..], before, start, Words(done + TransitionWords(t)), next)
  {
    ghost var ws := TransitionWords(t);
    WordsConcat(done, ws);
    next := w;
    if w < buf.Length - start {
      ghost var mid := buf[..];
      var n := EncodeTransition(buf, start + w, t);
      Nested(before, start, Words(done), w, mid, buf[..], Words(ws), n);
      next := w + n;
    } else {
      NoRoom(before, start, Words(done), w, buf[..], Words(ws));
    }
  }

  method EncodeKernelChecks(buf: array<Byte>, start: nat, c: KernelChecks) returns (w: nat)
    requires start <= buf.Length
    modifies buf
    ensures Written(buf[..], old(buf[..]), start, ChecksBytes(c), w)
  {
    ghost var before, done := buf[..], PreArmWords(c.preArm);
    w := EncodePreArm(buf, start, c.preArm);
    w := StepInFlight(buf, start, w, c.inFlight, before, done);
    w := StepTransition(buf, start, w, c.transition, before, done + InFlightWords(c.inFlight));
  }

  // ---------- encoders of the estimator and the controller ----------

  lemma FlatSnoc<T>(acc: seq<Byte>, xs: seq<T>, code: T -> seq<Byte>, k: nat)
    requires k < |xs|
    ensures acc + Flat(xs, code, k) + code(xs[k]) == acc + Flat(xs, code, k + 1)
  {
  }

  /** The covariance, row by row. */
  method PutRows(buf: array<Byte>, start: nat, w: nat, rows: CovarianceRows, ghost before: seq<Byte>,
                 ghost acc: seq<Byte>)
    returns (next: nat)
    requires Written(buf[..], before, start, acc, w)
    modifies buf
    ensures Written(buf[..], before, start, acc + All(rows, RowBytes), next)
  {
    next := w;
    assert acc + [] == acc;
    for k := 0 to STATE_DIM
      invariant Written(buf[..], before, start, acc + Flat(rows, RowBytes, k), next)
    {
      FlatSnoc(acc, rows, RowBytes, k);
      next := PutLanes(buf, start, next, rows[k].entries, before, acc + Flat(rows, RowBytes, k));
    }
  }

  method EncodeEkfState(buf: array<Byte>, start: nat, e: EkfState) returns (w: nat)
    requires start <= buf.Length
    modifies buf
    ensures Written(buf[..], old(buf[..]), start, EkfBytes(e), w)
  {
    ghost var before, acc := buf[..], Words(e.navigation);
    w := EncodeWords(buf, start, e.navigation);
    w := PutRows(buf, start, w, e.covariance, before, acc);
    acc := acc + All(e.covariance, RowBytes);
    w := Put(buf, start, w, Flag(e.initialized), before, acc);
    acc := acc + Flag(e.initialized);
    w := Put(buf, start, w, Flag(e.quatFault), before, acc);
    acc := acc + Flag(e.quatFault);
    var baroRef := if e.baroRef.Some? then e.baroRef.value else 0;
    w := Put(buf, start, w, Flag(e.baroRef.Some?), before, acc);
    acc := acc + Flag(e.baroRef.Some?);
    w := Put(buf, start, w, Word32(baroRef), before, acc);
    acc := acc + Word32(baroRef);
    w := Put(buf, start, w, Word32(e.baroRefVar), before, acc);
    acc := acc + Word32(e.baroRefVar);
    w := Put(buf, start, w, Word32(e.imuAge), before, acc);
    acc := acc + Word32(e.imuAge);
    w := Put(buf, start, w, Word32(e.accelClip), before, acc);
  }

  method EncodeMultirotorState(buf: array<Byte>, start: nat, m: MultirotorState) returns (w: nat)
    requires start <= buf.Length
    modifies buf
    ensures Written(buf[..], old(buf[..]), start, MultirotorBytes(m), w)
  {
    ghost var before, acc := buf[..], Words(MultirotorLanes(m));
    w := EncodeWords(buf, start, MultirotorLanes(m));
    w := Put(buf, start, w, ModeTag(m.mode), before, acc);
    acc := acc + ModeTag(m.mode);
    w := Put(buf, start, w, TopologyTag(m.topology), before, acc);
    acc := acc + TopologyTag(m.topology);
    w := PutLanes(buf, start, w, m.axes, before, acc);
    acc := acc + Words(m.axes);
    w := Put(buf, start, w, Flag(m.axesPrimed), before, acc);
  }
}
