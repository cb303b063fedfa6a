/** Cross-channel agreement on canonical state encodings (aviate-core/src/kernel.rs and kernel/snapshot.rs). */
module Lockstep {
  import opened Common
  import opened Bytes
  import opened Records
  import opened Replication
  import Floats
  import FlightPhase

  datatype ChannelSnapshot = ChannelSnapshot(
    channel: nat, cycle: U64, algorithm: U64, config: U64, state: seq<Byte>)

  datatype Decision =
    | Enter | RefuseHashMismatch(peer: nat) | RefuseConfigMismatch(peer: nat) | RefuseStateMismatch(peer: nat)
    | RefuseQuorum(present: nat, required: nat)

  // ---------- projections ----------

  /** What a buffer of `length` bytes holds of a state's encoding. */
  function Projected(k: KernelState, length: nat): seq<Byte> {
    StateBytes(k)[..Min(length, |StateBytes(k)|)]
  }

  method ProjectForCrossChannel(k: KernelState, channel: nat, cycle: U64, algorithm: U64, config: U64,
                                buf: array<Byte>)
    returns (s: ChannelSnapshot)
    modifies buf
    ensures s == ChannelSnapshot(channel, cycle, algorithm, config, Projected(k, buf.Length))
  {
    ghost var before := buf[..];
    var n := EncodeKernelState(buf, k);
    assert buf[..n] == StateBytes(k)[..n] by {
      forall i | 0 <= i < n ensures buf[i] == StateBytes(k)[i] {
        OverlayAt(before, 0, StateBytes(k), i);
      }
    }
    s := ChannelSnapshot(channel, cycle, algorithm, config, buf[..n]);
  }

  predicate AgreesWith(a: ChannelSnapshot, b: ChannelSnapshot) {
    a.algorithm == b.algorithm && a.config == b.config && |a.state| == |b.state| && a.state == b.state
  }

  /** Against a full projection, equal bytes mean a full buffer and equal states, up to the aiding ages. */
  lemma FullProjectionsWitness(k: KernelState, l: KernelState, b: bool, m: nat, n: nat)
    requires Of(k, b) && Of(l, b) && m >= EncodedLen(b)
    ensures Projected(k, m) == Projected(l, n) <==> n >= EncodedLen(b) && Replicated(k) == Replicated(l)
  {
    StateLength(k);
    StateLength(l);
    EncodingDistinguishesExactly(k, l, b);
    assert Projected(k, m) == StateBytes(k);
    if n >= EncodedLen(b) {
      assert Projected(l, n) == StateBytes(l);
    } else {
      assert |Projected(l, n)| < EncodedLen(b);
    }
  }

  // ---------- what even full agreement does not show ----------

  /** 5.0, the aiding timeout, and 10000.0, where the ages saturate; non-negative floats order as their bits. */
  const AIDING_TIMEOUT: Bits := 0x40A0_0000
  const AGE_SATURATION: Bits := 0x461C_4000

  /** Whether the estimator counts as aided in position, on which the validity of its position depends. */
  predicate PositionAided(e: EkfState) { e.gnssPosAge <= AIDING_TIMEOUT }

  predicate AttitudeValid(e: EkfState) { e.initialized && !e.quatFault }

  predicate IsFinite(x: Bits) { x / 0x80_0000 % 0x100 != 0xFF }

  predicate IsNaN(x: Bits) { x % 0x8000_0000 > 0x7F80_0000 }

  predicate PositionFinite(e: EkfState) { forall i :: 4 <= i < 7 ==> IsFinite(e.navigation[i]) }

  /** 50.0. */
  const POSITION_COV_BOUND: Bits := 0x4248_0000

  /** The largest position variance, found by a maximum that passes over NaN, is below the bound. */
  predicate PositionBounded(e: EkfState) {
    forall i :: 0 <= i < 3 ==>
      var v := e.covariance[i].entries[i]; IsNaN(v) || v >= 0x8000_0000 || v < POSITION_COV_BOUND
  }

  /** All that the validity of the position depends on besides its aiding; all of it is encoded. */
  predicate WellPlaced(e: EkfState) { AttitudeValid(e) && PositionFinite(e) && PositionBounded(e) }

  /** Whether the estimate's POSITION flag is set. */
  predicate PositionValid(e: EkfState) { WellPlaced(e) && PositionAided(e) }

  function AidingFlipped(k: KernelState): KernelState {
    k.(estimator := k.estimator.(gnssPosAge := if PositionAided(k.estimator) then AGE_SATURATION else 0))
  }

  /** Every state has a twin that every buffer projects alike and that disagrees on whether the position is
      aided, and so, exactly for a well-placed estimate, on whether it is valid: the aiding ages are persistent
      state that the encoding omits. */
  lemma AgreementIsBlindToAiding(k: KernelState, b: bool, m: nat)
    requires Of(k, b)
    ensures var l := AidingFlipped(k);
      && Of(l, b) && l != k && Projected(k, m) == Projected(l, m)
      && PositionAided(l.estimator) != PositionAided(k.estimator)
      && (PositionValid(l.estimator) != PositionValid(k.estimator) <==> WellPlaced(k.estimator))
  {
    EncodingDistinguishesExactly(k, AidingFlipped(k), b);
  }

  // ---------- how two channels come to disagree ----------

  /** The state as a GNSS fusion sees it: the fusion does not read the ages. */
  function Unaged(e: EkfState): EkfState { e.(gnssPosAge := 0, gnssVelAge := 0, baroAge := 0, imuAge := 0) }

  /** An accepted GNSS fix: `fuse`, whatever it computes, moves the rest of the state, and the two GNSS ages
      restart. */
  function Fixed(e: EkfState, fuse: EkfState -> EkfState): EkfState {
    fuse(Unaged(e)).(gnssPosAge := 0, gnssVelAge := 0, baroAge := e.baroAge, imuAge := e.imuAge)
  }

  /** `tick_aiding_age` in an initialized filter, where one cycle makes an age `older`. */
  function Aged(e: EkfState, older: Bits -> Bits): EkfState {
    e.(gnssPosAge := older(e.gnssPosAge), gnssVelAge := older(e.gnssVelAge), baroAge := older(e.baroAge),
       imuAge := older(e.imuAge))
  }

  /** The cycles of a channel whose primary IMU delivers no usable reading, so that nothing is predicted; `fixes`
      says in which of them a GNSS fix is fused. */
  function Observe(e: EkfState, older: Bits -> Bits, fuse: EkfState -> EkfState, fixes: seq<bool>): EkfState
    decreases |fixes|
  {
    if fixes == [] then e
    else
      var aged := Aged(e, older);
      Observe(if fixes[0] then Fixed(aged, fuse) else aged, older, fuse, fixes[1..])
  }

  function Without(n: nat): seq<bool> { if n == 0 then [] else [false] + Without(n - 1) }

  function Repeat(older: Bits -> Bits, age: Bits, n: nat): Bits
    decreases n
  {
    if n == 0 then age else Repeat(older, older(age), n - 1)
  }

  function OlderBy(e: EkfState, older: Bits -> Bits, n: nat): EkfState {
    e.(gnssPosAge := Repeat(older, e.gnssPosAge, n), gnssVelAge := Repeat(older, e.gnssVelAge, n),
       baroAge := Repeat(older, e.baroAge, n), imuAge := Repeat(older, e.imuAge, n))
  }

  lemma OlderByOneMore(e: EkfState, older: Bits -> Bits, n: nat)
    requires n > 0
    ensures OlderBy(e, older, n) == OlderBy(Aged(e, older), older, n - 1)
  {
  }

  lemma OneWithout(e: EkfState, older: Bits -> Bits, fuse: EkfState -> EkfState, more: seq<bool>)
    ensures Observe(e, older, fuse, [false] + more) == Observe(Aged(e, older), older, fuse, more)
  {
    assert ([false] + more)[1..] == more;
  }

  lemma {:induction false} ObserveWithout(
    e: EkfState, older: Bits -> Bits, fuse: EkfState -> EkfState, n: nat, more: seq<bool>)
    ensures Observe(e, older, fuse, Without(n) + more) == Observe(OlderBy(e, older, n), older, fuse, more)
    decreases n
  {
    if n == 0 {
      assert Without(n) + more == more;
    } else {
      assert Without(n) + more == [false] + (Without(n - 1) + more);
      OneWithout(e, older, fuse, Without(n - 1) + more);
      ObserveWithout(Aged(e, older), older, fuse, n - 1, more);
      OlderByOneMore(e, older, n);
    }
  }

  lemma {:induction false} RepeatLast(older: Bits -> Bits, age: Bits, n: nat)
    ensures older(Repeat(older, age, n)) == Repeat(older, older(age), n)
    decreases n
  {
    if n == 0 {
    } else {
      RepeatLast(older, older(age), n - 1);
    }
  }

  function Early(e: EkfState, older: Bits -> Bits, fuse: EkfState -> EkfState, n: nat): EkfState {
    Observe(e, older, fuse, [true] + Without(n))
  }

  function Late(e: EkfState, older: Bits -> Bits, fuse: EkfState -> EkfState, n: nat): EkfState {
    Observe(e, older, fuse, Without(n) + [true])
  }

  lemma EarlyIs(e: EkfState, older: Bits -> Bits, fuse: EkfState -> EkfState, n: nat)
    ensures Early(e, older, fuse, n) == OlderBy(Fixed(Aged(e, older), fuse), older, n)
  {
    assert ([true] + Without(n))[1..] == Without(n) == Without(n) + [];
    ObserveWithout(Fixed(Aged(e, older), fuse), older, fuse, n, []);
  }

  lemma LateIs(e: EkfState, older: Bits -> Bits, fuse: EkfState -> EkfState, n: nat)
    ensures Late(e, older, fuse, n) == Fixed(Aged(OlderBy(e, older, n), older), fuse)
  {
    ObserveWithout(e, older, fuse, n, [true]);
    assert [true][1..] == [];
  }

  /** Two channels that start alike and see the same fix, one in the first of n + 1 cycles and one in the last, end
      in estimator states that differ in the GNSS ages alone: zero in one, n cycles in the other. */
  lemma EarlyAndLate(e: EkfState, older: Bits -> Bits, fuse: EkfState -> EkfState, n: nat)
    ensures Early(e, older, fuse, n)
            == Late(e, older, fuse, n).(gnssPosAge := Repeat(older, 0, n), gnssVelAge := Repeat(older, 0, n))
    ensures Late(e, older, fuse, n).gnssPosAge == Late(e, older, fuse, n).gnssVelAge == 0
  {
    EarlyIs(e, older, fuse, n);
    LateIs(e, older, fuse, n);
    RepeatLast(older, e.baroAge, n);
    RepeatLast(older, e.imuAge, n);
  }

  /** So every buffer projects the two channels alike, the late one is aided, and the early one is aided exactly
      while n cycles make no more than the timeout. Where it is not, the well-placed estimate is valid in one channel
      only. */
  lemma ChannelsDrift(k: KernelState, b: bool, m: nat, older: Bits -> Bits, fuse: EkfState -> EkfState, n: nat)
    requires Of(k, b)
    ensures var early, late := Early(k.estimator, older, fuse, n), Late(k.estimator, older, fuse, n);
      && Projected(k.(estimator := early), m) == Projected(k.(estimator := late), m)
      && PositionAided(late) && (PositionAided(early) <==> Repeat(older, 0, n) <= AIDING_TIMEOUT)
      && (PositionValid(early) != PositionValid(late)
          <==> WellPlaced(late) && Repeat(older, 0, n) > AIDING_TIMEOUT)
  {
    var early, late := Early(k.estimator, older, fuse, n), Late(k.estimator, older, fuse, n);
    EarlyAndLate(k.estimator, older, fuse, n);
    EncodingDistinguishesExactly(k.(estimator := early), k.(estimator := late), b);
  }

  /** 1.0 to 6.0. */
  const SECONDS: seq<Bits> := [0, 0x3F80_0000, 0x4000_0000, 0x4040_0000, 0x4080_0000, 0x40A0_0000, 0x40C0_0000]

  /** A cycle of one second, on the ages of whole seconds up to six. */
  ghost predicate AddsASecond(older: Bits -> Bits) { forall i :: 0 <= i < 6 ==> older(SECONDS[i]) == SECONDS[i + 1] }

  lemma {:induction false} WholeSeconds(older: Bits -> Bits, i: nat, n: nat)
    requires AddsASecond(older) && i + n <= 6
    ensures Repeat(older, SECONDS[i], n) == SECONDS[i + n]
    decreases n
  {
    if n == 0 {
    } else {
      WholeSeconds(older, i + 1, n - 1);
    }
  }

  /** Six one-second cycles are enough. */
  lemma SixSecondsApart(k: KernelState, b: bool, m: nat, older: Bits -> Bits, fuse: EkfState -> EkfState)
    requires Of(k, b) && AddsASecond(older)
    ensures var early, late := Early(k.estimator, older, fuse, 6), Late(k.estimator, older, fuse, 6);
      && Projected(k.(estimator := early), m) == Projected(k.(estimator := late), m)
      && PositionAided(late) && !PositionAided(early)
  {
    ChannelsDrift(k, b, m, older, fuse, 6);
    WholeSeconds(older, 0, 6);
  }

  // ---------- buffers that are too short ----------

  /** 0.5, the default landed debounce. */
  const DEBOUNCE: Bits := 0x3F00_0000

  /** What every armed run keeps of the airborne latch (`ArmedRunsKeepLatch`): time counts up to the debounce, in
      the air, on a valid datum. */
  predicate LatchKept(f: FlightPhaseState) {
    && f.landedElapsed < DEBOUNCE
    && (f.phase.OnGround? ==> f.landedElapsed == 0)
    && (f.phase.Airborne? ==> f.datumValid)
  }

  /** The power of two. */
  function Exp2(e: int): (r: real)
    ensures r > 0.0
    decreases if e < 0 then -e else e
  {
    if e == 0 then 1.0 else if e > 0 then 2.0 * Exp2(e - 1) else Exp2(e + 1) / 2.0
  }

  lemma {:induction false} AtLeastHalf(e: int)
    requires e >= -1
    ensures Exp2(e) >= 0.5
  {
    if e <= 0 {
      assert Exp2(-1) == Exp2(0) / 2.0;
    } else {
      AtLeastHalf(e - 1);
    }
  }

  const INFINITY: Bits := 0x7F80_0000

  function Fraction(b: Bits): real { (b % 0x80_0000) as real / 0x80_0000 as real }

  /** The value of a finite float without sign. */
  function ValueOf(b: Bits): real
    requires b < INFINITY
  {
    var e := b / 0x80_0000;
    if e == 0 then Fraction(b) * Exp2(-126) else (1.0 + Fraction(b)) * Exp2(e - 127)
  }

  lemma TimesAtLeastOne(f: real, x: real)
    requires f >= 0.0 && x > 0.0
    ensures (1.0 + f) * x >= x
  {
    assert f * x >= 0.0;
  }

  lemma PositiveProduct(x: real, y: real)
    requires x > 0.0 && y > 0.0
    ensures x * y > 0.0
  {
  }

  lemma NormalIsAtLeast(b: Bits)
    requires 0x80_0000 <= b < INFINITY
    ensures ValueOf(b) >= Exp2(b / 0x80_0000 - 127)
  {
    TimesAtLeastOne(Fraction(b), Exp2(b / 0x80_0000 - 127));
  }

  lemma SubnormalIsPositive(b: Bits)
    requires 0 < b < 0x80_0000
    ensures ValueOf(b) > 0.0
  {
    PositiveProduct(Fraction(b), Exp2(-126));
  }

  /** Such floats below 0.5 have bits below those of 0.5. */
  lemma BelowDebounce(b: Bits)
    requires b < INFINITY && ValueOf(b) < 0.5
    ensures b < DEBOUNCE
  {
    if b >= DEBOUNCE {
      NormalIsAtLeast(b);
      AtLeastHalf(b / 0x80_0000 - 127);
    }
  }

  /** And only zero bits stand for zero. */
  lemma ZeroBits(b: Bits)
    requires b < INFINITY && ValueOf(b) == 0.0
    ensures b == 0
  {
    if b >= 0x80_0000 {
      NormalIsAtLeast(b);
    } else if b > 0 {
      SubnormalIsPositive(b);
    }
  }

  /** The record of a latch. */
  ghost predicate StandsFor(f: FlightPhaseState, l: FlightPhase.Latch) {
    && f.phase == l.phase && f.datumValid == l.datumValid
    && f.landedElapsed < INFINITY && ValueOf(f.landedElapsed) == l.landedElapsed
  }

  /** Whatever estimate a flight begins on and whatever it then observes. */
  lemma ArmedRunsKeepLatch(arm: FlightPhase.Estimate, h: seq<FlightPhase.Obs>, f: FlightPhaseState)
    requires StandsFor(f, FlightPhase.After(FlightPhase.BeginFlightPeriod(arm), FlightPhase.DEFAULT_LIMITS, h))
    ensures LatchKept(f)
  {
    if FlightPhase.Usable(arm) {
      FlightPhase.LatchMeetsHistory(arm, FlightPhase.DEFAULT_LIMITS, h);
    } else {
      FlightPhase.UnusableDatumNeverLatches(arm, FlightPhase.DEFAULT_LIMITS, h);
    }
    BelowDebounce(f.landedElapsed);
    if f.phase.OnGround? {
      ZeroBits(f.landedElapsed);
    }
  }

  /** 0.25 and 0.0625, which share their first three bytes. */
  const QUARTER: Bits := 0x3E80_0000
  const SIXTEENTH: Bits := 0x3D80_0000

  lemma QuarterAndSixteenth()
    ensures ValueOf(QUARTER) == 0.25 && ValueOf(SIXTEENTH) == 0.0625
  {
    assert Exp2(-1) == 0.5;
    assert Exp2(-2) == Exp2(-1) / 2.0;
    assert Exp2(-3) == Exp2(-2) / 2.0;
    assert Exp2(-4) == Exp2(-3) / 2.0;
  }

  const AT_REST: FlightPhase.Estimate :=
    FlightPhase.Estimate(FlightPhase.Good, {FlightPhase.VELOCITY}, Floats.Finite(0.0), Floats.Finite(0.0))

  const CLIMB: FlightPhase.Obs := FlightPhase.Obs(AT_REST.(positionDown := Floats.Finite(-1.0)), Floats.Finite(0.01))

  lemma AfterTwo(l: FlightPhase.Latch, lim: FlightPhase.Limits, a: FlightPhase.Obs, b: FlightPhase.Obs)
    ensures FlightPhase.After(l, lim, [a, b])
            == FlightPhase.Update(FlightPhase.Update(l, a, true, lim), b, true, lim)
  {
    assert [a, b][..1] == [a] && [a][..0] == [];
    assert FlightPhase.After(l, lim, [a]) == FlightPhase.Update(FlightPhase.After(l, lim, []), a, true, lim);
  }

  lemma ClimbLatches()
    ensures FlightPhase.Update(FlightPhase.BeginFlightPeriod(AT_REST), CLIMB, true, FlightPhase.DEFAULT_LIMITS)
            == FlightPhase.Latch(FlightPhase.Airborne, Floats.Finite(0.0), true, 0.0)
  {
  }

  lemma AtRestIsLanded(o: FlightPhase.Obs)
    requires o.estimate == AT_REST
    ensures FlightPhase.Landed(Floats.Finite(0.0), FlightPhase.DEFAULT_LIMITS, o)
  {
  }

  lemma LandedSampleCounts(l: FlightPhase.Latch, lim: FlightPhase.Limits, o: FlightPhase.Obs)
    requires l.phase.Airborne? && l.datumValid && l.landedElapsed == 0.0
    requires FlightPhase.Landed(l.groundDatum, lim, o) && o.dt.Finite? && 0.0 < o.dt.r < lim.landedDebounce
    requires FlightPhase.StepOf(lim, o) == o.dt.r
    ensures FlightPhase.Update(l, o, true, lim) == l.(landedElapsed := o.dt.r)
  {
  }

  /** After a climb of a metre and one landed sample of length `dt`. */
  function AfterLandedSample(dt: real): FlightPhase.Latch {
    FlightPhase.After(FlightPhase.BeginFlightPeriod(AT_REST), FlightPhase.DEFAULT_LIMITS,
                      [CLIMB, FlightPhase.Obs(AT_REST, Floats.Finite(dt))])
  }

  /** Such flights leave every elapsed time up to a quarter of a second. */
  lemma ElapsedIsReached(dt: real)
    requires 0.0 < dt <= 0.25
    ensures AfterLandedSample(dt) == FlightPhase.Latch(FlightPhase.Airborne, Floats.Finite(0.0), true, dt)
  {
    AfterTwo(FlightPhase.BeginFlightPeriod(AT_REST), FlightPhase.DEFAULT_LIMITS, CLIMB,
             FlightPhase.Obs(AT_REST, Floats.Finite(dt)));
    ClimbLatches();
    AtRestIsLanded(FlightPhase.Obs(AT_REST, Floats.Finite(dt)));
    LandedSampleCounts(FlightPhase.Latch(FlightPhase.Airborne, Floats.Finite(0.0), true, 0.0),
                       FlightPhase.DEFAULT_LIMITS, FlightPhase.Obs(AT_REST, Floats.Finite(dt)));
  }

  function LandedFor(k: KernelState, elapsed: Bits): KernelState {
    k.(flight := k.flight.(phase := FlightPhase.Airborne, datumValid := true, landedElapsed := elapsed))
  }

  /** Both are records of latches that a flight leaves. */
  lemma TwinsAreReached(k: KernelState)
    ensures StandsFor(LandedFor(k, QUARTER).flight, AfterLandedSample(0.25))
    ensures StandsFor(LandedFor(k, SIXTEENTH).flight, AfterLandedSample(0.0625))
  {
    QuarterAndSixteenth();
    ElapsedIsReached(0.25);
    ElapsedIsReached(0.0625);
  }

  lemma FourBytes(x: nat)
    ensures LE(x, 4) == [x % 256, x / 256 % 256, x / 256 / 256 % 256] + LE(x / 256 / 256 / 256, 1)
  {
    assert LE(x, 4) == [x % 256] + LE(x / 256, 3);
    assert LE(x / 256, 3) == [x / 256 % 256] + LE(x / 256 / 256, 2);
  }

  lemma TopByteOnly()
    ensures LE(QUARTER, 4)[..3] == LE(SIXTEENTH, 4)[..3]
  {
    FourBytes(QUARTER);
    FourBytes(SIXTEENTH);
  }

  /** The encoding without its last word. */
  function Head(k: KernelState): seq<Byte> {
    Flat(Fields(k), FieldBytes, 11)
    + (PhaseBytes(k.flight.phase) + Word32(k.flight.groundDatum) + Flag(k.flight.datumValid))
  }

  lemma HeadAndLastWord(k: KernelState)
    ensures StateBytes(k) == Head(k) + Word32(k.flight.landedElapsed)
  {
    assert StateBytes(k) == Flat(Fields(k), FieldBytes, 11) + FlightBytes(k.flight);
  }

  lemma SameHead(k: KernelState, x: Bits, y: Bits)
    ensures Head(LandedFor(k, x)) == Head(LandedFor(k, y))
  {
    SamePrefix(Fields(LandedFor(k, x)), Fields(LandedFor(k, y)), 11);
  }

  lemma SameUpToLastByte(p: seq<Byte>, s: seq<Byte>, t: seq<Byte>, m: nat)
    requires |s| == |t| == 4 && s[..3] == t[..3] && m < |p| + 4
    ensures (p + s)[..m] == (p + t)[..m]
  {
    assert forall i :: 0 <= i < 3 ==> s[i] == s[..3][i] && t[i] == t[..3][i];
  }

  /** A buffer one byte short or more cannot tell whether the vehicle has looked landed for a quarter or a
      sixteenth of a second. */
  lemma ShortProjectionsAreBlind(k: KernelState, b: bool, m: nat)
    requires Of(k, b) && m < EncodedLen(b)
    ensures Projected(LandedFor(k, QUARTER), m) == Projected(LandedFor(k, SIXTEENTH), m)
    ensures LatchKept(LandedFor(k, QUARTER).flight) && LatchKept(LandedFor(k, SIXTEENTH).flight)
  {
    var l, n := LandedFor(k, QUARTER), LandedFor(k, SIXTEENTH);
    StateLength(l);
    StateLength(n);
    HeadAndLastWord(l);
    HeadAndLastWord(n);
    SameHead(k, QUARTER, SIXTEENTH);
    TopByteOnly();
    SameUpToLastByte(Head(l), Word32(QUARTER), Word32(SIXTEENTH), m);
  }

  /** Two states a kernel may hold whose projections agree. */
  predicate Alike(k: KernelState, l: KernelState, b: bool, m: nat) {
    Of(k, b) && Of(l, b) && LatchKept(k.flight) && LatchKept(l.flight) && Projected(k, m) == Projected(l, m)
  }

  ghost predicate Witnesses(b: bool, m: nat) {
    forall k, l :: Alike(k, l, b, m) ==> Replicated(k) == Replicated(l)
  }

  /** Two buffers of one size witness equal states, up to the aiding ages, exactly when they are full size. */
  lemma BuffersWitnessExactly(k: KernelState, b: bool, m: nat)
    requires Of(k, b)
    ensures Witnesses(b, m) <==> m >= EncodedLen(b)
  {
    if m >= EncodedLen(b) {
      forall k, l | Alike(k, l, b, m)
        ensures Replicated(k) == Replicated(l)
      {
        FullProjectionsWitness(k, l, b, m, m);
      }
    } else {
      ShortProjectionsAreBlind(k, b, m);
      var l, n := LandedFor(k, QUARTER), LandedFor(k, SIXTEENTH);
      assert Alike(l, n, b, m) && Replicated(l).flight != Replicated(n).flight;
    }
  }

  // ---------- the gate ----------

  function Present(peers: seq<Option<ChannelSnapshot>>, n: nat): nat
    requires n <= |peers|
  {
    if n == 0 then 0 else Present(peers, n - 1) + if peers[n - 1].Some? then 1 else 0
  }

  function Verdict(local: ChannelSnapshot, peer: ChannelSnapshot): Decision {
    if peer.algorithm != local.algorithm then RefuseHashMismatch(peer.channel)
    else if peer.config != local.config then RefuseConfigMismatch(peer.channel)
    else if |peer.state| != |local.state| || peer.state != local.state then RefuseStateMismatch(peer.channel)
    else Enter
  }

  /** The verdict on the first disagreeing peer from `i` on. */
  function FirstRefusal(local: ChannelSnapshot, peers: seq<Option<ChannelSnapshot>>, i: nat): Decision
    requires i <= |peers|
    decreases |peers| - i
  {
    if i == |peers| then Enter
    else if peers[i].Some? && Verdict(local, peers[i].value) != Enter then Verdict(local, peers[i].value)
    else FirstRefusal(local, peers, i + 1)
  }

  function Decide(local: ChannelSnapshot, peers: seq<Option<ChannelSnapshot>>, quorum: nat): Decision {
    if Present(peers, |peers|) < quorum then RefuseQuorum(Present(peers, |peers|), quorum)
    else FirstRefusal(local, peers, 0)
  }

  method DecideLockstep(local: ChannelSnapshot, peers: seq<Option<ChannelSnapshot>>, quorum: nat)
    returns (d: Decision)
    ensures d == Decide(local, peers, quorum)
  {
    var present := 0;
    for i := 0 to |peers|
      invariant present == Present(peers, i)
    {
      if peers[i].Some? {
        present := present + 1;
      }
    }
    if present < quorum {
      return RefuseQuorum(present, quorum);
    }
    for i := 0 to |peers|
      invariant FirstRefusal(local, peers, 0) == FirstRefusal(local, peers, i)
    {
      if peers[i].Some? {
        var peer := peers[i].value;
        if peer.algorithm != local.algorithm {
          return RefuseHashMismatch(peer.channel);
        }
        if peer.config != local.config {
          return RefuseConfigMismatch(peer.channel);
        }
        if |peer.state| != |local.state| || peer.state != local.state {
          return RefuseStateMismatch(peer.channel);
        }
      }
    }
    return Enter;
  }

  ghost predicate AllAgree(local: ChannelSnapshot, peers: seq<Option<ChannelSnapshot>>, from: nat) {
    forall j :: from <= j < |peers| && peers[j].Some? ==> AgreesWith(local, peers[j].value)
  }

  lemma {:induction false} NoRefusalExactly(local: ChannelSnapshot, peers: seq<Option<ChannelSnapshot>>, i: nat)
    requires i <= |peers|
    ensures FirstRefusal(local, peers, i) == Enter <==> AllAgree(local, peers, i)
    decreases |peers| - i
  {
    if i < |peers| {
      NoRefusalExactly(local, peers, i + 1);
      assert AllAgree(local, peers, i)
          <==> AllAgree(local, peers, i + 1) && (peers[i].Some? ==> AgreesWith(local, peers[i].value));
    }
  }

  /** Lockstep is entered exactly when the quorum is present and every present peer agrees. */
  lemma EnterExactly(local: ChannelSnapshot, peers: seq<Option<ChannelSnapshot>>, quorum: nat)
    ensures Decide(local, peers, quorum) == Enter
            <==> Present(peers, |peers|) >= quorum && AllAgree(local, peers, 0)
  {
    NoRefusalExactly(local, peers, 0);
  }

  /** The peers present among the first `n`. */
  ghost function PresentPeers(peers: seq<Option<ChannelSnapshot>>, n: nat): set<int>
    requires n <= |peers|
  {
    set i | 0 <= i < n && peers[i].Some?
  }

  lemma {:induction false} PresentIsCount(peers: seq<Option<ChannelSnapshot>>, n: nat)
    requires n <= |peers|
    ensures Present(peers, n) == |PresentPeers(peers, n)|
  {
    if n == 0 {
      assert PresentPeers(peers, 0) == {};
    } else {
      PresentIsCount(peers, n - 1);
      assert PresentPeers(peers, n) == PresentPeers(peers, n - 1) + if peers[n - 1].Some? then {n - 1} else {};
    }
  }

  /** A missing quorum is refused before any peer is looked at, and nothing else is refused as one. */
  lemma QuorumRefusedExactly(local: ChannelSnapshot, peers: seq<Option<ChannelSnapshot>>, quorum: nat)
    ensures var n := |PresentPeers(peers, |peers|)|;
      Decide(local, peers, quorum) == RefuseQuorum(n, quorum) <==> n < quorum
    ensures Decide(local, peers, quorum).RefuseQuorum? <==> |PresentPeers(peers, |peers|)| < quorum
  {
    PresentIsCount(peers, |peers|);
    if FirstRefusal(local, peers, 0) != Enter {
      var _ := RefusalNamesFirst(local, peers, 0);
    }
  }

  /** Peer `i`'s snapshot is `source`'s projection into a buffer of some length. */
  datatype Source = Source(state: KernelState, length: nat)

  ghost predicate Projections(peers: seq<Option<ChannelSnapshot>>, sources: seq<Source>, b: bool) {
    && |sources| == |peers|
    && forall i :: 0 <= i < |peers| && peers[i].Some? ==>
         Of(sources[i].state, b) && peers[i].value.state == Projected(sources[i].state, sources[i].length)
  }

  /** What the gate is for: with a full-size local buffer, entering lockstep means a quorum of peers, every
      one of them running the same algorithm and configuration, with a full-size buffer and the state the local
      channel holds, up to the aiding ages; and nothing else refuses. */
  lemma LockstepMeansEqualStates(local: ChannelSnapshot, k: KernelState, length: nat,
                                 peers: seq<Option<ChannelSnapshot>>, sources: seq<Source>, b: bool, quorum: nat)
    requires Of(k, b) && length >= EncodedLen(b) && local.state == Projected(k, length)
    requires Projections(peers, sources, b)
    ensures Decide(local, peers, quorum) == Enter
            <==> Present(peers, |peers|) >= quorum
                 && forall i :: 0 <= i < |peers| && peers[i].Some? ==>
                      SameChannel(local, k, peers[i].value, sources[i], b)
  {
    EnterExactly(local, peers, quorum);
    forall i | 0 <= i < |peers| && peers[i].Some?
      ensures AgreesWith(local, peers[i].value) <==> SameChannel(local, k, peers[i].value, sources[i], b)
    {
      FullProjectionsWitness(k, sources[i].state, b, length, sources[i].length);
    }
  }

  predicate SameChannel(local: ChannelSnapshot, k: KernelState, peer: ChannelSnapshot, source: Source, b: bool) {
    && peer.algorithm == local.algorithm && peer.config == local.config
    && source.length >= EncodedLen(b) && Replicated(source.state) == Replicated(k)
  }

  /** A refusal names the first peer that disagrees, for the most fundamental difference it has. */
  lemma {:induction false} RefusalNamesFirst(local: ChannelSnapshot, peers: seq<Option<ChannelSnapshot>>, i: nat)
    returns (j: nat)
    requires i <= |peers| && FirstRefusal(local, peers, i) != Enter
    ensures i <= j < |peers| && peers[j].Some? && !AgreesWith(local, peers[j].value)
    ensures forall n :: i <= n < j && peers[n].Some? ==> AgreesWith(local, peers[n].value)
    ensures var d, p := FirstRefusal(local, peers, i), peers[j].value;
            && !d.RefuseQuorum? && d.peer == p.channel
            && (d.RefuseHashMismatch? <==> p.algorithm != local.algorithm)
            && (d.RefuseStateMismatch? <==> p.algorithm == local.algorithm && p.config == local.config)
    decreases |peers| - i
  {
    if peers[i].Some? && Verdict(local, peers[i].value) != Enter {
      j := i;
    } else {
      j := RefusalNamesFirst(local, peers, i + 1);
    }
  }
}
