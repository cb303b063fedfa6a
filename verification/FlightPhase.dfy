/** Floats as the latch sees them: exact reals plus the three non-finite values, with IEEE
    comparisons (anything compared with NaN is false). Rounding is not modelled. */
module Floats {
  datatype Float = Finite(r: real) | PosInf | NegInf | NaN

  predicate Lt(a: Float, b: Float) {
    match (a, b)
    case (Finite(x), Finite(y)) => x < y
    case (NegInf, Finite(_)) => true
    case (NegInf, PosInf) => true
    case (Finite(_), PosInf) => true
    case _ => false
  }

  function Neg(a: Float): Float {
    match a
    case Finite(x) => Finite(-x)
    case PosInf => NegInf
    case NegInf => PosInf
    case NaN => NaN
  }

  function Add(a: Float, b: Float): Float {
    match (a, b)
    case (Finite(x), Finite(y)) => Finite(x + y)
    case (Finite(_), _) => b
    case (_, Finite(_)) => a
    case _ => if a == b then a else NaN
  }

  function Sub(a: Float, b: Float): Float { Add(a, Neg(b)) }

  function Abs(a: Float): Float {
    match a
    case Finite(x) => Finite(if x < 0.0 then -x else x)
    case NegInf => PosInf
    case _ => a
  }
}

/** The airborne/landed latch (aviate-core/src/flight_phase.rs). */
module FlightPhase {
  import opened Floats

  datatype Quality = Good | Degraded | Unusable

  datatype StateFlag = ATTITUDE | ANGULAR_RATE | POSITION | VELOCITY

  /** The part of a state estimate that the kernel's decisions read. */
  datatype Estimate = Estimate(
    quality: Quality, validFlags: set<StateFlag>, positionDown: Float, velocityDown: Float)

  datatype Phase = OnGround | Airborne

  datatype Limits = Limits(takeoffHeight: real, landedHeight: real, landedSpeed: real, landedDebounce: real)

  const DEFAULT_LIMITS: Limits := Limits(0.5, 0.3, 0.3, 0.5)

  predicate Hysteretic(lim: Limits) { lim.landedHeight < lim.takeoffHeight }

  function AltitudeOf(e: Estimate): Float { Neg(e.positionDown) }

  datatype Latch = Latch(phase: Phase, groundDatum: Float, datumValid: bool, landedElapsed: real)

  const POWER_ON: Latch := Latch(OnGround, Finite(0.0), false, 0.0)

  predicate Usable(e: Estimate) { !e.quality.Unusable? }

  function BeginFlightPeriod(e: Estimate): Latch {
    Latch(OnGround, AltitudeOf(e), Usable(e), 0.0)
  }

  /** One armed cycle's evidence. */
  datatype Obs = Obs(estimate: Estimate, dt: Float)

  /** Usable evidence of having climbed away from the datum. */
  predicate Rise(datum: Float, lim: Limits, o: Obs) {
    Usable(o.estimate) && Lt(Finite(lim.takeoffHeight), Sub(AltitudeOf(o.estimate), datum))
  }

  /** Usable evidence of being low and slow. */
  predicate Landed(datum: Float, lim: Limits, o: Obs) {
    && Usable(o.estimate)
    && Lt(Sub(AltitudeOf(o.estimate), datum), Finite(lim.landedHeight))
    && VELOCITY in o.estimate.validFlags
    && Lt(Abs(Neg(o.estimate.velocityDown)), Finite(lim.landedSpeed))
  }

  /** What one sample may add to the debounce: never more than half the window. */
  function StepOf(lim: Limits, o: Obs): real {
    if o.dt.Finite? && o.dt.r > 0.0 then
      if o.dt.r <= lim.landedDebounce * 0.5 then o.dt.r else lim.landedDebounce * 0.5
    else 0.0
  }

  function Update(l: Latch, o: Obs, armed: bool, lim: Limits): Latch {
    if !armed || !l.datumValid then l
    else if !Usable(o.estimate) then l.(landedElapsed := 0.0)
    else if l.phase.OnGround? then
      if Rise(l.groundDatum, lim, o) then l.(phase := Airborne, landedElapsed := 0.0) else l
    else if !Landed(l.groundDatum, lim, o) then l.(landedElapsed := 0.0)
    else
      var elapsed := l.landedElapsed + StepOf(lim, o);
      if elapsed >= lim.landedDebounce then l.(phase := OnGround, landedElapsed := 0.0)
      else l.(landedElapsed := elapsed)
  }

  /** The latch after a history of armed cycles. */
  function After(l: Latch, lim: Limits, h: seq<Obs>): Latch {
    if h == [] then l else Update(After(l, lim, h[..|h| - 1]), h[|h| - 1], true, lim)
  }

  // ---------- the specification by history ----------

  ghost predicate AllLanded(datum: Float, lim: Limits, h: seq<Obs>, k: nat, j: nat)
    requires k <= j <= |h|
  {
    forall i :: k <= i < j ==> Landed(datum, lim, h[i])
  }

  /** Time observed over `h[k..j]`, each sample capped. */
  ghost function Observed(lim: Limits, h: seq<Obs>, k: nat, j: nat): real
    requires k <= j <= |h|
    decreases j
  {
    if k == j then 0.0 else Observed(lim, h, k, j - 1) + StepOf(lim, h[j - 1])
  }

  /** A landing has been demonstrated within `h[k..j]`. */
  ghost predicate LandingShown(datum: Float, lim: Limits, h: seq<Obs>, k: nat, j: nat)
    requires k <= j <= |h|
  {
    AllLanded(datum, lim, h, k, j) && Observed(lim, h, k, j) >= lim.landedDebounce
  }

  /** No landing has been demonstrated after the rise at `i`. */
  ghost predicate StillUpSince(datum: Float, lim: Limits, h: seq<Obs>, i: nat) {
    && i < |h| && Rise(datum, lim, h[i])
    && forall k, j :: i < k < j <= |h| ==> !LandingShown(datum, lim, h, k, j)
  }

  /** Airborne by history: a rise was seen and no landing has been demonstrated since. */
  ghost predicate AirborneBy(datum: Float, lim: Limits, h: seq<Obs>) {
    exists i: nat :: StillUpSince(datum, lim, h, i)
  }

  /** Where the current unbroken landed suffix begins. */
  ghost function LandedSince(datum: Float, lim: Limits, h: seq<Obs>): (k: nat)
    ensures k <= |h| && AllLanded(datum, lim, h, k, |h|)
    ensures k > 0 ==> !Landed(datum, lim, h[k - 1])
  {
    if h != [] && Landed(datum, lim, h[|h| - 1]) then
      var t := h[..|h| - 1];
      var k := LandedSince(datum, lim, t);
      assert forall i :: 0 <= i < |t| ==> h[i] == t[i];
      k
    else |h|
  }

  lemma {:induction false} ObservedPrefix(lim: Limits, h: seq<Obs>, t: seq<Obs>, k: nat, j: nat)
    requires k <= j <= |t| && t <= h
    ensures Observed(lim, h, k, j) == Observed(lim, t, k, j)
    decreases j
  {
    if k < j {
      ObservedPrefix(lim, h, t, k, j - 1);
    }
  }

  lemma {:induction false} ObservedShorter(lim: Limits, h: seq<Obs>, k: nat, m: nat, j: nat)
    requires lim.landedDebounce > 0.0 && k <= m <= j <= |h|
    ensures 0.0 <= Observed(lim, h, m, j) <= Observed(lim, h, k, j)
    decreases j
  {
    if m < j {
      ObservedShorter(lim, h, k, m, j - 1);
    } else if k < j {
      ObservedShorter(lim, h, k, j - 1, j - 1);
    }
  }

  lemma LandingShownPrefix(datum: Float, lim: Limits, h: seq<Obs>, t: seq<Obs>, k: nat, j: nat)
    requires k <= j <= |t| && t <= h
    ensures LandingShown(datum, lim, h, k, j) <==> LandingShown(datum, lim, t, k, j)
  {
    ObservedPrefix(lim, h, t, k, j);
    assert forall n :: 0 <= n < |t| ==> h[n] == t[n];
  }

  /** After a rise at `i`, one more sample ends the flight only by completing a landing. */
  lemma StillUpAfter(datum: Float, lim: Limits, h: seq<Obs>, t: seq<Obs>, i: nat)
    requires i < |t| && |h| == |t| + 1 && t <= h
    ensures StillUpSince(datum, lim, h, i) <==>
            && StillUpSince(datum, lim, t, i)
            && forall k: nat :: i < k < |h| ==> !LandingShown(datum, lim, h, k, |h|)
  {
    assert h[i] == t[i];
    forall k: nat, j: nat | i < k < j <= |t|
      ensures LandingShown(datum, lim, h, k, j) <==> LandingShown(datum, lim, t, k, j)
    {
      LandingShownPrefix(datum, lim, h, t, k, j);
    }
    if StillUpSince(datum, lim, t, i) && forall k: nat :: i < k < |h| ==> !LandingShown(datum, lim, h, k, |h|) {
      forall k, j | i < k < j <= |h| ensures !LandingShown(datum, lim, h, k, j) {
        if j <= |t| { assert !LandingShown(datum, lim, t, k, j); }
      }
    }
  }

  /** Which landings the last sample completes, when it is a landed one. */
  lemma SuffixDecides(datum: Float, lim: Limits, h: seq<Obs>, k: nat)
    requires lim.landedDebounce > 0.0 && k < |h|
    ensures LandingShown(datum, lim, h, k, |h|) ==>
              var k0 := LandedSince(datum, lim, h);
              k0 <= k && Observed(lim, h, k0, |h|) >= lim.landedDebounce
  {
    var k0 := LandedSince(datum, lim, h);
    if k < k0 {
      assert !Landed(datum, lim, h[k0 - 1]);
    } else {
      ObservedShorter(lim, h, k0, k, |h|);
    }
  }

  /** A landed sample ends the flight exactly when the landed suffix has lasted a full window. */
  lemma LandedSampleDecides(datum: Float, lim: Limits, h: seq<Obs>, t: seq<Obs>)
    requires lim.landedDebounce > 0.0 && Hysteretic(lim)
    requires |h| == |t| + 1 && t <= h && Landed(datum, lim, h[|t|])
    ensures LandedSince(datum, lim, h) == LandedSince(datum, lim, t)
    ensures var k := LandedSince(datum, lim, t);
      Observed(lim, h, k, |h|) == Observed(lim, t, k, |t|) + StepOf(lim, h[|t|])
    ensures AirborneBy(datum, lim, h) <==>
            && AirborneBy(datum, lim, t)
            && Observed(lim, h, LandedSince(datum, lim, t), |h|) < lim.landedDebounce
  {
    assert h[..|h| - 1] == t;
    var k0 := LandedSince(datum, lim, t);
    ObservedPrefix(lim, h, t, k0, |t|);
    forall i: nat | i < |t| { StillUpAfter(datum, lim, h, t, i); }
    assert !StillUpSince(datum, lim, h, |t|);
    if Observed(lim, h, k0, |h|) >= lim.landedDebounce {
      assert LandingShown(datum, lim, h, k0, |h|);
      forall i: nat | i < |t| ensures !StillUpSince(datum, lim, h, i) {
        assert Rise(datum, lim, h[i]) ==> !Landed(datum, lim, h[i]) && i < k0;
      }
    } else {
      forall k: nat | k < |h| { SuffixDecides(datum, lim, h, k); }
    }
  }

  lemma OtherSampleKeeps(datum: Float, lim: Limits, h: seq<Obs>, t: seq<Obs>)
    requires |h| == |t| + 1 && t <= h && !Landed(datum, lim, h[|t|])
    ensures LandedSince(datum, lim, h) == |h|
    ensures AirborneBy(datum, lim, h) <==> AirborneBy(datum, lim, t) || Rise(datum, lim, h[|t|])
  {
    assert forall k: nat :: k < |h| ==> !LandingShown(datum, lim, h, k, |h|);
    assert StillUpSince(datum, lim, h, |t|) <==> Rise(datum, lim, h[|t|]);
    forall i: nat | i < |t| { StillUpAfter(datum, lim, h, t, i); }
  }

  /** The incremental latch is the history specification: the phase is airborne exactly when a rise was
      seen with no landing demonstrated since, and the debounce is the capped time of the current
      unbroken landed suffix, always inside [0, debounce). */
  lemma {:induction false} LatchMeetsHistory(arm: Estimate, lim: Limits, h: seq<Obs>)
    requires Usable(arm) && Hysteretic(lim) && lim.landedDebounce > 0.0
    ensures var l, d := After(BeginFlightPeriod(arm), lim, h), AltitudeOf(arm);
      && l.datumValid && l.groundDatum == d
      && (l.phase.Airborne? <==> AirborneBy(d, lim, h))
      && l.landedElapsed == (if l.phase.Airborne? then Observed(lim, h, LandedSince(d, lim, h), |h|) else 0.0)
      && 0.0 <= l.landedElapsed < lim.landedDebounce
  {
    if h == [] {
    } else {
      var t, d := h[..|h| - 1], AltitudeOf(arm);
      LatchMeetsHistory(arm, lim, t);
      if Landed(d, lim, h[|t|]) {
        LandedSampleDecides(d, lim, h, t);
        ObservedShorter(lim, h, LandedSince(d, lim, t), |h|, |h|);
      } else {
        OtherSampleKeeps(d, lim, h, t);
      }
    }
  }

  /** A datum captured from an unusable estimate leaves the latch on the ground for good. */
  lemma {:induction false} UnusableDatumNeverLatches(arm: Estimate, lim: Limits, h: seq<Obs>)
    requires !Usable(arm)
    ensures After(BeginFlightPeriod(arm), lim, h) == BeginFlightPeriod(arm)
  {
    if h == [] {
    } else {
      UnusableDatumNeverLatches(arm, lim, h[..|h| - 1]);
    }
  }

  /** Cycle `n` of the history ends a flight. */
  ghost predicate TouchesDown(l: Latch, lim: Limits, h: seq<Obs>, n: nat) {
    n < |h| && After(l, lim, h[..n]).phase.Airborne? && After(l, lim, h[..n + 1]).phase.OnGround?
  }

  ghost predicate LiftsOff(l: Latch, lim: Limits, h: seq<Obs>, n: nat) {
    n < |h| && After(l, lim, h[..n]).phase.OnGround? && After(l, lim, h[..n + 1]).phase.Airborne?
  }

  lemma CycleUpdate(l: Latch, lim: Limits, h: seq<Obs>, n: nat)
    requires n < |h|
    ensures After(l, lim, h[..n + 1]) == Update(After(l, lim, h[..n]), h[n], true, lim)
  {
    assert h[..n + 1][..n] == h[..n];
  }

  /** No single sample completes a landing, and it takes a full window of observed time. */
  lemma LandingNeedsTwoObservations(arm: Estimate, lim: Limits, h: seq<Obs>, n: nat)
    requires Usable(arm) && Hysteretic(lim) && lim.landedDebounce > 0.0
    requires TouchesDown(BeginFlightPeriod(arm), lim, h, n)
    ensures n >= 1 && Landed(AltitudeOf(arm), lim, h[n - 1]) && Landed(AltitudeOf(arm), lim, h[n])
  {
    CycleUpdate(BeginFlightPeriod(arm), lim, h, n);
    LatchMeetsHistory(arm, lim, h[..n]);
    var k := LandedSince(AltitudeOf(arm), lim, h[..n]);
    assert k < n;
  }

  lemma {:induction false} DatumStays(l: Latch, lim: Limits, h: seq<Obs>)
    ensures After(l, lim, h).groundDatum == l.groundDatum
  {
    if h == [] {
    } else {
      DatumStays(l, lim, h[..|h| - 1]);
    }
  }

  /** Hysteresis: between a touch-down and the next lift-off the vehicle climbed by more than
      takeoff_height - landed_height. */
  lemma RelatchNeedsAClimb(l: Latch, lim: Limits, h: seq<Obs>, n: nat, m: nat)
    requires TouchesDown(l, lim, h, n) && LiftsOff(l, lim, h, m)
    ensures Lt(Finite(lim.takeoffHeight - lim.landedHeight),
               Sub(AltitudeOf(h[m].estimate), AltitudeOf(h[n].estimate)))
  {
    CycleUpdate(l, lim, h, n);
    CycleUpdate(l, lim, h, m);
    DatumStays(l, lim, h[..n]);
    DatumStays(l, lim, h[..m]);
  }

  // ---------- the latch object ----------

  class FlightPhaseState {
    var phase: Phase
    var groundDatum: Float
    var datumValid: bool
    var landedElapsed: real

    ghost function View(): Latch
      reads this
    {
      Latch(phase, groundDatum, datumValid, landedElapsed)
    }

    constructor ()
      ensures View() == POWER_ON
    {
      phase, groundDatum, datumValid, landedElapsed := OnGround, Finite(0.0), false, 0.0;
    }

    method Begin(estimate: Estimate)
      modifies this
      ensures View() == BeginFlightPeriod(estimate)
    {
      phase := OnGround;
      landedElapsed := 0.0;
      datumValid := Usable(estimate);
      groundDatum := AltitudeOf(estimate);
    }

    method Reset()
      modifies this
      ensures View() == POWER_ON
    {
      phase, groundDatum, datumValid, landedElapsed := OnGround, Finite(0.0), false, 0.0;
    }

    method Fold(estimate: Estimate, armed: bool, dt: Float, limits: Limits)
      modifies this
      ensures View() == Update(old(View()), Obs(estimate, dt), armed, limits)
    {
      if !armed || !datumValid {
        return;
      }
      if !Usable(estimate) {
        landedElapsed := 0.0;
        return;
      }
      var height := Sub(AltitudeOf(estimate), groundDatum);
      match phase
      case OnGround =>
        if Lt(Finite(limits.takeoffHeight), height) {
          phase := Airborne;
          landedElapsed := 0.0;
        }
      case Airborne =>
        UpdateLandedDebounce(height, estimate, dt, limits);
    }

    method UpdateLandedDebounce(height: Float, estimate: Estimate, dt: Float, limits: Limits)
      requires phase.Airborne? && datumValid && Usable(estimate)
      requires height == Sub(AltitudeOf(estimate), groundDatum)
      modifies this`phase, this`landedElapsed
      ensures View() == Update(old(View()), Obs(estimate, dt), true, limits)
    {
      var velocityUsable := VELOCITY in estimate.validFlags;
      var descendingSlowly :=
        velocityUsable && Lt(Abs(Neg(estimate.velocityDown)), Finite(limits.landedSpeed));
      if !(Lt(height, Finite(limits.landedHeight)) && descendingSlowly) {
        landedElapsed := 0.0;
        return;
      }
      var step := 0.0;
      if dt.Finite? && dt.r > 0.0 {
        step := if dt.r <= limits.landedDebounce * 0.5 then dt.r else limits.landedDebounce * 0.5;
      }
      landedElapsed := landedElapsed + step;
      if landedElapsed >= limits.landedDebounce {
        phase := OnGround;
        landedElapsed := 0.0;
      }
    }
  }
}
