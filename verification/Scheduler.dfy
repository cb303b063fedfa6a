/** Fixed-period scheduling with bounded catch-up (`FlightRunner::run` in
    aviate-runtime/src/runner.rs), as a machine over clock readings. */
module Scheduler {
  import opened Common

  const MAX_CATCH_UP: nat := 3

  const I64_MAX: int := 0x7FFF_FFFF_FFFF_FFFF

  /** One executed control tick: its scheduled time, the clock reading it ran at, the outer pass it ran
      in, and whether it ended the pass with a resync. */
  datatype Entry<T> = Exec(tick: T, now: T, pass: nat, resync: bool)

  datatype Machine<T> = Sched(nextTick: T, pass: nat, inPass: nat, log: seq<Entry<T>>, overruns: U32)

  /** On the wrapping 64-bit clock, as coded, and on unbounded time. */
  type Schedule = Machine<U64>
  type Plan = Machine<nat>

  function Started<T>(now: T): Machine<T> { Sched(now, 0, 0, [], 0) }

  /** `(now.wrapping_sub(next_tick) as i64) < 0`. */
  predicate NotYet(now: U64, nextTick: U64) { WrapSub(now, nextTick) > I64_MAX }

  /** One clock reading: either the pass ends, or a tick runs. */
  function Read(s: Schedule, period: U32, now: U64): Schedule {
    if NotYet(now, s.nextTick) then s.(pass := s.pass + 1, inPass := 0)
    else if s.inPass + 1 >= MAX_CATCH_UP then
      Sched(now, s.pass + 1, 0, s.log + [Exec(s.nextTick, now, s.pass, true)],
            if s.overruns == U32_MAX then U32_MAX else s.overruns + 1)
    else
      Sched(WrapAdd(s.nextTick, period), s.pass, s.inPass + 1,
            s.log + [Exec(s.nextTick, now, s.pass, false)], s.overruns)
  }

  function ReadAll(s: Schedule, period: U32, nows: seq<U64>): Schedule {
    if nows == [] then s else Read(ReadAll(s, period, nows[..|nows| - 1]), period, nows[|nows| - 1])
  }

  /** Resyncs among the first `k` executed ticks. */
  function Resyncs<T>(log: seq<Entry<T>>, k: nat): nat
    requires k <= |log|
  {
    if k == 0 then 0 else Resyncs(log, k - 1) + if log[k - 1].resync then 1 else 0
  }

  // ---------- the same on unbounded time ----------

  function Planned(s: Plan, period: U32, now: nat): Plan {
    if now < s.nextTick then s.(pass := s.pass + 1, inPass := 0)
    else if s.inPass + 1 >= MAX_CATCH_UP then
      Sched(now, s.pass + 1, 0, s.log + [Exec(s.nextTick, now, s.pass, true)],
            if s.overruns == U32_MAX then U32_MAX else s.overruns + 1)
    else
      Sched(s.nextTick + period, s.pass, s.inPass + 1,
            s.log + [Exec(s.nextTick, now, s.pass, false)], s.overruns)
  }

  function PlannedAll(start: nat, period: U32, nows: seq<nat>): Plan {
    if nows == [] then Started(start)
    else Planned(PlannedAll(start, period, nows[..|nows| - 1]), period, nows[|nows| - 1])
  }

  /** What the 64-bit clock shows. */
  function Clock(t: nat): U64 { t % (U64_MAX + 1) }

  function Shown(nows: seq<nat>): (r: seq<U64>)
    ensures |r| == |nows|
  {
    seq(|nows|, i requires 0 <= i < |nows| => Clock(nows[i]))
  }

  function EntryShown(e: Entry<nat>): Entry<U64> { Exec(Clock(e.tick), Clock(e.now), e.pass, e.resync) }

  function LogShown(log: seq<Entry<nat>>): (r: seq<Entry<U64>>)
    ensures |r| == |log|
  {
    seq(|log|, k requires 0 <= k < |log| => EntryShown(log[k]))
  }

  function PlanShown(s: Plan): Schedule { Sched(Clock(s.nextTick), s.pass, s.inPass, LogShown(s.log), s.overruns) }

  // ---------- bounds for a clock that does not go back ----------

  /** Reading `i`, or the start of the run. */
  function ReadingAt(start: nat, nows: seq<nat>, i: int): nat
    requires i < |nows|
  {
    if i < 0 then start else nows[i]
  }

  /** Time does not go back, and less than half the range of the clock passes over three readings in a row. The
      64-bit clock itself may wrap around as often as it likes. */
  ghost predicate Steady(start: nat, nows: seq<nat>) {
    && (forall i :: 0 <= i < |nows| ==> start <= nows[i])
    && (forall i, j :: 0 <= i < j < |nows| ==> nows[i] <= nows[j])
    && forall i :: 0 <= i < |nows| ==> nows[i] - ReadingAt(start, nows, i - MAX_CATCH_UP) <= I64_MAX
  }

  /** The tick a log entry schedules next: one period on, or the resync time. */
  function Following(e: Entry<nat>, period: U32): nat { if e.resync then e.now else e.tick + period }

  /** `n` periods; `TimesIsProduct` identifies it with the product. */
  function Times(n: nat, period: nat): nat { if n == 0 then 0 else Times(n - 1, period) + period }

  lemma {:induction false} TimesIsProduct(n: nat, period: nat)
    ensures Times(n, period) == n * period
  {
    if n == 0 {
    } else {
      TimesIsProduct(n - 1, period);
      assert n * period == (n - 1) * period + period;
    }
  }

  /** What holds of the `k`-th executed tick, with `R` resyncs before it. */
  ghost predicate EntryGood(log: seq<Entry<nat>>, k: nat, period: U32, start: nat)
    requires k < |log|
  {
    var e, r := log[k], Resyncs(log, k);
    // never early, and no sooner than k-R periods after the start
    && e.tick <= e.now
    && 3 * r <= k
    && Times(k - r, period) <= e.now - start
    // drift-free between resyncs, and neither ticks nor readings go back
    && (k == 0 ==> e.tick == start)
    && (k > 0 ==> e.tick == Following(log[k - 1], period))
    && (k > 0 ==> log[k - 1].tick <= e.tick && log[k - 1].now <= e.now && log[k - 1].pass <= e.pass)
    // at most three ticks per pass
    && (k >= MAX_CATCH_UP ==> log[k - MAX_CATCH_UP].pass < e.pass)
  }

  /** The schedule after the log, and the pass it stands in. */
  ghost predicate StandsGood(s: Plan, period: U32, start: nat, last: nat) {
    var n := |s.log|;
    && start <= last && start <= s.nextTick <= last + period
    && s.inPass < MAX_CATCH_UP && s.inPass <= n
    && 3 * Resyncs(s.log, n) + s.inPass <= n
    && Times(n - Resyncs(s.log, n), period) <= s.nextTick - start
    && (n == 0 ==> s.nextTick == start)
    && (n > 0 ==> s.nextTick == Following(s.log[n - 1], period) && s.log[n - 1].tick <= s.nextTick
                  && s.log[n - 1].now <= last && s.log[n - 1].pass <= s.pass)
    && (n > s.inPass ==> s.log[n - 1 - s.inPass].pass < s.pass)
  }

  ghost predicate Good(s: Plan, period: U32, start: nat, last: nat) {
    && StandsGood(s, period, start, last)
    && forall k :: 0 <= k < |s.log| ==> EntryGood(s.log, k, period, start)
  }

  lemma {:induction false} LogGrows<T>(log: seq<Entry<T>>, e: Entry<T>, k: nat)
    requires k <= |log|
    ensures Resyncs(log + [e], k) == Resyncs(log, k)
  {
    if k == 0 {
    } else {
      LogGrows(log, e, k - 1);
    }
  }

  lemma EntryKept(log: seq<Entry<nat>>, e: Entry<nat>, k: nat, period: U32, start: nat)
    requires k < |log| && EntryGood(log, k, period, start)
    ensures EntryGood(log + [e], k, period, start)
  {
    LogGrows(log, e, k);
  }

  /** The third entry from the end ran in an earlier pass than the current one. */
  lemma ThirdLastIsPast(s: Plan, period: U32, start: nat, last: nat)
    requires Good(s, period, start, last) && |s.log| >= MAX_CATCH_UP
    ensures s.log[|s.log| - MAX_CATCH_UP].pass < s.pass
  {
    var n := |s.log|;
    assert EntryGood(s.log, n - 1, period, start) && EntryGood(s.log, n - 2, period, start);
  }

  lemma NextEntryGood(s: Plan, period: U32, start: nat, last: nat, now: nat)
    requires StandsGood(s, period, start, last) && last <= now && s.nextTick <= now
    requires |s.log| >= MAX_CATCH_UP ==> s.log[|s.log| - MAX_CATCH_UP].pass < s.pass
    ensures EntryGood(Planned(s, period, now).log, |s.log|, period, start)
  {
    LogGrows(s.log, Planned(s, period, now).log[|s.log|], |s.log|);
  }

  lemma NewEntryGood(s: Plan, period: U32, start: nat, last: nat, now: nat)
    requires Good(s, period, start, last) && last <= now && s.nextTick <= now
    ensures EntryGood(Planned(s, period, now).log, |s.log|, period, start)
  {
    if |s.log| >= MAX_CATCH_UP {
      ThirdLastIsPast(s, period, start, last);
    }
    NextEntryGood(s, period, start, last, now);
  }

  lemma StandingStep(s: Plan, period: U32, start: nat, last: nat, now: nat)
    requires StandsGood(s, period, start, last) && last <= now
    ensures StandsGood(Planned(s, period, now), period, start, now)
  {
    if s.nextTick <= now {
      LogGrows(s.log, Planned(s, period, now).log[|s.log|], |s.log|);
    }
  }

  lemma GoodStep(s: Plan, period: U32, start: nat, last: nat, now: nat)
    requires Good(s, period, start, last) && last <= now
    ensures Good(Planned(s, period, now), period, start, now)
  {
    StandingStep(s, period, start, last, now);
    if s.nextTick <= now {
      var log := Planned(s, period, now).log;
      NewEntryGood(s, period, start, last, now);
      forall k | 0 <= k < |s.log| ensures EntryGood(log, k, period, start) {
        EntryKept(s.log, log[|s.log|], k, period, start);
      }
    }
  }

  lemma {:induction false} RunsStayGood(start: nat, period: U32, nows: seq<nat>)
    requires Steady(start, nows)
    ensures Good(PlannedAll(start, period, nows), period, start,
                 if nows == [] then start else nows[|nows| - 1])
  {
    if nows == [] {
    } else {
      var before, now := nows[..|nows| - 1], nows[|nows| - 1];
      RunsStayGood(start, period, before);
      GoodStep(PlannedAll(start, period, before), period, start,
               if before == [] then start else before[|before| - 1], now);
    }
  }

  lemma ShowsDifference(a: nat, b: nat)
    ensures b <= a <= b + U64_MAX ==> WrapSub(Clock(a), Clock(b)) == a - b
    ensures a < b <= a + U64_MAX ==> WrapSub(Clock(a), Clock(b)) == U64_MAX + 1 - (b - a)
  {
  }

  lemma ShowsSum(t: nat, period: U32)
    ensures Clock(t + period) == WrapAdd(Clock(t), period)
  {
  }

  lemma LogShownAppend(log: seq<Entry<nat>>, e: Entry<nat>)
    ensures LogShown(log + [e]) == LogShown(log) + [EntryShown(e)]
  {
  }

  /** One reading shows alike when it is not too far from the scheduled tick. */
  lemma ShowsStep(s: Plan, period: U32, now: nat)
    requires now - I64_MAX <= s.nextTick <= now + U32_MAX
    ensures Read(PlanShown(s), period, Clock(now)) == PlanShown(Planned(s, period, now))
  {
    ShowsDifference(now, s.nextTick);
    ShowsSum(s.nextTick, period);
    if s.nextTick <= now {
      LogShownAppend(s.log, Exec(s.nextTick, now, s.pass, s.inPass + 1 >= MAX_CATCH_UP));
    }
  }

  /** No tick is scheduled before the reading at which its pass was entered, and none ran later than half the range
      of the clock. */
  ghost predicate Near(start: nat, nows: seq<nat>, s: Plan) {
    && ReadingAt(start, nows, |nows| - 1 - s.inPass) <= s.nextTick
    && forall k :: 0 <= k < |s.log| ==> s.log[k].now - s.log[k].tick <= I64_MAX
  }

  lemma SteadyBefore(start: nat, nows: seq<nat>)
    requires Steady(start, nows) && nows != []
    ensures Steady(start, nows[..|nows| - 1])
  {
    var before := nows[..|nows| - 1];
    forall i | 0 <= i < |before| ensures before[i] - ReadingAt(start, before, i - MAX_CATCH_UP) <= I64_MAX {
      assert ReadingAt(start, before, i - MAX_CATCH_UP) == ReadingAt(start, nows, i - MAX_CATCH_UP);
    }
  }

  lemma NearStep(start: nat, period: U32, nows: seq<nat>, s: Plan)
    requires Steady(start, nows) && nows != [] && s.inPass < MAX_CATCH_UP
    requires Near(start, nows[..|nows| - 1], s)
    ensures nows[|nows| - 1] - I64_MAX <= s.nextTick
    ensures Near(start, nows, Planned(s, period, nows[|nows| - 1]))
  {
    var n, before := |nows| - 1, nows[..|nows| - 1];
    assert ReadingAt(start, before, n - 1 - s.inPass) == ReadingAt(start, nows, n - 1 - s.inPass);
    assert ReadingAt(start, nows, n - MAX_CATCH_UP) <= ReadingAt(start, nows, n - 1 - s.inPass);
  }

  /** For every steady clock the coded scheduler shows the schedule on unbounded time. */
  lemma {:induction false} ShowsPlan(start: nat, period: U32, nows: seq<nat>)
    requires Steady(start, nows)
    ensures ReadAll(Started(Clock(start)), period, Shown(nows)) == PlanShown(PlannedAll(start, period, nows))
    ensures Near(start, nows, PlannedAll(start, period, nows))
  {
    if nows == [] {
    } else {
      var before, now := nows[..|nows| - 1], nows[|nows| - 1];
      var s := PlannedAll(start, period, before);
      SteadyBefore(start, nows);
      ShowsPlan(start, period, before);
      RunsStayGood(start, period, before);
      NearStep(start, period, nows, s);
      ShowsStep(s, period, now);
      assert Shown(nows)[..|before|] == Shown(before);
    }
  }

  /** The log of the coded scheduler. */
  function Log(start: nat, period: U32, nows: seq<nat>): seq<Entry<U64>> {
    ReadAll(Started(Clock(start)), period, Shown(nows)).log
  }

  /** The scheduler bound, for every steady clock and every executed tick: the coded scheduler's log is what the
      64-bit clock shows of a log that keeps the bound. */
  lemma SchedulerBound(start: nat, period: U32, nows: seq<nat>, k: nat)
    requires Steady(start, nows) && k < |Log(start, period, nows)|
    ensures var log := PlannedAll(start, period, nows).log;
      k < |log| && Log(start, period, nows)[k] == EntryShown(log[k]) && EntryGood(log, k, period, start)
  {
    ShowsPlan(start, period, nows);
    RunsStayGood(start, period, nows);
  }

  /** In numbers: with `k` ticks done and `R` resyncs, (k-R) periods have passed since the start, so the
      average rate is at most one and a half times the nominal one. */
  lemma AverageRate(log: seq<Entry<nat>>, k: nat, period: U32, start: nat)
    requires k < |log| && EntryGood(log, k, period, start)
    ensures (k - Resyncs(log, k)) * period <= log[k].now - start
    ensures 2 * k * period <= 3 * (log[k].now - start)
  {
    RateInNumbers(k, Resyncs(log, k), period, log[k].now - start);
  }

  lemma RateInNumbers(k: nat, r: nat, period: nat, elapsed: int)
    requires 3 * r <= k && Times(k - r, period) <= elapsed
    ensures (k - r) * period <= elapsed && 2 * k * period <= 3 * elapsed
  {
    TimesIsProduct(k - r, period);
    MulLe(2 * k, 3 * (k - r), period);
    assert 3 * (k - r) * period == 3 * ((k - r) * period);
  }

  /** Ticks never decrease over any stretch of the run. */
  lemma {:induction false} TicksNeverDecrease(start: nat, period: U32, nows: seq<nat>, i: nat, j: nat)
    requires Steady(start, nows)
    requires i <= j < |PlannedAll(start, period, nows).log|
    ensures PlannedAll(start, period, nows).log[i].tick <= PlannedAll(start, period, nows).log[j].tick
    decreases j
  {
    if i < j {
      TicksNeverDecrease(start, period, nows, i, j - 1);
      RunsStayGood(start, period, nows);
      assert EntryGood(PlannedAll(start, period, nows).log, j, period, start);
    }
  }

  lemma MulLe(a: int, b: int, p: nat)
    requires a <= b
    ensures a * p <= b * p
  {
    assert b * p - a * p == (b - a) * p;
  }

  // ---------- when a tick runs ----------

  /** The log once the first `n` readings are taken. */
  function LogAfter(start: nat, period: U32, nows: seq<nat>, n: nat): seq<Entry<nat>>
    requires n <= |nows|
  {
    PlannedAll(start, period, nows[..n]).log
  }

  /** When the tick after a log is due. */
  function Due(start: nat, period: U32, log: seq<Entry<nat>>): nat {
    if log == [] then start else Following(log[|log| - 1], period)
  }

  lemma PlannedPrefix(start: nat, period: U32, nows: seq<nat>, n: nat)
    requires n < |nows|
    ensures PlannedAll(start, period, nows[..n + 1])
            == Planned(PlannedAll(start, period, nows[..n]), period, nows[n])
  {
    assert nows[..n + 1][..n] == nows[..n];
  }

  lemma {:induction false} DueIsScheduled(start: nat, period: U32, nows: seq<nat>)
    ensures PlannedAll(start, period, nows).nextTick == Due(start, period, PlannedAll(start, period, nows).log)
  {
    if nows == [] {
    } else {
      DueIsScheduled(start, period, nows[..|nows| - 1]);
    }
  }

  /** Reading `i` ran a tick that did not resync. */
  predicate RanInStep(start: nat, period: U32, nows: seq<nat>, i: int)
    requires i < |nows|
  {
    && i >= 0
    && Due(start, period, LogAfter(start, period, nows, i)) <= nows[i]
    && var log := LogAfter(start, period, nows, i + 1); log != [] && !log[|log| - 1].resync
  }

  /** The steps of the current pass are the latest readings that ran in step. */
  ghost predicate StepsCounted(start: nat, period: U32, nows: seq<nat>, n: nat)
    requires n <= |nows|
  {
    PlannedAll(start, period, nows[..n]).inPass
    == if !RanInStep(start, period, nows, n - 1) then 0
       else if !RanInStep(start, period, nows, n - 2) then 1
       else 2
  }

  lemma StepsCountedStep(start: nat, period: U32, nows: seq<nat>, n: nat)
    requires n < |nows| && StepsCounted(start, period, nows, n)
    ensures StepsCounted(start, period, nows, n + 1)
  {
    PlannedPrefix(start, period, nows, n);
    DueIsScheduled(start, period, nows[..n]);
  }

  lemma {:induction false} StepsAlwaysCounted(start: nat, period: U32, nows: seq<nat>, n: nat)
    requires n <= |nows|
    ensures StepsCounted(start, period, nows, n)
  {
    if n == 0 {
    } else {
      StepsAlwaysCounted(start, period, nows, n - 1);
      StepsCountedStep(start, period, nows, n - 1);
    }
  }

  /** What one more reading does to the log: a tick runs exactly when the time it is due has come, at that scheduled
      time and at this reading, and it resyncs exactly when the two readings before both ran ticks in step. */
  lemma TickRunsExactly(start: nat, period: U32, nows: seq<nat>, n: nat)
    requires n < |nows|
    ensures var before, after := LogAfter(start, period, nows, n), LogAfter(start, period, nows, n + 1);
      if nows[n] < Due(start, period, before) then after == before
      else
        && |after| == |before| + 1 && after[..|before|] == before
        && var e := after[|before|];
           && e.tick == Due(start, period, before) && e.now == nows[n]
           && (e.resync <==> RanInStep(start, period, nows, n - 1) && RanInStep(start, period, nows, n - 2))
  {
    PlannedPrefix(start, period, nows, n);
    DueIsScheduled(start, period, nows[..n]);
    StepsAlwaysCounted(start, period, nows, n);
  }

  /** The overruns are the resyncs of the log, saturating. */
  lemma {:induction false} OverrunsAreResyncs(start: nat, period: U32, nows: seq<nat>)
    ensures var s := PlannedAll(start, period, nows); s.overruns == Min(Resyncs(s.log, |s.log|), U32_MAX)
  {
    if nows == [] {
    } else {
      var s := PlannedAll(start, period, nows[..|nows| - 1]);
      OverrunsAreResyncs(start, period, nows[..|nows| - 1]);
      OverrunsStep(s, period, nows[|nows| - 1]);
    }
  }

  lemma OverrunsStep(s: Plan, period: U32, now: nat)
    requires s.overruns == Min(Resyncs(s.log, |s.log|), U32_MAX)
    ensures var t := Planned(s, period, now); t.overruns == Min(Resyncs(t.log, |t.log|), U32_MAX)
  {
    if s.nextTick <= now {
      LogGrows(s.log, Planned(s, period, now).log[|s.log|], |s.log|);
    }
  }

  // ---------- when a tick resyncs, and when a tick time repeats ----------

  /** The latest `inPass` entries are those of the current pass, none of them a resync. */
  ghost predicate Passes(s: Schedule) {
    && s.inPass < MAX_CATCH_UP && s.inPass <= |s.log|
    && (forall k :: 0 <= k < |s.log| ==>
          if k < |s.log| - s.inPass then s.log[k].pass < s.pass else s.log[k].pass == s.pass)
    && (forall i, j :: 0 <= i < j < |s.log| ==> s.log[i].pass <= s.log[j].pass)
    && forall k :: 0 <= k < |s.log| ==> ResyncsThird(s.log, k)
  }

  /** A tick resyncs exactly when it is the third of its pass. */
  predicate ResyncsThird(log: seq<Entry<U64>>, k: nat)
    requires k < |log|
  {
    log[k].resync <==> k >= 2 && log[k - 2].pass == log[k].pass
  }

  lemma PassesStep(s: Schedule, period: U32, now: U64)
    requires Passes(s)
    ensures Passes(Read(s, period, now))
  {
    var t, n := Read(s, period, now), |s.log|;
    if !NotYet(now, s.nextTick) {
      assert t.log[..n] == s.log;
      forall k | 0 <= k < |t.log| ensures ResyncsThird(t.log, k) {
        if k < n {
          assert ResyncsThird(s.log, k);
        }
      }
    }
  }

  lemma {:induction false} PassesAlways(start: U64, period: U32, nows: seq<U64>)
    ensures Passes(ReadAll(Started(start), period, nows))
  {
    if nows == [] {
    } else {
      PassesAlways(start, period, nows[..|nows| - 1]);
      PassesStep(ReadAll(Started(start), period, nows[..|nows| - 1]), period, nows[|nows| - 1]);
    }
  }

  /** Whatever the clock does, an executed tick resyncs exactly when two earlier ticks ran in its pass:
      being behind by more than three ticks is neither needed nor asked for. */
  lemma ResyncExactly(start: U64, period: U32, nows: seq<U64>, k: nat)
    requires k < |ReadAll(Started(start), period, nows).log|
    ensures var log := ReadAll(Started(start), period, nows).log;
      log[k].resync <==> k >= 2 && log[k - 2].pass == log[k].pass
  {
    PassesAlways(start, period, nows);
    assert ResyncsThird(ReadAll(Started(start), period, nows).log, k);
  }

  lemma ShowsEqual(a: nat, b: nat)
    requires a <= b <= a + U64_MAX
    ensures Clock(a) == Clock(b) <==> a == b
  {
    ShowsDifference(b, a);
  }

  /** For a steady clock, two consecutive ticks carry the same time exactly when the first resynced with no
      lateness, or did not resync and the period is zero. */
  lemma TickRepeatsExactly(start: nat, period: U32, nows: seq<nat>, k: nat)
    requires Steady(start, nows) && k + 1 < |Log(start, period, nows)|
    ensures var log := Log(start, period, nows);
      log[k + 1].tick == log[k].tick <==> if log[k].resync then log[k].now == log[k].tick else period == 0
  {
    var plan := PlannedAll(start, period, nows).log;
    ShowsPlan(start, period, nows);
    RunsStayGood(start, period, nows);
    assert EntryGood(plan, k, period, start) && EntryGood(plan, k + 1, period, start);
    ShowsEqual(plan[k].tick, plan[k + 1].tick);
    ShowsEqual(plan[k].tick, plan[k].now);
  }

  /** Both happen at any period: three readings two periods late resync on time, and the tick repeats. */
  lemma TickMayRepeat(start: U64, period: U32)
    ensures var late := WrapAdd(start, 2 * period);
      var log := ReadAll(Started(start), period, [late, late, late, late]).log;
      |log| == 4 && log[2].resync && log[2].tick == log[3].tick == late
  {
    var late := WrapAdd(start, 2 * period);
    var s0 := Started(start);
    var s1 := Read(s0, period, late);
    var s2 := Read(s1, period, late);
    var s3 := Read(s2, period, late);
    assert [late, late, late, late][..3] == [late, late, late];
    assert [late, late, late][..2] == [late, late] && [late, late][..1] == [late] && [late][..0] == [];
    assert ReadAll(s0, period, []) == s0;
    assert ReadAll(s0, period, [late]) == s1;
    assert ReadAll(s0, period, [late, late]) == s2;
    assert ReadAll(s0, period, [late, late, late]) == s3;
  }
}
