/** The command gateway and its authorization policy (aviate-security/src/gateway.rs,
    aviate-security/src/gateway/source_policy.rs): authorize, check freshness, commit, stamp. */
module Gateway {
  import opened Common
  import opened SlotTable
  import opened AntiReplay
  import CommandIngress

  // ---------- authorization policy ----------

  const MAX_SOURCE_BINDINGS: nat := 8

  datatype CommandSource = Rc | GcsDatalink | Offboard

  datatype CredentialError = TableFull | DuplicateCredential(credential: U16)

  type Policy = map<Principal, CommandSource>

  predicate SameCredential(p: Principal, q: Principal) {
    p.scheme == q.scheme && p.credential == q.credential
  }

  /** One credential speaks for one identity, and the table has eight rows. */
  ghost predicate WellBound(policy: Policy) {
    && |policy| <= MAX_SOURCE_BINDINGS
    && forall p, q :: p in policy && q in policy && SameCredential(p, q) ==> p == q
  }

  class SourcePolicy {
    var bindings: array<Option<Entry<Principal, CommandSource>>>

    ghost predicate Valid()
      reads this, bindings
    {
      && bindings.Length == MAX_SOURCE_BINDINGS && Distinct(bindings[..])
      && WellBound(View())
    }

    ghost function View(): Policy
      reads this, bindings
    {
      MapOf(bindings[..])
    }

    constructor ()
      ensures Valid() && fresh(bindings) && View() == map[]
    {
      bindings := new Option<Entry<Principal, CommandSource>>[MAX_SOURCE_BINDINGS](_ => None);
      new;
      MapOfFree(bindings[..]);
    }

    method Bind(principal: Principal, source: CommandSource) returns (r: Result<(), CredentialError>)
      requires Valid()
      modifies bindings
      ensures Valid()
      ensures r == Err(DuplicateCredential(principal.credential))
              <==> exists p :: p in old(View()) && SameCredential(p, principal)
      ensures r.Ok? ==> View() == old(View())[principal := source]
      ensures r.Err? ==> View() == old(View())
      ensures r == Err(TableFull) ==> |old(View())| == MAX_SOURCE_BINDINGS
    {
      ghost var before := bindings[..];
      var i := 0;
      while i < bindings.Length
        invariant 0 <= i <= bindings.Length
        invariant forall j :: 0 <= j < i && bindings[j].Some?
                    ==> !SameCredential(bindings[j].value.key, principal)
      {
        if bindings[i].Some? && SameCredential(bindings[i].value.key, principal) {
          Lookup(before, i);
          return Err(DuplicateCredential(principal.credential));
        }
        i := i + 1;
      }
      forall p | p in View() ensures !SameCredential(p, principal) {
        var j := Witness(before, p);
      }
      forall j | 0 <= j < |before| ensures !Holds(before, j, principal) {
        if Holds(before, j, principal) { Lookup(before, j); }
      }
      Count(before);
      i := 0;
      while i < bindings.Length
        invariant 0 <= i <= bindings.Length
        invariant forall j :: 0 <= j < i ==> before[j].Some?
        invariant bindings[..] == before
      {
        if bindings[i].None? {
          assert before[i].None?;
          bindings[i] := Some(Entry(principal, source));
          Write(before, i, principal, source);
          assert bindings[..] == before[i := Some(Entry(principal, source))];
          return Ok(());
        }
        i := i + 1;
      }
      r := Err(TableFull);
    }

    method Resolve(principal: Principal) returns (r: Option<CommandSource>)
      requires Valid()
      ensures r == if principal in View() then Some(View()[principal]) else None
    {
      var i := 0;
      while i < bindings.Length
        invariant 0 <= i <= bindings.Length
        invariant forall j :: 0 <= j < i ==> !Holds(bindings[..], j, principal)
      {
        if bindings[i].Some? && bindings[i].value.key == principal {
          Lookup(bindings[..], i);
          return Some(bindings[i].value.value);
        }
        i := i + 1;
      }
      Absent(bindings[..], principal);
      r := None;
    }
  }

  // ---------- admission on values ----------

  datatype TrustedCounter = Rtc(clock: U64) | PersistedHighWater(mark: U64) | NoTrustedTimeSource

  function Value(t: TrustedCounter): U64 {
    match t
    case Rtc(v) => v
    case PersistedHighWater(v) => v
    case NoTrustedTimeSource => 0
  }

  datatype FreshnessConfig = FreshnessConfig(
    initialTrustedCounter: TrustedCounter,
    newStreamMaxAge: U64,
    counterTickUs: U64,
    maxSkew: U64)

  datatype Authenticated = Authenticated(
    principal: Principal, counter: U64, command: CommandIngress.SystemCommand)

  datatype Receipt = Receipt(source: CommandSource, authorityEpoch: U32, sequence: U64, receivedAtUs: U64)

  datatype Verified = Verified(command: CommandIngress.SystemCommand, receipt: Receipt)

  datatype State = State(
    policy: Policy, window: Window, epoch: U32, config: FreshnessConfig, anchor: Option<U64>)

  function NewState(policy: Policy, config: FreshnessConfig): State {
    State(policy, NewWindow(Value(config.initialTrustedCounter), config.newStreamMaxAge), 0, config, None)
  }

  /** Local time since the anchor, in counter units. */
  function ElapsedCounts(config: FreshnessConfig, anchor: U64, nowUs: U64): U64 {
    SatSub(nowUs, anchor) / Max(config.counterTickUs, 1)
  }

  function CeilingAt(config: FreshnessConfig, anchor: U64, nowUs: U64): U64 {
    SatAdd(SatAdd(Value(config.initialTrustedCounter), ElapsedCounts(config, anchor, nowUs)), config.maxSkew)
  }

  /** The first authorised frame sets the time anchor, whether or not it is accepted. */
  function Anchored(g: State, nowUs: U64): State {
    if g.config.initialTrustedCounter.Rtc? && g.anchor.None? then g.(anchor := Some(nowUs)) else g
  }

  function FrameOf(g: State, c: Authenticated, nowUs: U64): Frame {
    var a := Anchored(g, nowUs);
    Frame(c.principal, c.counter,
          if g.config.initialTrustedCounter.Rtc? then Some(CeilingAt(g.config, a.anchor.value, nowUs))
          else None)
  }

  /** One call of `admit`, or of `begin_authority_epoch`. */
  datatype Call = Admission(command: Authenticated, nowUs: U64) | EpochBegin

  function Admit(g: State, a: Call): Result<Verified, AuthError>
    requires a.Admission?
  {
    var p := a.command.principal;
    if p !in g.policy then Err(UnauthorizedSource)
    else match Check(g.window, FrameOf(g, a.command, a.nowUs))
      case Err(e) => Err(e)
      case Ok(_) => Ok(Verified(a.command.command, Receipt(g.policy[p], g.epoch, a.command.counter, a.nowUs)))
  }

  function Next(g: State, a: Call): State {
    if a.EpochBegin? then g.(epoch := (g.epoch + 1) % (U32_MAX + 1))
    else if a.command.principal !in g.policy then g
    else Anchored(g, a.nowUs).(window := Step(g.window, FrameOf(g, a.command, a.nowUs)))
  }

  function Run(g: State, calls: seq<Call>): State
    decreases |calls|
  {
    if calls == [] then g else Run(Next(g, calls[0]), calls[1..])
  }

  predicate From(p: Principal, a: Call) { a.Admission? && a.command.principal == p }

  /** What principal `p` is answered in a run. */
  function Answers(p: Principal, g: State, calls: seq<Call>): (r: seq<Result<Verified, AuthError>>)
    decreases |calls|
  {
    if calls == [] then []
    else (if From(p, calls[0]) then [Admit(g, calls[0])] else [])
         + Answers(p, Next(g, calls[0]), calls[1..])
  }

  /** The run without the other principals' frames. */
  function Only(p: Principal, calls: seq<Call>): (r: seq<Call>) {
    if calls == [] then []
    else (if calls[0].EpochBegin? || From(p, calls[0]) then [calls[0]] else []) + Only(p, calls[1..])
  }

  // ---------- what every run keeps ----------

  /** Only authorised principals hold slots. */
  ghost predicate Linked(g: State) {
    WellBound(g.policy) && g.window.peers.Keys <= g.policy.Keys
  }

  lemma RoomForEveryone(g: State)
    requires Linked(g)
    ensures |g.window.peers| < MAX_SIGNING_PEERS
  {
    SubsetSize(g.window.peers.Keys, g.policy.Keys);
  }

  lemma {:induction false} SubsetSize<T>(a: set<T>, b: set<T>)
    requires a <= b
    ensures |a| <= |b|
  {
    if a != {} {
      var x :| x in a;
      SubsetSize(a - {x}, b - {x});
    }
  }

  lemma {:induction false} RunStaysLinked(g: State, calls: seq<Call>)
    requires Linked(g)
    ensures Linked(Run(g, calls))
    decreases |calls|
  {
    if calls == [] {
    } else {
      RunStaysLinked(Next(g, calls[0]), calls[1..]);
    }
  }

  /** Eight bindings cannot exhaust sixteen slots: after every run, no admission is refused for lack of
      a slot. */
  lemma CapacityNeverExhausted(policy: Policy, config: FreshnessConfig, calls: seq<Call>, a: Call)
    requires WellBound(policy) && a.Admission?
    ensures Admit(Run(NewState(policy, config), calls), a) != Err(ReplayCapacityExhausted)
  {
    RunStaysLinked(NewState(policy, config), calls);
    RoomForEveryone(Run(NewState(policy, config), calls));
  }

  lemma {:induction false} MintedAboveLast(p: Principal, g: State, calls: seq<Call>)
    requires p in g.window.peers
    ensures forall i :: 0 <= i < |Answers(p, g, calls)| && Answers(p, g, calls)[i].Ok?
              ==> Answers(p, g, calls)[i].value.receipt.sequence > g.window.peers[p]
    decreases |calls|
  {
    if calls == [] {
    } else {
      MintedAboveLast(p, Next(g, calls[0]), calls[1..]);
    }
  }

  /** At most once, end to end: the receipts minted for one principal carry strictly increasing
      sequence numbers, so no authenticated frame is turned into two verified commands. */
  lemma {:induction false} MintedAtMostOnce(p: Principal, g: State, calls: seq<Call>, i: nat, j: nat)
    requires i < j < |Answers(p, g, calls)|
    requires Answers(p, g, calls)[i].Ok? && Answers(p, g, calls)[j].Ok?
    ensures Answers(p, g, calls)[i].value.receipt.sequence < Answers(p, g, calls)[j].value.receipt.sequence
    decreases |calls|
  {
    var g', rest := Next(g, calls[0]), calls[1..];
    if !From(p, calls[0]) {
      MintedAtMostOnce(p, g', rest, i, j);
    } else if i > 0 {
      MintedAtMostOnce(p, g', rest, i - 1, j - 1);
    } else {
      MintedAboveLast(p, g', rest);
    }
  }

  /** The authority epochs begun in the run. */
  function Begun(calls: seq<Call>): nat {
    if calls == [] then 0 else (if calls[0].EpochBegin? then 1 else 0) + Begun(calls[1..])
  }

  lemma WrapsOnce(e: U32, n: nat)
    ensures ((e + 1) % (U32_MAX + 1) + n) % (U32_MAX + 1) == (e + 1 + n) % (U32_MAX + 1)
  {
  }

  lemma {:induction false} EpochCounts(g: State, calls: seq<Call>)
    ensures Run(g, calls).epoch == (g.epoch + Begun(calls)) % (U32_MAX + 1)
    decreases |calls|
  {
    if calls == [] {
    } else {
      EpochCounts(Next(g, calls[0]), calls[1..]);
      WrapsOnce(g.epoch, Begun(calls[1..]));
    }
  }

  lemma ComesBackExactly(e: U32, n: nat)
    ensures (e + n) % (U32_MAX + 1) == e <==> n % (U32_MAX + 1) == 0
  {
  }

  /** Commands admitted before and after a run bear different epochs exactly when the number of epochs begun in
      between is not a multiple of 2^32. */
  lemma EpochsTellApartExactly(g: State, a: Call, calls: seq<Call>, b: Call)
    requires a.Admission? && b.Admission? && Admit(g, a).Ok? && Admit(Run(g, calls), b).Ok?
    ensures Admit(g, a).value.receipt.authorityEpoch != Admit(Run(g, calls), b).value.receipt.authorityEpoch
            <==> Begun(calls) % (U32_MAX + 1) != 0
  {
    EpochCounts(g, calls);
    ComesBackExactly(g.epoch, Begun(calls));
  }

  function Epochs(n: nat): seq<Call> { if n == 0 then [] else [EpochBegin] + Epochs(n - 1) }

  lemma {:induction false} EpochsBegin(g: State, n: nat)
    ensures Run(g, Epochs(n)) == g.(epoch := (g.epoch + n) % (U32_MAX + 1))
    decreases n
  {
    if n == 0 {
      assert Epochs(n) == [];
    } else {
      assert Epochs(n)[1..] == Epochs(n - 1);
      EpochsBegin(Next(g, EpochBegin), n - 1);
      WrapsOnce(g.epoch, n - 1);
    }
  }

  /** After 2^32 epochs and nothing else the gateway is the very one it was. */
  lemma EpochsReturn(g: State, n: nat)
    requires n == U32_MAX + 1
    ensures Run(g, Epochs(n)) == g
  {
    EpochsBegin(g, n);
    ComesBackExactly(g.epoch, n);
  }

  /** Without a real-time clock no counter is ever implausibly far ahead. */
  lemma {:induction false} NoCeilingWithoutClock(g: State, calls: seq<Call>, a: Call)
    requires !g.config.initialTrustedCounter.Rtc? && a.Admission?
    ensures Admit(Run(g, calls), a).Err?
            ==> !Admit(Run(g, calls), a).error.CounterImplausiblyAhead?
    decreases |calls|
  {
    if calls == [] {
    } else {
      NoCeilingWithoutClock(Next(g, calls[0]), calls[1..], a);
    }
  }

  // ---------- the forward bound of a real-time clock ----------

  predicate Chronological(calls: seq<Call>) {
    forall i, j :: 0 <= i < j < |calls| && calls[i].Admission? && calls[j].Admission? ==>
      calls[i].nowUs <= calls[j].nowUs
  }

  /** Every admission of the run comes between `t` and `now`. */
  predicate Between(t: U64, calls: seq<Call>, now: U64) {
    t <= now && forall i :: 0 <= i < |calls| && calls[i].Admission? ==> t <= calls[i].nowUs <= now
  }

  /** What elapsed local time justifies at `nowUs`. */
  ghost predicate WithinClock(g: State, nowUs: U64) {
    match g.anchor
    case None => g.window.highWater == Value(g.config.initialTrustedCounter)
    case Some(t) => t <= nowUs && g.window.highWater <= CeilingAt(g.config, t, nowUs)
  }

  lemma DivMonotone(a: nat, b: nat, d: nat)
    requires a <= b && d > 0
    ensures a / d <= b / d
  {
    if a / d > b / d {
      MulStep(d, a / d, b / d);
      assert false;
    }
  }

  lemma MulStep(d: nat, x: int, y: int)
    requires x > y
    ensures d * x >= d * y + d
  {
    assert d * x == d * (y + 1) + d * (x - y - 1);
  }

  lemma CeilingMonotone(config: FreshnessConfig, anchor: U64, t: U64, u: U64)
    requires anchor <= t <= u
    ensures CeilingAt(config, anchor, t) <= CeilingAt(config, anchor, u)
  {
    DivMonotone(t - anchor, u - anchor, Max(config.counterTickUs, 1));
  }

  lemma LaterWithinClock(g: State, t: U64, u: U64)
    requires WithinClock(g, t) && t <= u
    ensures WithinClock(g, u)
  {
    if g.anchor.Some? {
      CeilingMonotone(g.config, g.anchor.value, t, u);
    }
  }

  lemma StepWithinClock(g: State, a: Call, t: U64)
    requires g.config.initialTrustedCounter.Rtc? && WithinClock(g, t) && a.Admission? && t <= a.nowUs
    ensures WithinClock(Next(g, a), a.nowUs)
  {
    LaterWithinClock(g, t, a.nowUs);
  }

  lemma {:induction false} RunWithinClock(g: State, calls: seq<Call>, t: U64, now: U64)
    requires g.config.initialTrustedCounter.Rtc? && WithinClock(g, t)
    requires Chronological(calls) && Between(t, calls, now)
    ensures WithinClock(Run(g, calls), now)
    decreases |calls|
  {
    if calls == [] {
      LaterWithinClock(g, t, now);
    } else if calls[0].EpochBegin? {
      RunWithinClock(Next(g, calls[0]), calls[1..], t, now);
    } else {
      StepWithinClock(g, calls[0], t);
      RunWithinClock(Next(g, calls[0]), calls[1..], calls[0].nowUs, now);
    }
  }

  /** With a clock seed and non-decreasing local time, no run raises the persisted mark beyond
      seed + elapsed ticks + skew, saturating at 2^64-1. */
  lemma HighWaterBoundedByClock(policy: Policy, config: FreshnessConfig, calls: seq<Call>, now: U64)
    requires config.initialTrustedCounter.Rtc? && Chronological(calls) && Between(0, calls, now)
    ensures var g := Run(NewState(policy, config), calls);
      && (g.anchor.None? ==> g.window.highWater == config.initialTrustedCounter.clock)
      && (g.anchor.Some? ==>
            && g.anchor.value <= now
            && g.window.highWater <= Min(U64_MAX,
                 config.initialTrustedCounter.clock
                 + (now - g.anchor.value) / Max(config.counterTickUs, 1)
                 + config.maxSkew))
  {
    RunWithinClock(NewState(policy, config), calls, 0, now);
    RunKeepsConfig(NewState(policy, config), calls);
  }

  lemma {:induction false} RunKeepsConfig(g: State, calls: seq<Call>)
    ensures Run(g, calls).config == g.config && Run(g, calls).policy == g.policy
    decreases |calls|
  {
    if calls == [] {
    } else {
      RunKeepsConfig(Next(g, calls[0]), calls[1..]);
    }
  }

  // ---------- every answer by history ----------

  /** The frames that a run puts to the replay table: those of bound principals. */
  function FramesOf(g: State, calls: seq<Call>): seq<Frame>
    decreases |calls|
  {
    if calls == [] then []
    else
      (if calls[0].Admission? && calls[0].command.principal in g.policy
       then [FrameOf(g, calls[0].command, calls[0].nowUs)] else [])
      + FramesOf(Next(g, calls[0]), calls[1..])
  }

  lemma {:induction false} AfterJoin(w: Window, fs: seq<Frame>, more: seq<Frame>)
    ensures After(w, fs + more) == After(After(w, fs), more)
    decreases |fs|
  {
    if fs == [] {
      assert fs + more == more;
    } else {
      assert (fs + more)[1..] == fs[1..] + more;
      AfterJoin(Step(w, fs[0]), fs[1..], more);
    }
  }

  lemma AfterOne(w: Window, f: Frame)
    ensures After(w, [f]) == Step(w, f)
  {
    assert [f][1..] == [];
    assert After(Step(w, f), []) == Step(w, f);
  }

  lemma {:induction false} WindowFollowsFrames(g: State, calls: seq<Call>)
    ensures Run(g, calls).window == After(g.window, FramesOf(g, calls))
    decreases |calls|
  {
    if calls == [] {
    } else {
      var a, rest := calls[0], FramesOf(Next(g, calls[0]), calls[1..]);
      WindowFollowsFrames(Next(g, a), calls[1..]);
      if a.Admission? && a.command.principal in g.policy {
        AfterOne(g.window, FrameOf(g, a.command, a.nowUs));
        AfterJoin(g.window, [FrameOf(g, a.command, a.nowUs)], rest);
      } else {
        assert FramesOf(g, calls) == rest;
      }
    }
  }

  /** After any run from a new gateway a command is admitted exactly when its principal is bound and its frame is one
      to accept by the frames of bound principals before it; only an unbound principal is unauthorised. */
  lemma AdmittedByHistory(policy: Policy, config: FreshnessConfig, calls: seq<Call>, a: Call)
    requires a.Admission?
    ensures var g0, seed := NewState(policy, config), Value(config.initialTrustedCounter);
      var g := Run(g0, calls);
      var fs := FramesOf(g0, calls) + [FrameOf(g, a.command, a.nowUs)];
      var vs := Verdicts(NewWindow(seed, config.newStreamMaxAge), fs);
      && (Admit(g, a).Ok?
          <==> a.command.principal in policy && ToAccept(seed, config.newStreamMaxAge, fs, vs, |fs| - 1))
      && (Admit(g, a).Err? && a.command.principal in policy ==>
            RefusedFor(seed, config.newStreamMaxAge, fs, vs, |fs| - 1, Admit(g, a).error))
      && (Admit(g, a) == Err(UnauthorizedSource) <==> a.command.principal !in policy)
  {
    var g0, seed := NewState(policy, config), Value(config.initialTrustedCounter);
    var g, n := Run(g0, calls), |FramesOf(g0, calls)|;
    var fs := FramesOf(g0, calls) + [FrameOf(g, a.command, a.nowUs)];
    RunKeepsConfig(g0, calls);
    WindowFollowsFrames(g0, calls);
    VerdictAt(NewWindow(seed, config.newStreamMaxAge), fs, n);
    VerdictByHistory(seed, config.newStreamMaxAge, fs, n);
    assert fs[..n] == FramesOf(g0, calls);
  }

  /** When the first frame of a bound principal came, if any has. */
  function FirstHeard(policy: Policy, calls: seq<Call>): Option<U64> {
    if calls == [] then None
    else if calls[0].Admission? && calls[0].command.principal in policy then Some(calls[0].nowUs)
    else FirstHeard(policy, calls[1..])
  }

  lemma {:induction false} AnchorIsFirstHeard(g: State, calls: seq<Call>)
    requires g.config.initialTrustedCounter.Rtc?
    ensures Run(g, calls).anchor == if g.anchor.Some? then g.anchor else FirstHeard(g.policy, calls)
    decreases |calls|
  {
    if calls == [] {
    } else {
      AnchorIsFirstHeard(Next(g, calls[0]), calls[1..]);
    }
  }

  /** The ceiling of a frame, in numbers: with a clock seed, the seed, the ticks since the first frame of a bound
      principal and the skew, saturating; without one, none. */
  lemma CeilingByHistory(policy: Policy, config: FreshnessConfig, calls: seq<Call>, c: Authenticated, nowUs: U64)
    requires FirstHeard(policy, calls).Some? ==> FirstHeard(policy, calls).value <= nowUs
    ensures var ceiling := FrameOf(Run(NewState(policy, config), calls), c, nowUs).ceiling;
      var first := match FirstHeard(policy, calls) case Some(t) => t case None => nowUs;
      match config.initialTrustedCounter
      case Rtc(clock) =>
        ceiling == Some(Min(U64_MAX, clock + (nowUs - first) / Max(config.counterTickUs, 1) + config.maxSkew))
      case _ => ceiling == None
  {
    RunKeepsConfig(NewState(policy, config), calls);
    if config.initialTrustedCounter.Rtc? {
      AnchorIsFirstHeard(NewState(policy, config), calls);
    }
  }

  /** A minted command is the authenticated one; its receipt carries the source that the initial policy binds its
      principal to, its counter and the time of the call. */
  lemma ReceiptIsTrue(policy: Policy, config: FreshnessConfig, calls: seq<Call>, a: Call)
    requires a.Admission? && Admit(Run(NewState(policy, config), calls), a).Ok?
    ensures var minted := Admit(Run(NewState(policy, config), calls), a).value;
      && a.command.principal in policy
      && minted.command == a.command.command
      && minted.receipt.source == policy[a.command.principal]
      && minted.receipt.sequence == a.command.counter
      && minted.receipt.receivedAtUs == a.nowUs
      && minted.receipt.authorityEpoch == Begun(calls) % (U32_MAX + 1)
  {
    RunKeepsConfig(NewState(policy, config), calls);
    EpochCounts(NewState(policy, config), calls);
  }

  // ---------- independence through the gateway ----------

  /** The seed and skew alone already saturate every ceiling. */
  predicate Saturated(config: FreshnessConfig) {
    Value(config.initialTrustedCounter) + config.maxSkew >= U64_MAX
  }

  /** Nothing but the time anchor can couple `p` to the others, and here it does not. */
  predicate Decoupled(p: Principal, g: State) {
    || p !in g.policy
    || !g.config.initialTrustedCounter.Rtc?
    || Saturated(g.config)
    || g.anchor.Some?
    || g.policy.Keys <= {p}
  }

  ghost predicate Aligned(p: Principal, g: State, h: State) {
    && Linked(g) && Linked(h)
    && g.policy == h.policy && g.config == h.config && g.epoch == h.epoch
    && AgreeOn(p, g.window, h.window)
    && Decoupled(p, g)
    && (g.anchor == h.anchor || p !in g.policy || Saturated(g.config))
  }

  lemma SaturatedCeiling(config: FreshnessConfig, anchor: U64, nowUs: U64)
    requires Saturated(config)
    ensures CeilingAt(config, anchor, nowUs) == U64_MAX
  {
    var e: U64 := ElapsedCounts(config, anchor, nowUs);
    assert SatAdd(Value(config.initialTrustedCounter), e) >= Value(config.initialTrustedCounter);
  }

  lemma AlignedFrames(p: Principal, g: State, h: State, a: Call)
    requires Aligned(p, g, h) && p in g.policy && From(p, a)
    ensures FrameOf(g, a.command, a.nowUs) == FrameOf(h, a.command, a.nowUs)
  {
    if g.config.initialTrustedCounter.Rtc? && Saturated(g.config) {
      SaturatedCeiling(g.config, Anchored(g, a.nowUs).anchor.value, a.nowUs);
      SaturatedCeiling(h.config, Anchored(h, a.nowUs).anchor.value, a.nowUs);
    }
  }

  /** One frame through aligned windows, whatever its ceiling. */
  lemma AgreedCheck(a: Window, b: Window, f: Frame)
    requires AgreeOn(f.principal, a, b)
    requires |a.peers| < MAX_SIGNING_PEERS && |b.peers| < MAX_SIGNING_PEERS
    ensures Check(a, f) == Check(b, f) && AgreeOn(f.principal, Step(a, f), Step(b, f))
  {
  }

  lemma AlignedStep(p: Principal, g: State, h: State, a: Call)
    requires Aligned(p, g, h)
    ensures From(p, a) ==> Admit(g, a) == Admit(h, a)
    ensures a.EpochBegin? || From(p, a) ==> Aligned(p, Next(g, a), Next(h, a))
    ensures a.Admission? && !From(p, a) ==> Aligned(p, Next(g, a), h)
  {
    if From(p, a) && p in g.policy {
      RoomForEveryone(g);
      RoomForEveryone(h);
      AlignedFrames(p, g, h, a);
      AgreedCheck(g.window, h.window, FrameOf(g, a.command, a.nowUs));
    }
  }

  lemma {:induction false} DecoupledErasure(p: Principal, g: State, h: State, calls: seq<Call>)
    requires Aligned(p, g, h)
    ensures Answers(p, g, calls) == Answers(p, h, Only(p, calls))
    decreases |calls|
  {
    if calls == [] {
    } else {
      var a, rest := calls[0], Only(p, calls[1..]);
      AlignedStep(p, g, h, a);
      if a.EpochBegin? || From(p, a) {
        assert Only(p, calls) == [a] + rest && ([a] + rest)[1..] == rest;
        DecoupledErasure(p, Next(g, a), Next(h, a), calls[1..]);
      } else {
        assert Only(p, calls) == rest;
        DecoupledErasure(p, Next(g, a), h, calls[1..]);
      }
    }
  }

  /** A run in which another principal's earlier frame, by setting the anchor, decides whether `p` is
      believed: `p` sends one tick later, one count beyond seed + skew. */
  function CouplingRun(p: Principal, q: Principal, config: FreshnessConfig): seq<Call>
    requires !Saturated(config)
  {
    [Admission(Authenticated(q, 0, CommandIngress.Arm), 0),
     Admission(Authenticated(p, Value(config.initialTrustedCounter) + config.maxSkew + 1, CommandIngress.Arm),
             Max(config.counterTickUs, 1))]
  }

  lemma AnchorCouples(p: Principal, q: Principal, policy: Policy, config: FreshnessConfig)
    requires p != q && p in policy && q in policy
    requires config.initialTrustedCounter.Rtc? && !Saturated(config)
    ensures var g, run := NewState(policy, config), CouplingRun(p, q, config);
      Answers(p, g, run) != Answers(p, g, Only(p, run))
  {
    var g, run := NewState(policy, config), CouplingRun(p, q, config);
    var g1, second := Next(g, run[0]), run[1];
    assert run[1..] == [second] && [second][1..] == [];
    assert Only(p, [second]) == [second] + Only(p, [second][1..]);
    assert Only(p, run) == Only(p, run[1..]) == [second];
    assert g1 == g.(anchor := Some(0));
    OneTickCeiling(config);
    assert Admit(g1, second).Ok?;
    assert Admit(g, second).Err?;
    assert Answers(p, g1, [second]) == [Admit(g1, second)] + Answers(p, Next(g1, second), [second][1..]);
    assert Answers(p, g, [second]) == [Admit(g, second)] + Answers(p, Next(g, second), [second][1..]);
    assert Answers(p, g, run) == Answers(p, g1, [second]);
    assert Answers(p, g, run)[0].Ok? && Answers(p, g, Only(p, run))[0].Err?;
  }

  lemma OneTickCeiling(config: FreshnessConfig)
    requires !Saturated(config)
    ensures var limit := Value(config.initialTrustedCounter) + config.maxSkew;
      CeilingAt(config, 0, Max(config.counterTickUs, 1)) == limit + 1
      && forall t: U64 :: CeilingAt(config, t, t) == limit
  {
    var tick := Max(config.counterTickUs, 1);
    assert tick / tick == 1;
    assert 0 / tick == 0;
  }

  /** Exactly when the answers to `p` never depend on the others: from a new gateway they equal, in
      every run, the answers in the run with the others erased if and only if the gateway is decoupled
      for `p`. */
  lemma GatewayIndependence(p: Principal, policy: Policy, config: FreshnessConfig)
    requires WellBound(policy)
    ensures (forall run :: Answers(p, NewState(policy, config), run)
                           == Answers(p, NewState(policy, config), Only(p, run)))
            <==> Decoupled(p, NewState(policy, config))
  {
    var g := NewState(policy, config);
    if Decoupled(p, g) {
      forall run ensures Answers(p, g, run) == Answers(p, g, Only(p, run)) {
        DecoupledErasure(p, g, g, run);
      }
    } else {
      var q :| q in policy && q != p;
      AnchorCouples(p, q, policy, config);
    }
  }

  // ---------- the gateway object ----------

  class CommandGateway {
    const sourcePolicy: SourcePolicy
    const antiReplay: AntiReplayWindow
    const freshness: FreshnessConfig
    var authorityEpoch: U32
    var epochNowUs: Option<U64>

    ghost predicate Valid()
      reads this, sourcePolicy, sourcePolicy.bindings, antiReplay, antiReplay.slots
    {
      && sourcePolicy.Valid() && antiReplay.Valid()
      && sourcePolicy.bindings as object != antiReplay.slots
    }

    ghost function View(): State
      reads this, sourcePolicy, sourcePolicy.bindings, antiReplay, antiReplay.slots
    {
      State(sourcePolicy.View(), antiReplay.View(), authorityEpoch, freshness, epochNowUs)
    }

    constructor (policy: SourcePolicy, config: FreshnessConfig)
      requires policy.Valid()
      ensures Valid() && sourcePolicy == policy && fresh(antiReplay) && fresh(antiReplay.slots)
      ensures View() == NewState(policy.View(), config)
    {
      var seed := Value(config.initialTrustedCounter);
      sourcePolicy := policy;
      antiReplay := new AntiReplayWindow(seed, config.newStreamMaxAge);
      freshness := config;
      authorityEpoch := 0;
      epochNowUs := None;
    }

    method PlausibleCeiling(nowUs: U64) returns (ceiling: Option<U64>)
      requires Valid()
      modifies this`epochNowUs
      ensures View() == Anchored(old(View()), nowUs)
      ensures forall c: Authenticated :: FrameOf(old(View()), c, nowUs) == Frame(c.principal, c.counter, ceiling)
    {
      if !freshness.initialTrustedCounter.Rtc? {
        return None;
      }
      if epochNowUs.None? {
        epochNowUs := Some(nowUs);
      }
      var elapsed := SatSub(nowUs, epochNowUs.value) / Max(freshness.counterTickUs, 1);
      ceiling := Some(SatAdd(SatAdd(Value(freshness.initialTrustedCounter), elapsed), freshness.maxSkew));
    }

    /** A refusal leaves the window as it was; an unauthorised command changes nothing at all. */
    method AdmitCommand(command: Authenticated, nowUs: U64) returns (r: Result<Verified, AuthError>)
      requires Valid()
      modifies this`epochNowUs, antiReplay, antiReplay.slots
      ensures Valid() && antiReplay.slots == old(antiReplay.slots)
      ensures r == Admit(old(View()), Admission(command, nowUs))
      ensures View() == Next(old(View()), Admission(command, nowUs))
      ensures r.Err? ==> View().window == old(View()).window
      ensures r.Ok? ==>
                && command.principal in sourcePolicy.View()
                && r.value.command == command.command
                && r.value.receipt
                   == Receipt(sourcePolicy.View()[command.principal], authorityEpoch, command.counter, nowUs)
    {
      var source := sourcePolicy.Resolve(command.principal);
      if source.None? {
        return Err(UnauthorizedSource);
      }
      var ceiling := PlausibleCeiling(nowUs);
      var verdict := antiReplay.CheckAndUpdate(command.principal, command.counter, ceiling);
      if verdict.Err? {
        return Err(verdict.error);
      }
      r := Ok(Verified(command.command, Receipt(source.value, authorityEpoch, command.counter, nowUs)));
    }

    method BeginAuthorityEpoch()
      requires Valid()
      modifies this`authorityEpoch
      ensures View() == Next(old(View()), EpochBegin)
    {
      authorityEpoch := (authorityEpoch + 1) % (U32_MAX + 1);
    }
  }
}
