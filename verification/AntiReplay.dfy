/** Anti-replay protection with per-principal monotonic counters
    (aviate-security/src/anti_replay.rs).

    `Window` is the abstract state, a bounded map from principals to last accepted counters.
    `AntiReplayWindow` is the sixteen-slot table of the source, proved to refine it. The
    properties of whole runs are proved about the abstract state. */
module AntiReplay {
  import opened Common
  import opened SlotTable

  const MAX_SIGNING_PEERS: nat := 16

  datatype SecurityScheme = MavlinkSigning

  datatype Principal = Principal(scheme: SecurityScheme, credential: U16, identity: U16)

  datatype AuthError =
    | ReplayAttack
    | StaleNewStream(counter: U64, localCounter: U64)
    | CounterImplausiblyAhead(ahead: U64, ceiling: U64)
    | ReplayCapacityExhausted
    | UnauthorizedSource

  type Verdict = Result<(), AuthError>

  /** One call of `check_and_update`. */
  datatype Frame = Frame(principal: Principal, counter: U64, ceiling: Option<U64>)

  datatype Window = Window(
    peers: map<Principal, U64>,
    freshnessFloor: U64,
    highWater: U64,
    newStreamMaxAge: U64)

  function NewWindow(trusted: U64, maxAge: U64): Window {
    Window(map[], trusted, trusted, maxAge)
  }

  /** The least counter a new stream may start with, apart from being positive. */
  function Threshold(w: Window): U64 {
    SatSub(w.freshnessFloor, w.newStreamMaxAge)
  }

  predicate BelowCeiling(f: Frame) {
    f.ceiling.Some? ==> f.counter <= f.ceiling.value
  }

  /** A frame that the table would take from an untracked principal if it has room. */
  predicate Fresh(w: Window, f: Frame) {
    BelowCeiling(f) && f.counter > 0 && f.counter >= Threshold(w)
  }

  function Check(w: Window, f: Frame): Verdict {
    if !BelowCeiling(f) then Err(CounterImplausiblyAhead(f.counter, f.ceiling.value))
    else if f.principal in w.peers then
      if f.counter <= w.peers[f.principal] then Err(ReplayAttack) else Ok(())
    else if f.counter == 0 then Err(ReplayAttack)
    else if f.counter < Threshold(w) then Err(StaleNewStream(f.counter, w.freshnessFloor))
    else if |w.peers| >= MAX_SIGNING_PEERS then Err(ReplayCapacityExhausted)
    else Ok(())
  }

  function Step(w: Window, f: Frame): Window {
    if Check(w, f).Ok? then
      w.(peers := w.peers[f.principal := f.counter], highWater := Max(w.highWater, f.counter))
    else w
  }

  function After(w: Window, fs: seq<Frame>): Window
    decreases |fs|
  {
    if fs == [] then w else After(Step(w, fs[0]), fs[1..])
  }

  function Verdicts(w: Window, fs: seq<Frame>): (vs: seq<Verdict>)
    ensures |vs| == |fs|
    decreases |fs|
  {
    if fs == [] then [] else [Check(w, fs[0])] + Verdicts(Step(w, fs[0]), fs[1..])
  }

  // ---------- at most once ----------

  /** A tracked principal is accepted only above its last counter, however far on. */
  lemma {:induction false} AcceptedAboveLast(w: Window, fs: seq<Frame>, j: nat)
    requires j < |fs| && Verdicts(w, fs)[j].Ok? && fs[j].principal in w.peers
    ensures fs[j].counter > w.peers[fs[j].principal]
    decreases |fs|
  {
    if j == 0 {
    } else {
      AcceptedAboveLast(Step(w, fs[0]), fs[1..], j - 1);
    }
  }

  /** In every run, the accepted counters of one principal strictly increase; so no
      (principal, counter) pair is accepted twice. */
  lemma {:induction false} AcceptedCountersIncrease(w: Window, fs: seq<Frame>, i: nat, j: nat)
    requires i < j < |fs| && fs[i].principal == fs[j].principal
    requires Verdicts(w, fs)[i].Ok? && Verdicts(w, fs)[j].Ok?
    ensures fs[i].counter < fs[j].counter
    decreases |fs|
  {
    if i == 0 {
      AcceptedAboveLast(Step(w, fs[0]), fs[1..], j - 1);
    } else {
      AcceptedCountersIncrease(Step(w, fs[0]), fs[1..], i - 1, j - 1);
    }
  }

  /** The state every run keeps: at most sixteen principals, a floor and an age that never move,
      a high-water mark that never falls and covers every tracked counter. */
  ghost predicate Bounded(w: Window) {
    && |w.peers| <= MAX_SIGNING_PEERS
    && w.freshnessFloor <= w.highWater
    && forall p :: p in w.peers ==> 0 < w.peers[p] <= w.highWater && Threshold(w) <= w.peers[p]
  }

  lemma {:induction false} RunsStayBounded(w: Window, fs: seq<Frame>)
    requires Bounded(w)
    ensures var w' := After(w, fs);
      && Bounded(w') && w.peers.Keys <= w'.peers.Keys && w.highWater <= w'.highWater
      && w'.freshnessFloor == w.freshnessFloor && w'.newStreamMaxAge == w.newStreamMaxAge
    decreases |fs|
  {
    if fs == [] {
    } else {
      assert Bounded(Step(w, fs[0]));
      RunsStayBounded(Step(w, fs[0]), fs[1..]);
    }
  }

  /** Every accepted counter is positive, at or above the threshold, and covered by the
      high-water mark the run ends with. */
  lemma {:induction false} AcceptedWithinMarks(w: Window, fs: seq<Frame>, j: nat)
    requires Bounded(w) && j < |fs| && Verdicts(w, fs)[j].Ok?
    ensures 0 < fs[j].counter <= After(w, fs).highWater && Threshold(w) <= fs[j].counter
    decreases |fs|
  {
    RunsStayBounded(w, fs[..1]);
    assert fs[..1] == [fs[0]] && fs[..1][1..] == [];
    assert After(w, fs[..1]) == Step(w, fs[0]);
    if j == 0 {
      RunsStayBounded(Step(w, fs[0]), fs[1..]);
    } else {
      AcceptedWithinMarks(Step(w, fs[0]), fs[1..], j - 1);
    }
  }

  // ---------- independence of principals ----------

  function Only(p: Principal, fs: seq<Frame>): (r: seq<Frame>) {
    if fs == [] then []
    else (if fs[0].principal == p then [fs[0]] else []) + Only(p, fs[1..])
  }

  /** The verdicts that principal `p` sees in the run over all of `fs`. */
  function SeenBy(p: Principal, w: Window, fs: seq<Frame>): (r: seq<Verdict>)
    decreases |fs|
  {
    if fs == [] then []
    else (if fs[0].principal == p then [Check(w, fs[0])] else [])
         + SeenBy(p, Step(w, fs[0]), fs[1..])
  }

  /** At the first frame that would open `p`'s stream, every slot is held by others. */
  predicate CrowdedOut(p: Principal, w: Window, fs: seq<Frame>)
    decreases |fs|
  {
    if fs == [] || p in w.peers then false
    else if fs[0].principal == p && Fresh(w, fs[0]) then |w.peers| >= MAX_SIGNING_PEERS
    else CrowdedOut(p, Step(w, fs[0]), fs[1..])
  }

  /** Two windows that treat `p` alike: same thresholds, same record of `p`. */
  ghost predicate AgreeOn(p: Principal, a: Window, b: Window) {
    && a.freshnessFloor == b.freshnessFloor && a.newStreamMaxAge == b.newStreamMaxAge
    && (p in a.peers <==> p in b.peers)
    && (p in a.peers ==> a.peers[p] == b.peers[p])
  }

  /** The two-run argument: `a` carries the joint run, `b` the run with the others erased. */
  lemma {:induction false} ErasureSimulation(p: Principal, a: Window, b: Window, fs: seq<Frame>)
    requires AgreeOn(p, a, b)
    requires p in b.peers || |b.peers| < MAX_SIGNING_PEERS
    ensures SeenBy(p, a, fs) == Verdicts(b, Only(p, fs)) <==> !CrowdedOut(p, a, fs)
    decreases |fs|
  {
    if fs == [] {
    } else {
      var f, a' := fs[0], Step(a, fs[0]);
      if f.principal == p {
        var b' := Step(b, f);
        var rest := Only(p, fs[1..]);
        assert Only(p, fs) == [f] + rest && ([f] + rest)[1..] == rest;
        assert Verdicts(b, Only(p, fs)) == [Check(b, f)] + Verdicts(b', rest);
        assert SeenBy(p, a, fs) == [Check(a, f)] + SeenBy(p, a', fs[1..]);
        if Check(a, f) == Check(b, f) {
          ErasureSimulation(p, a', b', fs[1..]);
          assert ([Check(a, f)] + SeenBy(p, a', fs[1..]))[1..] == SeenBy(p, a', fs[1..]);
          assert ([Check(b, f)] + Verdicts(b', rest))[1..] == Verdicts(b', rest);
        } else {
          assert Fresh(a, f) && |a.peers| >= MAX_SIGNING_PEERS;
          assert SeenBy(p, a, fs)[0] != Verdicts(b, Only(p, fs))[0];
        }
      } else {
        assert SeenBy(p, a, fs) == SeenBy(p, a', fs[1..]);
        assert Only(p, fs) == Only(p, fs[1..]);
        ErasureSimulation(p, a', b, fs[1..]);
      }
    }
  }

  /** Independence: the verdicts on `p`'s frames are those of the run with every other
      principal's frames erased, exactly unless `p` was crowded out of the table. */
  lemma Independence(p: Principal, w: Window, fs: seq<Frame>)
    requires p in w.peers || |w.peers| < MAX_SIGNING_PEERS
    ensures SeenBy(p, w, fs) == Verdicts(w, Only(p, fs)) <==> !CrowdedOut(p, w, fs)
  {
    ErasureSimulation(p, w, w, fs);
  }

  /** A tracked principal can never be crowded out again. */
  lemma TrackedIsIndependent(p: Principal, w: Window, fs: seq<Frame>)
    requires p in w.peers
    ensures SeenBy(p, w, fs) == Verdicts(w, Only(p, fs))
  {
    ErasureSimulation(p, w, w, fs);
  }

  /** `n` distinct principals, none of them credential 100, each sending counter 1. */
  function Crowd(n: nat): (fs: seq<Frame>)
    requires n <= 100
  {
    seq(n, i requires 0 <= i < n => Frame(Principal(MavlinkSigning, i, 0), 1, None))
  }

  lemma {:induction false} CrowdFills(n: nat, k: nat, w: Window)
    requires k <= n <= 16 && |w.peers| == k && w.freshnessFloor == 0
    requires forall p :: p in w.peers ==> p.credential < k
    ensures var w' := After(w, Crowd(n)[k..]);
      |w'.peers| == n && w'.freshnessFloor == 0 && forall p :: p in w'.peers ==> p.credential < n
    decreases n - k
  {
    if k < n {
      var f := Crowd(n)[k];
      assert Crowd(n)[k..][0] == f && Crowd(n)[k..][1..] == Crowd(n)[k + 1..];
      CrowdFills(n, k + 1, Step(w, f));
    }
  }

  lemma {:induction false} CrowdedOutAppend(p: Principal, w: Window, fs: seq<Frame>, g: Frame)
    requires p !in w.peers && g.principal == p && Fresh(w, g)
    requires forall i :: 0 <= i < |fs| ==> fs[i].principal != p
    requires |After(w, fs).peers| >= MAX_SIGNING_PEERS
    ensures CrowdedOut(p, w, fs + [g])
    decreases |fs|
  {
    if fs == [] {
      assert fs + [g] == [g];
    } else {
      assert (fs + [g])[1..] == fs[1..] + [g];
      CrowdedOutAppend(p, Step(w, fs[0]), fs[1..], g);
    }
  }

  /** The exception is real: sixteen earlier peers crowd out a seventeenth. */
  lemma SeventeenthPeerIsCrowdedOut()
    ensures var p := Principal(MavlinkSigning, 100, 0);
      CrowdedOut(p, NewWindow(0, 0), Crowd(16) + [Frame(p, 1, None)])
  {
    var w := NewWindow(0, 0);
    CrowdFills(16, 0, w);
    assert Crowd(16)[0..] == Crowd(16);
    CrowdedOutAppend(Principal(MavlinkSigning, 100, 0), w, Crowd(16),
                     Frame(Principal(MavlinkSigning, 100, 0), 1, None));
  }

  // ---------- every verdict by history ----------

  /** Frame `i` was accepted and came from `p`. */
  predicate Accepted(fs: seq<Frame>, vs: seq<Verdict>, p: Principal, i: nat) {
    i < |fs| && i < |vs| && vs[i].Ok? && fs[i].principal == p
  }

  /** An earlier frame of the principal was accepted. */
  ghost predicate HeardBefore(fs: seq<Frame>, vs: seq<Verdict>, n: nat, p: Principal) {
    exists i: nat :: i < n && Accepted(fs, vs, p, i)
  }

  /** And all those that were had counters below `c`. */
  ghost predicate AboveAccepted(fs: seq<Frame>, vs: seq<Verdict>, n: nat, p: Principal, c: U64) {
    forall i: nat :: i < n && Accepted(fs, vs, p, i) ==> fs[i].counter < c
  }

  /** The principals of the frames accepted among the first `n`. */
  function PeersBefore(fs: seq<Frame>, vs: seq<Verdict>, n: nat): set<Principal>
    requires n <= |fs| && n <= |vs|
  {
    set i | 0 <= i < n && vs[i].Ok? :: fs[i].principal
  }

  predicate Tracks(w: Window, p: Principal, c: U64) { p in w.peers && w.peers[p] < c }

  ghost predicate HighestIs(w: Window, fs: seq<Frame>, vs: seq<Verdict>, n: nat, p: Principal, c: U64) {
    Tracks(w, p, c) <==> AboveAccepted(fs, vs, n, p, c)
  }

  /** The table after a run, read off the run: who was accepted, and each one's highest counter. */
  ghost predicate TableIs(w: Window, fs: seq<Frame>, vs: seq<Verdict>, n: nat)
    requires n <= |fs| && n <= |vs|
  {
    && w.peers.Keys == PeersBefore(fs, vs, n)
    && forall p, c: U64 :: p in w.peers ==> HighestIs(w, fs, vs, n, p, c)
  }

  lemma {:induction false} AfterAppend(w: Window, fs: seq<Frame>, f: Frame)
    ensures After(w, fs + [f]) == Step(After(w, fs), f)
    decreases |fs|
  {
    if fs == [] {
      assert fs + [f] == [f] && [f][1..] == [];
      assert After(w, [f]) == After(Step(w, f), []);
    } else {
      assert (fs + [f])[1..] == fs[1..] + [f];
      AfterAppend(Step(w, fs[0]), fs[1..], f);
    }
  }

  lemma PeersGrow(fs: seq<Frame>, vs: seq<Verdict>, n: nat)
    requires n < |fs| && n < |vs|
    ensures PeersBefore(fs, vs, n + 1)
            == PeersBefore(fs, vs, n) + (if vs[n].Ok? then {fs[n].principal} else {})
  {
  }

  lemma AboveGrows(fs: seq<Frame>, vs: seq<Verdict>, n: nat, p: Principal, c: U64)
    requires n < |fs| && n < |vs|
    ensures AboveAccepted(fs, vs, n + 1, p, c)
            <==> AboveAccepted(fs, vs, n, p, c) && (Accepted(fs, vs, p, n) ==> fs[n].counter < c)
  {
  }

  lemma HeardIsTracked(fs: seq<Frame>, vs: seq<Verdict>, n: nat, p: Principal)
    requires n <= |fs| && n <= |vs|
    ensures HeardBefore(fs, vs, n, p) <==> p in PeersBefore(fs, vs, n)
  {
    if HeardBefore(fs, vs, n, p) {
      var i: nat :| i < n && Accepted(fs, vs, p, i);
    }
    if p in PeersBefore(fs, vs, n) {
      var i :| 0 <= i < n && vs[i].Ok? && fs[i].principal == p;
      assert Accepted(fs, vs, p, i);
    }
  }

  lemma UnheardIsBelow(fs: seq<Frame>, vs: seq<Verdict>, n: nat, p: Principal, c: U64)
    requires n <= |fs| && n <= |vs| && p !in PeersBefore(fs, vs, n)
    ensures AboveAccepted(fs, vs, n, p, c)
  {
    HeardIsTracked(fs, vs, n, p);
  }

  lemma HighestStep(w: Window, fs: seq<Frame>, vs: seq<Verdict>, n: nat, p: Principal, c: U64)
    requires n < |fs| && n < |vs| && w.peers.Keys == PeersBefore(fs, vs, n) && vs[n] == Check(w, fs[n])
    requires p in w.peers ==> HighestIs(w, fs, vs, n, p, c)
    requires p in Step(w, fs[n]).peers
    ensures HighestIs(Step(w, fs[n]), fs, vs, n + 1, p, c)
  {
    AboveGrows(fs, vs, n, p, c);
    if p !in w.peers {
      UnheardIsBelow(fs, vs, n, p, c);
    }
  }

  lemma TableStep(w: Window, fs: seq<Frame>, vs: seq<Verdict>, n: nat)
    requires n < |fs| && n < |vs| && TableIs(w, fs, vs, n) && vs[n] == Check(w, fs[n])
    ensures TableIs(Step(w, fs[n]), fs, vs, n + 1)
  {
    var next, m := Step(w, fs[n]), n + 1;
    PeersGrow(fs, vs, n);
    forall p, c: U64 | p in next.peers ensures HighestIs(next, fs, vs, m, p, c) {
      HighestStep(w, fs, vs, n, p, c);
    }
  }

  lemma {:induction false} TableFollowsHistory(seed: U64, maxAge: U64, fs: seq<Frame>, n: nat)
    requires n <= |fs|
    ensures var w := NewWindow(seed, maxAge); TableIs(After(w, fs[..n]), fs, Verdicts(w, fs), n)
  {
    var w := NewWindow(seed, maxAge);
    if n == 0 {
    } else {
      TableFollowsHistory(seed, maxAge, fs, n - 1);
      assert fs[..n] == fs[..n - 1] + [fs[n - 1]];
      AfterAppend(w, fs[..n - 1], fs[n - 1]);
      VerdictAt(w, fs, n - 1);
      TableStep(After(w, fs[..n - 1]), fs, Verdicts(w, fs), n - 1);
    }
  }

  /** Frame `n` is one to accept: no clock forbids its counter, and it is above every counter accepted from its
      principal, or opens a stream that is recent enough while a slot is free. */
  ghost predicate ToAccept(seed: U64, maxAge: U64, fs: seq<Frame>, vs: seq<Verdict>, n: nat)
    requires n < |fs| && n <= |vs|
  {
    var f := fs[n];
    && (f.ceiling.Some? ==> f.counter <= f.ceiling.value)
    && if HeardBefore(fs, vs, n, f.principal) then AboveAccepted(fs, vs, n, f.principal, f.counter)
       else 0 < f.counter && seed <= f.counter + maxAge && |PeersBefore(fs, vs, n)| < MAX_SIGNING_PEERS
  }

  /** What each refusal means. */
  ghost predicate RefusedFor(seed: U64, maxAge: U64, fs: seq<Frame>, vs: seq<Verdict>, n: nat, e: AuthError)
    requires n < |fs| && n <= |vs|
  {
    var f, heard := fs[n], HeardBefore(fs, vs, n, fs[n].principal);
    if f.ceiling.Some? && f.ceiling.value < f.counter then e == CounterImplausiblyAhead(f.counter, f.ceiling.value)
    else if heard then e == ReplayAttack && !AboveAccepted(fs, vs, n, f.principal, f.counter)
    else if f.counter == 0 then e == ReplayAttack
    else if f.counter + maxAge < seed then e == StaleNewStream(f.counter, seed)
    else e == ReplayCapacityExhausted && |PeersBefore(fs, vs, n)| >= MAX_SIGNING_PEERS
  }

  /** In every run of a new table a frame is accepted exactly when it is one to accept, by what was accepted before
      it, and every refusal says why it is not. */
  lemma VerdictByHistory(seed: U64, maxAge: U64, fs: seq<Frame>, n: nat)
    requires n < |fs|
    ensures var vs := Verdicts(NewWindow(seed, maxAge), fs);
      && (vs[n].Ok? <==> ToAccept(seed, maxAge, fs, vs, n))
      && (vs[n].Err? ==> RefusedFor(seed, maxAge, fs, vs, n, vs[n].error))
  {
    var w, vs := NewWindow(seed, maxAge), Verdicts(NewWindow(seed, maxAge), fs);
    TableFollowsHistory(seed, maxAge, fs, n);
    RunsStayBounded(w, fs[..n]);
    VerdictAt(w, fs, n);
    HeardIsTracked(fs, vs, n, fs[n].principal);
    assert fs[n].principal in After(w, fs[..n]).peers ==>
        HighestIs(After(w, fs[..n]), fs, vs, n, fs[n].principal, fs[n].counter);
    assert |After(w, fs[..n]).peers| == |After(w, fs[..n]).peers.Keys|;
  }

  /** The mark is the seed or an accepted counter, and below neither. */
  ghost predicate HighestOf(seed: U64, fs: seq<Frame>, vs: seq<Verdict>, n: nat, mark: U64)
    requires n <= |fs| && n <= |vs|
  {
    && seed <= mark && (forall i :: 0 <= i < n && vs[i].Ok? ==> fs[i].counter <= mark)
    && (mark == seed || exists i :: 0 <= i < n && vs[i].Ok? && fs[i].counter == mark)
  }

  lemma HighestOfStep(w: Window, seed: U64, fs: seq<Frame>, vs: seq<Verdict>, n: nat)
    requires n < |fs| && n < |vs| && vs[n] == Check(w, fs[n]) && HighestOf(seed, fs, vs, n, w.highWater)
    ensures HighestOf(seed, fs, vs, n + 1, Step(w, fs[n]).highWater)
  {
    if vs[n].Ok? && w.highWater <= fs[n].counter {
      assert fs[n].counter == Step(w, fs[n]).highWater;
    }
  }

  /** What a boot persists, by history: the highest of its seed and the counters it accepted. */
  lemma {:induction false} MarkByHistory(seed: U64, maxAge: U64, fs: seq<Frame>, n: nat)
    requires n <= |fs|
    ensures var w := NewWindow(seed, maxAge);
      HighestOf(seed, fs, Verdicts(w, fs), n, After(w, fs[..n]).highWater)
  {
    var w := NewWindow(seed, maxAge);
    if n == 0 {
    } else {
      MarkByHistory(seed, maxAge, fs, n - 1);
      assert fs[..n] == fs[..n - 1] + [fs[n - 1]];
      AfterAppend(w, fs[..n - 1], fs[n - 1]);
      VerdictAt(w, fs, n - 1);
      HighestOfStep(After(w, fs[..n - 1]), seed, fs, Verdicts(w, fs), n - 1);
    }
  }

  // ---------- reboots ----------

  /** One power cycle: its age bound, and the frames it receives before and after it last persists its
      counter. */
  datatype Boot = Boot(maxAge: U64, saved: seq<Frame>, unsaved: seq<Frame>)

  function Frames(b: Boot): seq<Frame> { b.saved + b.unsaved }

  /** The counter boot `k` is seeded with: the `local_counter()` that the boot before it last persisted, its
      own seed if it never did. */
  function SeedAt(seed: U64, boots: seq<Boot>, k: nat): U64
    requires k <= |boots|
  {
    if k == 0 then seed
    else After(NewWindow(SeedAt(seed, boots, k - 1), boots[k - 1].maxAge), boots[k - 1].saved).highWater
  }

  function BootWindow(seed: U64, boots: seq<Boot>, k: nat): Window
    requires k < |boots|
  {
    NewWindow(SeedAt(seed, boots, k), boots[k].maxAge)
  }

  lemma {:induction false} HighWaterNeverFalls(seed: U64, boots: seq<Boot>, i: nat, j: nat)
    requires i <= j <= |boots|
    ensures SeedAt(seed, boots, i) <= SeedAt(seed, boots, j)
    decreases j
  {
    if i < j {
      HighWaterNeverFalls(seed, boots, i, j - 1);
      RunsStayBounded(BootWindow(seed, boots, j - 1), boots[j - 1].saved);
    }
  }

  lemma {:induction false} VerdictsPrefix(w: Window, fs: seq<Frame>, more: seq<Frame>, m: nat)
    requires m < |fs|
    ensures Verdicts(w, fs + more)[m] == Verdicts(w, fs)[m]
    decreases |fs|
  {
    assert (fs + more)[1..] == fs[1..] + more;
    if m == 0 {
    } else {
      VerdictsPrefix(Step(w, fs[0]), fs[1..], more, m - 1);
    }
  }

  lemma SavedIsMarked(seed: U64, boots: seq<Boot>, i: nat, m: nat)
    requires i < |boots| && m < |boots[i].saved|
    requires Verdicts(BootWindow(seed, boots, i), Frames(boots[i]))[m].Ok?
    ensures boots[i].saved[m].counter <= SeedAt(seed, boots, i + 1)
  {
    VerdictsPrefix(BootWindow(seed, boots, i), boots[i].saved, boots[i].unsaved, m);
    AcceptedWithinMarks(BootWindow(seed, boots, i), boots[i].saved, m);
  }

  lemma AcceptedAboveSeed(seed: U64, boots: seq<Boot>, j: nat, n: nat)
    requires j < |boots| && n < |Frames(boots[j])|
    requires Verdicts(BootWindow(seed, boots, j), Frames(boots[j]))[n].Ok?
    ensures Frames(boots[j])[n].counter >= SatSub(SeedAt(seed, boots, j), boots[j].maxAge)
  {
    AcceptedWithinMarks(BootWindow(seed, boots, j), Frames(boots[j]), n);
  }

  /** What can be replayed after restarts: a counter accepted in boot `j` is within that boot's age bound of
      the mark any earlier boot `i` last persisted, hence of every counter that boot accepted before. */
  lemma RebootReplayBound(seed: U64, boots: seq<Boot>, i: nat, m: nat, j: nat, n: nat)
    requires i < j < |boots| && m < |boots[i].saved| && n < |Frames(boots[j])|
    requires Verdicts(BootWindow(seed, boots, i), Frames(boots[i]))[m].Ok?
    requires Verdicts(BootWindow(seed, boots, j), Frames(boots[j]))[n].Ok?
    ensures Frames(boots[j])[n].counter >= SatSub(SeedAt(seed, boots, i + 1), boots[j].maxAge)
    ensures Frames(boots[j])[n].counter >= SatSub(boots[i].saved[m].counter, boots[j].maxAge)
  {
    SavedIsMarked(seed, boots, i, m);
    AcceptedAboveSeed(seed, boots, j, n);
    HighWaterNeverFalls(seed, boots, i + 1, j);
  }

  lemma {:induction false} VerdictAt(w: Window, fs: seq<Frame>, n: nat)
    requires n < |fs|
    ensures Verdicts(w, fs)[n] == Check(After(w, fs[..n]), fs[n])
    decreases |fs|
  {
    if n == 0 {
    } else {
      assert fs[1..][..n - 1] == fs[..n][1..];
      VerdictAt(Step(w, fs[0]), fs[1..], n - 1);
    }
  }

  predicate NoneFrom(p: Principal, fs: seq<Frame>) { forall i :: 0 <= i < |fs| ==> fs[i].principal != p }

  lemma {:induction false} UnheardIsUntracked(p: Principal, w: Window, fs: seq<Frame>)
    requires p !in w.peers && NoneFrom(p, fs)
    ensures p !in After(w, fs).peers
    decreases |fs|
  {
    if fs == [] {
    } else {
      UnheardIsUntracked(p, Step(w, fs[0]), fs[1..]);
    }
  }

  /** Frame `n` of boot `j`, the first there from its principal, repeats frame `m` of boot `i`, which that boot
      accepted after it last persisted its counter. */
  ghost predicate Replays(seed: U64, boots: seq<Boot>, i: nat, m: nat, j: nat, n: nat) {
    && i < j < |boots| && |boots[i].saved| <= m < |Frames(boots[i])| && n < |Frames(boots[j])|
    && Verdicts(BootWindow(seed, boots, i), Frames(boots[i]))[m].Ok?
    && Frames(boots[j])[n].principal == Frames(boots[i])[m].principal
    && Frames(boots[j])[n].counter == Frames(boots[i])[m].counter
    && NoneFrom(Frames(boots[j])[n].principal, Frames(boots[j])[..n])
  }

  /** And only before: a frame accepted after the last persist is accepted again exactly when its counter is within
      the age bound of what the later boot was seeded with, a slot is free and no clock forbids it. */
  lemma ReplayedExactly(seed: U64, boots: seq<Boot>, i: nat, m: nat, j: nat, n: nat)
    requires Replays(seed, boots, i, m, j, n)
    ensures var f, w := Frames(boots[j])[n], BootWindow(seed, boots, j);
      Verdicts(w, Frames(boots[j]))[n].Ok?
      <==> && BelowCeiling(f)
           && f.counter >= SatSub(SeedAt(seed, boots, j), boots[j].maxAge)
           && |After(w, Frames(boots[j])[..n]).peers| < MAX_SIGNING_PEERS
  {
    var f, w, before := Frames(boots[j])[n], BootWindow(seed, boots, j), Frames(boots[j])[..n];
    AcceptedWithinMarks(BootWindow(seed, boots, i), Frames(boots[i]), m);
    VerdictAt(w, Frames(boots[j]), n);
    RunsStayBounded(w, before);
    UnheardIsUntracked(f.principal, w, before);
  }

  /** Such replays are accepted, from any seed and under any age bound: a boot takes a frame at its seed and loses
      power before it persists, and the next boot takes the frame again. */
  lemma ReplayOccurs(seed: U64, maxAge: U64, p: Principal)
    ensures var f := Frame(p, Max(seed, 1), None);
      var boots := [Boot(maxAge, [], [f]), Boot(maxAge, [f], [])];
      && Replays(seed, boots, 0, 0, 1, 0)
      && Verdicts(BootWindow(seed, boots, 1), Frames(boots[1]))[0].Ok?
  {
    var f := Frame(p, Max(seed, 1), None);
    var boots := [Boot(maxAge, [], [f]), Boot(maxAge, [f], [])];
    assert Frames(boots[0]) == [f] && Frames(boots[1]) == [f];
    assert SeedAt(seed, boots, 1) == seed;
    ReplayedExactly(seed, boots, 0, 0, 1, 0);
  }

  // ---------- the slot table ----------

  type Slot = Entry<Principal, U64>

  class AntiReplayWindow {
    var slots: array<Option<Slot>>
    var freshnessFloor: U64
    var highWater: U64
    var newStreamMaxAge: U64

    ghost predicate Valid()
      reads this, slots
    {
      slots.Length == MAX_SIGNING_PEERS && Distinct(slots[..])
    }

    /** The bounded map this table stands for. */
    ghost function View(): Window
      reads this, slots
    {
      Window(MapOf(slots[..]), freshnessFloor, highWater, newStreamMaxAge)
    }

    constructor (initialTrustedCounter: U64, maxAge: U64)
      ensures Valid() && fresh(slots)
      ensures View() == NewWindow(initialTrustedCounter, maxAge)
    {
      slots := new Option<Slot>[MAX_SIGNING_PEERS](_ => None);
      freshnessFloor := initialTrustedCounter;
      highWater := initialTrustedCounter;
      newStreamMaxAge := maxAge;
      new;
      MapOfFree(slots[..]);
    }

    method LocalCounter() returns (c: U64)
      ensures c == View().highWater
    {
      c := highWater;
    }

    method Find(principal: Principal) returns (r: Option<nat>)
      requires Valid()
      ensures r.Some? ==> r.value < slots.Length && Holds(slots[..], r.value, principal)
      ensures r.Some? ==> principal in View().peers
                          && View().peers[principal] == slots[r.value].value.value
      ensures r.None? ==> forall k :: 0 <= k < slots.Length ==> !Holds(slots[..], k, principal)
      ensures r.None? ==> principal !in View().peers
    {
      var i := 0;
      while i < slots.Length
        invariant 0 <= i <= slots.Length
        invariant forall k :: 0 <= k < i ==> !Holds(slots[..], k, principal)
      {
        if slots[i].Some? && slots[i].value.key == principal {
          Lookup(slots[..], i);
          return Some(i);
        }
        i := i + 1;
      }
      Absent(slots[..], principal);
      r := None;
    }

    method FindFree() returns (r: Option<nat>)
      requires Valid()
      ensures r.Some? ==> r.value < slots.Length && slots[r.value].None?
      ensures r.None? <==> |View().peers| >= MAX_SIGNING_PEERS
    {
      Count(slots[..]);
      var i := 0;
      while i < slots.Length
        invariant 0 <= i <= slots.Length
        invariant forall k :: 0 <= k < i ==> slots[k].Some?
      {
        if slots[i].None? {
          assert slots[..][i].None?;
          return Some(i);
        }
        i := i + 1;
      }
      r := None;
    }

    /** The table takes the same decision and the same step as the bounded map. */
    method CheckAndUpdate(principal: Principal, counter: U64, ceiling: Option<U64>) returns (r: Verdict)
      requires Valid()
      modifies this, slots
      ensures Valid() && slots == old(slots)
      ensures r == Check(old(View()), Frame(principal, counter, ceiling))
      ensures View() == Step(old(View()), Frame(principal, counter, ceiling))
    {
      if ceiling.Some? && counter > ceiling.value {
        return Err(CounterImplausiblyAhead(counter, ceiling.value));
      }
      ghost var before := slots[..];
      var found := Find(principal);
      if found.Some? {
        if counter <= slots[found.value].value.value {
          return Err(ReplayAttack);
        }
        slots[found.value] := Some(slots[found.value].value.(value := counter));
        highWater := Max(highWater, counter);
        Write(before, found.value, principal, counter);
        assert slots[..] == before[found.value := Some(Entry(principal, counter))];
        return Ok(());
      }
      if counter == 0 {
        return Err(ReplayAttack);
      }
      if counter < SatSub(freshnessFloor, newStreamMaxAge) {
        return Err(StaleNewStream(counter, freshnessFloor));
      }
      var free := FindFree();
      if free.None? {
        return Err(ReplayCapacityExhausted);
      }
      slots[free.value] := Some(Entry(principal, counter));
      highWater := Max(highWater, counter);
      Write(before, free.value, principal, counter);
      assert slots[..] == before[free.value := Some(Entry(principal, counter))];
      r := Ok(());
    }

    method LastCounter(principal: Principal) returns (c: U64)
      requires Valid()
      ensures c == if principal in View().peers then View().peers[principal] else 0
    {
      var found := Find(principal);
      c := if found.Some? then slots[found.value].value.value else 0;
    }

    method ResetPrincipal(principal: Principal)
      requires Valid()
      modifies slots
      ensures Valid()
      ensures View() == old(View()).(peers := old(View()).peers - {principal})
    {
      var found := Find(principal);
      if found.Some? {
        ghost var before := slots[..];
        slots[found.value] := None;
        Clear(before, found.value, principal);
        assert slots[..] == before[found.value := None];
      }
    }

    /** The high-water mark and the floor survive. */
    method ResetAll()
      requires Valid()
      modifies this`slots
      ensures Valid() && fresh(slots) && View() == old(View()).(peers := map[])
    {
      slots := new Option<Slot>[MAX_SIGNING_PEERS](_ => None);
      MapOfFree(slots[..]);
    }
  }
}
