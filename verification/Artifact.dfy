/** No-clobber publication of artifacts (aviate-apps/sitl-xplane-alia250/src/artifact.rs).

    Any number of writers publish to one target through one directory: each creates a temporary file with
    create-new, writes and syncs it, hard-links it to the target and unlinks it. The writers' atomic file
    operations interleave in any order, any operation may fail, and a writer may stop for good at any
    point (it is then simply never scheduled again). */
module Artifact {
  import opened Common

  type Name = string
  type Inode = nat
  type WriterId = nat

  datatype FileSystem = FileSystem(names: map<Name, Inode>, contents: map<Inode, string>, nextInode: Inode)

  datatype Error = InvalidTarget | Exists | CreateFailed | WriteFailed | PublishFailed

  type Outcome = Result<(), Error>

  /** Where a writer is in `publish`. */
  datatype Pc =
    | Creating(attempt: nat)
    | Writing(temp: Name, inode: Inode, written: nat)
    | Syncing(temp: Name, inode: Inode)
    | Linking(temp: Name, inode: Inode)
    | Unlinking(temp: Name, inode: Inode, outcome: Outcome)
    | Done(outcome: Outcome)

  datatype Writer = Writer(pid: nat, text: string, pc: Pc)

  datatype System = System(fs: FileSystem, writers: map<WriterId, Writer>)

  /** What the operating system answers: the operation runs (a write taking `taken` more bytes), or it fails
      with an error other than already-exists. */
  datatype Io = Runs(taken: nat) | Fails

  const MAX_ATTEMPTS: nat := 100

  function Decimal(n: nat): string {
    if n < 10 then [('0' as int + n) as char] else Decimal(n / 10) + [('0' as int + n % 10) as char]
  }

  function TempName(file: Name, pid: nat, attempt: nat): Name {
    "." + file + "." + Decimal(pid) + "." + Decimal(attempt) + ".tmp"
  }

  lemma TempIsNotTarget(file: Name, pid: nat, attempt: nat)
    ensures TempName(file, pid, attempt) != file
  {
    assert |TempName(file, pid, attempt)| > |file|;
  }

  /** A write through a handle at its own offset. */
  function WriteAt(held: string, offset: nat, bytes: string): string
    requires offset <= |held|
  {
    held[..offset] + bytes + if offset + |bytes| <= |held| then held[offset + |bytes|..] else ""
  }

  // ---------- one atomic operation ----------

  function AdvanceFs(file: Name, fs: FileSystem, w: Writer, io: Io): FileSystem {
    match w.pc
    case Creating(a) =>
      var name := TempName(file, w.pid, a);
      if a < MAX_ATTEMPTS && io.Runs? && name !in fs.names then
        FileSystem(fs.names[name := fs.nextInode], fs.contents[fs.nextInode := ""], fs.nextInode + 1)
      else fs
    case Writing(_, i, n) =>
      if io.Runs? && i in fs.contents && n <= |fs.contents[i]| && n <= |w.text| then
        fs.(contents := fs.contents[i := WriteAt(fs.contents[i], n, w.text[n..Min(n + io.taken, |w.text|)])])
      else fs
    case Linking(t, _) =>
      if io.Runs? && file !in fs.names && t in fs.names then fs.(names := fs.names[file := fs.names[t]]) else fs
    case Unlinking(t, _, _) =>
      if io.Runs? then fs.(names := fs.names - {t}) else fs
    case _ => fs
  }

  function AdvancePc(file: Name, fs: FileSystem, w: Writer, io: Io): Pc {
    match w.pc
    case Creating(a) =>
      if a >= MAX_ATTEMPTS then Done(Err(InvalidTarget))
      else if io.Fails? then Done(Err(CreateFailed))
      else if TempName(file, w.pid, a) in fs.names then Creating(a + 1)
      else Writing(TempName(file, w.pid, a), fs.nextInode, 0)
    case Writing(t, i, n) =>
      if io.Fails? then Unlinking(t, i, Err(WriteFailed))
      else if n + io.taken >= |w.text| then Syncing(t, i)
      else Writing(t, i, n + io.taken)
    case Syncing(t, i) => if io.Fails? then Unlinking(t, i, Err(WriteFailed)) else Linking(t, i)
    case Linking(t, i) =>
      if io.Fails? then Unlinking(t, i, Err(PublishFailed))
      else if file in fs.names then Unlinking(t, i, Err(Exists))
      else if t in fs.names then Unlinking(t, i, Ok(()))
      else Unlinking(t, i, Err(PublishFailed))
    case Unlinking(_, _, r) => Done(r)
    case Done(r) => Done(r)
  }

  function Advance(file: Name, s: System, id: WriterId, io: Io): System
    requires id in s.writers
  {
    var w := s.writers[id];
    System(AdvanceFs(file, s.fs, w, io), s.writers[id := w.(pc := AdvancePc(file, s.fs, w, io))])
  }

  /** A schedule: which writer runs its next operation, and what it is answered. */
  type Schedule = seq<(WriterId, Io)>

  function Run(file: Name, s: System, steps: Schedule): (t: System)
    ensures t.writers.Keys == s.writers.Keys
    ensures forall id :: id in s.writers ==> t.writers[id].text == s.writers[id].text
    decreases |steps|
  {
    if steps == [] then s
    else Run(file, if steps[0].0 in s.writers then Advance(file, s, steps[0].0, steps[0].1) else s, steps[1..])
  }

  // ---------- what every interleaving keeps ----------

  /** The writer owns a temporary file that it has not unlinked. */
  predicate Live(p: Pc) { !p.Creating? && !p.Done? }

  /** The writer's hard link succeeded. */
  predicate Linked(p: Pc) { (p.Unlinking? || p.Done?) && p.outcome.Ok? }

  ghost predicate DiskSound(fs: FileSystem) {
    forall n :: n in fs.names ==> fs.names[n] in fs.contents && fs.names[n] < fs.nextInode
  }

  /** A live writer's name still leads to its own inode, which holds what it wrote so far. */
  ghost predicate OwnsTemp(file: Name, fs: FileSystem, w: Writer) {
    Live(w.pc) ==>
      && w.pc.temp != file && w.pc.temp in fs.names && fs.names[w.pc.temp] == w.pc.inode
      && w.pc.inode in fs.contents
      && (w.pc.Writing? ==> w.pc.written <= |w.text| && fs.contents[w.pc.inode] == w.text[..w.pc.written])
      && (w.pc.Syncing? || w.pc.Linking? ==> fs.contents[w.pc.inode] == w.text)
  }

  /** How a writer stands to the target. */
  ghost predicate RespectsTarget(file: Name, fs: FileSystem, w: Writer) {
    && (Linked(w.pc) ==> file in fs.names && fs.names[file] in fs.contents
                         && fs.contents[fs.names[file]] == w.text)
    && (Live(w.pc) && !Linked(w.pc) && file in fs.names ==> fs.names[file] != w.pc.inode)
    && ((w.pc.Unlinking? || w.pc.Done?) && w.pc.outcome == Err(Exists) ==> file in fs.names)
  }

  ghost predicate Disjoint(v: Writer, w: Writer) {
    && (Live(v.pc) && Live(w.pc) ==> v.pc.temp != w.pc.temp && v.pc.inode != w.pc.inode)
    && !(Linked(v.pc) && Linked(w.pc))
  }

  ghost predicate Inv(file: Name, s: System) {
    && DiskSound(s.fs)
    && (forall id :: id in s.writers ==>
          OwnsTemp(file, s.fs, s.writers[id]) && RespectsTarget(file, s.fs, s.writers[id]))
    && (forall v, w :: v in s.writers && w in s.writers && v != w ==> Disjoint(s.writers[v], s.writers[w]))
    && (file in s.fs.names ==> exists id :: id in s.writers && Linked(s.writers[id].pc))
  }

  /** Nobody has started and the target is absent; the directory may hold anything else, such as temporary
      files that earlier processes left behind. */
  ghost predicate Initial(file: Name, s: System) {
    DiskSound(s.fs) && file !in s.fs.names && forall id :: id in s.writers ==> s.writers[id].pc == Creating(0)
  }

  /** An operation touches only its own writer's temporary file, and the target when it is absent. */
  lemma TouchesOnlyItsOwn(file: Name, fs: FileSystem, w: Writer, io: Io)
    requires DiskSound(fs) && OwnsTemp(file, fs, w)
    ensures var fs' := AdvanceFs(file, fs, w, io);
      && DiskSound(fs')
      && (forall n :: n in fs.names && !(Live(w.pc) && n == w.pc.temp) ==>
            n in fs'.names && fs'.names[n] == fs.names[n])
      && (forall n :: n in fs'.names && n !in fs.names ==>
            (w.pc.Creating? && n == TempName(file, w.pid, w.pc.attempt) && fs'.names[n] == fs.nextInode)
            || (w.pc.Linking? && n == file && fs'.names[n] == w.pc.inode))
      && (forall i :: i in fs.contents && i < fs.nextInode && !(Live(w.pc) && i == w.pc.inode)
            ==> i in fs'.contents && fs'.contents[i] == fs.contents[i])
      && (Live(w.pc) && !w.pc.Writing? ==> fs'.contents == fs.contents)
  {
  }

  lemma OwnTempStep(file: Name, fs: FileSystem, w: Writer, io: Io)
    requires DiskSound(fs) && OwnsTemp(file, fs, w) && RespectsTarget(file, fs, w)
    ensures var fs', w' := AdvanceFs(file, fs, w, io), w.(pc := AdvancePc(file, fs, w, io));
      OwnsTemp(file, fs', w')
  {
    if w.pc.Creating? {
      TempIsNotTarget(file, w.pid, w.pc.attempt);
    }
    if w.pc.Writing? && io.Runs? {
      var n := w.pc.written;
      var m := Min(n + io.taken, |w.text|);
      assert w.text[..n] + w.text[n..m] == w.text[..m];
    }
  }

  lemma OwnTargetStep(file: Name, fs: FileSystem, w: Writer, io: Io)
    requires DiskSound(fs) && OwnsTemp(file, fs, w) && RespectsTarget(file, fs, w)
    ensures var fs', w' := AdvanceFs(file, fs, w, io), w.(pc := AdvancePc(file, fs, w, io));
      RespectsTarget(file, fs', w')
  {
    if w.pc.Creating? {
      TempIsNotTarget(file, w.pid, w.pc.attempt);
    }
  }

  /** What a writer's own step does to its standing and to the target. */
  lemma OwnStep(file: Name, fs: FileSystem, w: Writer, io: Io)
    requires DiskSound(fs) && OwnsTemp(file, fs, w) && RespectsTarget(file, fs, w)
    ensures var fs', w' := AdvanceFs(file, fs, w, io), w.(pc := AdvancePc(file, fs, w, io));
      && OwnsTemp(file, fs', w') && RespectsTarget(file, fs', w')
      && (Linked(w'.pc) && !Linked(w.pc) ==> file !in fs.names && file in fs'.names)
      && (file in fs'.names && file !in fs.names ==> Linked(w'.pc))
      && (file in fs.names ==> file in fs'.names)
      && (Live(w'.pc) ==> if Live(w.pc) then w'.pc.temp == w.pc.temp && w'.pc.inode == w.pc.inode
                          else w'.pc.temp !in fs.names && w'.pc.inode == fs.nextInode)
  {
    OwnTempStep(file, fs, w, io);
    OwnTargetStep(file, fs, w, io);
    if w.pc.Creating? {
      TempIsNotTarget(file, w.pid, w.pc.attempt);
    }
  }

  /** Another writer's standing is not disturbed. */
  lemma OthersStep(file: Name, fs: FileSystem, w: Writer, io: Io, v: Writer)
    requires DiskSound(fs) && OwnsTemp(file, fs, w) && RespectsTarget(file, fs, w)
    requires OwnsTemp(file, fs, v) && RespectsTarget(file, fs, v) && Disjoint(v, w)
    ensures var fs', w' := AdvanceFs(file, fs, w, io), w.(pc := AdvancePc(file, fs, w, io));
      OwnsTemp(file, fs', v) && RespectsTarget(file, fs', v) && Disjoint(v, w')
  {
    TouchesOnlyItsOwn(file, fs, w, io);
    OwnStep(file, fs, w, io);
  }

  lemma StepKeepsInv(file: Name, s: System, id: WriterId, io: Io)
    requires Inv(file, s) && id in s.writers
    ensures Inv(file, Advance(file, s, id, io))
  {
    var w, s' := s.writers[id], Advance(file, s, id, io);
    TouchesOnlyItsOwn(file, s.fs, w, io);
    OwnStep(file, s.fs, w, io);
    forall v | v in s.writers && v != id
      ensures OwnsTemp(file, s'.fs, s.writers[v]) && RespectsTarget(file, s'.fs, s.writers[v])
      ensures Disjoint(s.writers[v], s'.writers[id]) && Disjoint(s'.writers[id], s.writers[v])
    {
      OthersStep(file, s.fs, w, io, s.writers[v]);
    }
    if file in s'.fs.names {
      if file in s.fs.names {
        var v :| v in s.writers && Linked(s.writers[v].pc);
        assert v in s'.writers && Linked(s'.writers[v].pc);
      } else {
        assert id in s'.writers && Linked(s'.writers[id].pc);
      }
    }
  }

  lemma {:induction false} RunKeepsInv(file: Name, s: System, steps: Schedule)
    requires Inv(file, s)
    ensures Inv(file, Run(file, s, steps))
    decreases |steps|
  {
    if steps == [] {
    } else {
      var id := steps[0].0;
      if id in s.writers {
        StepKeepsInv(file, s, id, steps[0].1);
        RunKeepsInv(file, Advance(file, s, id, steps[0].1), steps[1..]);
      } else {
        RunKeepsInv(file, s, steps[1..]);
      }
    }
  }

  /** Once present, the target is never replaced, removed or rewritten. */
  lemma {:induction false} TargetIsFrozen(file: Name, s: System, steps: Schedule)
    requires Inv(file, s) && file in s.fs.names
    ensures var t := Run(file, s, steps);
      && file in t.fs.names && t.fs.names[file] == s.fs.names[file] && s.fs.names[file] in s.fs.contents
      && t.fs.names[file] in t.fs.contents
      && t.fs.contents[t.fs.names[file]] == s.fs.contents[s.fs.names[file]]
    decreases |steps|
  {
    if steps == [] {
    } else {
      var id, io := steps[0].0, steps[0].1;
      if id in s.writers {
        StepKeepsInv(file, s, id, io);
        TouchesOnlyItsOwn(file, s.fs, s.writers[id], io);
        TargetIsFrozen(file, Advance(file, s, id, io), steps[1..]);
      } else {
        TargetIsFrozen(file, s, steps[1..]);
      }
    }
  }

  predicate AtMostOneLinked(s: System) {
    forall v, w :: v in s.writers && w in s.writers && Linked(s.writers[v].pc) && Linked(s.writers[w].pc) ==> v == w
  }

  /** No clobbering: in every interleaving from an absent target, at most one publisher ever succeeds, and
      from the moment the target exists it holds one publisher's complete text, the winner's, for ever. */
  lemma NoClobber(file: Name, s: System, steps: Schedule, more: Schedule)
    requires Initial(file, s)
    ensures var mid, end := Run(file, s, steps), Run(file, Run(file, s, steps), more);
      && AtMostOneLinked(end)
      && (file in mid.fs.names ==>
            && file in end.fs.names
            && mid.fs.names[file] in mid.fs.contents && end.fs.names[file] in end.fs.contents
            && end.fs.contents[end.fs.names[file]] == mid.fs.contents[mid.fs.names[file]]
            && exists w :: w in s.writers && Linked(mid.writers[w].pc)
                           && mid.fs.contents[mid.fs.names[file]] == s.writers[w].text)
  {
    var mid := Run(file, s, steps);
    RunKeepsInv(file, s, steps);
    RunKeepsInv(file, mid, more);
    if file in mid.fs.names {
      TargetIsFrozen(file, mid, more);
      var w :| w in mid.writers && Linked(mid.writers[w].pc);
      assert w in s.writers && mid.fs.contents[mid.fs.names[file]] == s.writers[w].text;
    }
  }

  /** Every writer has returned, with success or with an existing target. */
  predicate AllDecided(s: System) {
    forall id :: id in s.writers ==> s.writers[id].pc in {Done(Ok(())), Done(Err(Exists))}
  }

  predicate Wins(s: System, w: WriterId) {
    && w in s.writers && s.writers[w].pc == Done(Ok(()))
    && forall v :: v in s.writers && v != w ==> s.writers[v].pc == Done(Err(Exists))
  }

  lemma DecidedHasWinner(file: Name, t: System, any: WriterId)
    requires Inv(file, t) && any in t.writers && AllDecided(t)
    ensures exists w :: Wins(t, w)
  {
    assert RespectsTarget(file, t.fs, t.writers[any]);
    assert file in t.fs.names;
    var w :| w in t.writers && Linked(t.writers[w].pc);
    forall v | v in t.writers && v != w ensures t.writers[v].pc == Done(Err(Exists)) {
      assert Disjoint(t.writers[v], t.writers[w]);
    }
    assert Wins(t, w);
  }

  /** When all have returned and nobody met an I/O error other than an existing target, exactly one of them
      succeeded. */
  lemma ExactlyOneWins(file: Name, s: System, steps: Schedule)
    requires Initial(file, s) && s.writers != map[] && AllDecided(Run(file, s, steps))
    ensures exists w :: Wins(Run(file, s, steps), w)
  {
    RunKeepsInv(file, s, steps);
    var any :| any in s.writers;
    DecidedHasWinner(file, Run(file, s, steps), any);
  }

  /** No writer writes or unlinks another's live temporary file, and nothing that lay in the directory before
      is renamed, removed or rewritten. */
  lemma {:induction false} BystandersUntouched(file: Name, s: System, steps: Schedule, n: Name)
    requires Inv(file, s) && n in s.fs.names
    requires forall id :: id in s.writers && Live(s.writers[id].pc) ==>
               s.writers[id].pc.temp != n && s.writers[id].pc.inode != s.fs.names[n]
    ensures var t := Run(file, s, steps);
      && n in t.fs.names && t.fs.names[n] == s.fs.names[n]
      && s.fs.names[n] in s.fs.contents && s.fs.names[n] in t.fs.contents
      && t.fs.contents[s.fs.names[n]] == s.fs.contents[s.fs.names[n]]
    decreases |steps|
  {
    if steps == [] {
    } else {
      var id, io := steps[0].0, steps[0].1;
      if id in s.writers {
        StepKeepsInv(file, s, id, io);
        TouchesOnlyItsOwn(file, s.fs, s.writers[id], io);
        OwnStep(file, s.fs, s.writers[id], io);
        BystandersUntouched(file, Advance(file, s, id, io), steps[1..], n);
      } else {
        BystandersUntouched(file, s, steps[1..], n);
      }
    }
  }

  lemma OthersTempUntouched(file: Name, s: System, id: WriterId, io: Io, v: WriterId)
    requires Inv(file, s) && id in s.writers && v in s.writers && v != id && Live(s.writers[v].pc)
    ensures var t, p := Advance(file, s, id, io), s.writers[v].pc;
      && t.writers[v] == s.writers[v]
      && p.temp in t.fs.names && t.fs.names[p.temp] == p.inode
      && p.inode in s.fs.contents && p.inode in t.fs.contents && t.fs.contents[p.inode] == s.fs.contents[p.inode]
  {
    assert Disjoint(s.writers[v], s.writers[id]);
    TouchesOnlyItsOwn(file, s.fs, s.writers[id], io);
  }
}
