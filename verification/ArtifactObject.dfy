/** `publish` as the program it is (aviate-apps/sitl-xplane-alia250/src/artifact.rs), run against a
    directory in which the other writers may take any steps between its own: every execution is a run of
    the `Artifact` machine. */
module ArtifactObject {
  import opened Common
  import opened Artifact
  import opened Publication

  lemma {:induction false} RunAppend(file: Name, s: System, steps: Schedule, more: Schedule)
    ensures Run(file, s, steps + more) == Run(file, Run(file, s, steps), more)
    decreases |steps|
  {
    if steps == [] {
      assert steps + more == more;
    } else {
      assert (steps + more)[1..] == steps[1..] + more;
      var next := if steps[0].0 in s.writers then Advance(file, s, steps[0].0, steps[0].1) else s;
      RunAppend(file, next, steps[1..], more);
    }
  }

  lemma RunOne(file: Name, s: System, id: WriterId, io: Io)
    requires id in s.writers
    ensures Run(file, s, [(id, io)]) == Advance(file, s, id, io)
  {
    assert [(id, io)][1..] == [];
  }

  /** The operations of writer `id` are answered as `refuses` says for where the writer stands. */
  ghost predicate Answered(file: Name, s: System, steps: Schedule, id: WriterId, refuses: Pc -> bool) {
    forall n: nat :: n < |steps| && steps[n].0 == id ==> AnsweredAt(file, s, steps, n, refuses)
  }

  ghost predicate AnsweredAt(file: Name, s: System, steps: Schedule, n: nat, refuses: Pc -> bool)
    requires n < |steps|
  {
    var (id, io) := steps[n];
    id in s.writers && (io.Fails? <==> refuses(Run(file, s, steps[..n]).writers[id].pc))
  }

  lemma AnsweredAppend(file: Name, s: System, steps: Schedule, step: (WriterId, Io), id: WriterId, refuses: Pc -> bool)
    requires Answered(file, s, steps, id, refuses)
    requires step.0 == id ==>
               id in s.writers && (step.1.Fails? <==> refuses(Run(file, s, steps).writers[id].pc))
    ensures Answered(file, s, steps + [step], id, refuses)
  {
    var all := steps + [step];
    forall n: nat | n < |all| && all[n].0 == id ensures AnsweredAt(file, s, all, n, refuses) {
      if n < |steps| {
        assert all[..n] == steps[..n];
        assert AnsweredAt(file, s, steps, n, refuses);
      } else {
        assert all[..n] == steps;
      }
    }
  }

  lemma WillingMeansNoFailure(file: Name, s: System, steps: Schedule, id: WriterId, refuses: Pc -> bool)
    requires Answered(file, s, steps, id, refuses) && forall p: Pc :: !refuses(p)
    ensures !FailedIn(steps, id)
  {
    forall n | 0 <= n < |steps| ensures steps[n] != (id, Fails) {
      if steps[n].0 == id {
        assert AnsweredAt(file, s, steps, n, refuses);
      }
    }
  }

  /** A writing writer's file holds what it wrote so far. */
  lemma Holds(file: Name, s: System, steps: Schedule, id: WriterId)
    requires Inv(file, s) && id in s.writers && Run(file, s, steps).writers[id].pc.Writing?
    ensures var t := Run(file, s, steps);
      var w := t.writers[id];
      && w.pc.inode in t.fs.contents && w.pc.written <= |w.text|
      && t.fs.contents[w.pc.inode] == w.text[..w.pc.written]
  {
    RunKeepsInv(file, s, steps);
    assert OwnsTemp(file, Run(file, s, steps).fs, Run(file, s, steps).writers[id]);
  }

  class Directory {
    const file: Name
    /** Where the system answers this writer's operation with an error. */
    const refuses: Pc -> bool
    /** How many bytes beyond the first its write takes there, if there are as many. */
    const takes: Pc -> nat
    var fs: FileSystem
    /** Where every writer is, this one included. */
    var writers: map<WriterId, Writer>
    /** Everything that has happened in the directory. */
    ghost var history: Schedule

    constructor (target: Name, disk: FileSystem, crowd: map<WriterId, Writer>, answers: Pc -> bool, bytes: Pc -> nat)
      ensures file == target && Now() == System(disk, crowd) && history == []
      ensures refuses == answers && takes == bytes
    {
      file, fs, writers, history := target, disk, crowd, [];
      refuses, takes := answers, bytes;
    }

    ghost function Now(): System
      reads this
    {
      System(fs, writers)
    }

    /** The directory stands where its history leads from `origin`, in which writer `id` was answered as the system
        does, and that writer is at `w`. */
    ghost predicate Stands(origin: System, id: WriterId, w: Writer)
      reads this
    {
      && Inv(file, origin) && Now() == Run(file, origin, history)
      && Answered(file, origin, history, id, refuses)
      && id in writers && writers[id] == w
    }

    /** Books the operation that has just taken the disk from `before` to `fs`; it is one of `own`, answered as the
        system does, or of another. */
    method Book(id: WriterId, io: Io, before: FileSystem, ghost own: WriterId, ghost origin: System)
      requires id in writers && fs == AdvanceFs(file, before, writers[id], io)
      requires System(before, writers) == Run(file, origin, history)
      requires Answered(file, origin, history, own, refuses)
      requires id == own ==> (io.Fails? <==> refuses(writers[id].pc))
      modifies this`writers, this`history
      ensures Now() == Advance(file, System(before, old(writers)), id, io)
      ensures Now() == Run(file, origin, history) && Answered(file, origin, history, own, refuses)
    {
      RunAppend(file, origin, history, [(id, io)]);
      RunOne(file, System(before, writers), id, io);
      AnsweredAppend(file, origin, history, (id, io), own, refuses);
      history := history + [(id, io)];
      writers := writers[id := writers[id].(pc := AdvancePc(file, before, writers[id], io))];
    }

    /** Any of the other writers take any number of steps. */
    method Interfere(id: WriterId, ghost origin: System, ghost w: Writer)
      requires Stands(origin, id, w)
      modifies this
      ensures Stands(origin, id, w)
    {
      var n: nat := *;
      while n > 0
        invariant Stands(origin, id, w)
      {
        var other: WriterId, fails: bool, taken: nat := *, *, *;
        if other != id && other in writers {
          var io, before := if fails then Fails else Runs(taken), fs;
          fs := AdvanceFs(file, before, writers[other], io);
          Book(other, io, before, id, origin);
        }
        n := n - 1;
      }
    }

    /** `create_temporary`: the first of a hundred names that is free. */
    method CreateTemporary(id: WriterId, pid: nat, text: string, ghost origin: System)
      returns (r: Result<(Name, Inode), Error>)
      requires Stands(origin, id, Writer(pid, text, Creating(0)))
      modifies this
      ensures r.Ok? ==> Stands(origin, id, Writer(pid, text, Writing(r.value.0, r.value.1, 0)))
      ensures r.Err? ==> Stands(origin, id, Writer(pid, text, Done(Err(r.error))))
    {
      var attempt := 0;
      while attempt < MAX_ATTEMPTS
        invariant attempt <= MAX_ATTEMPTS && Stands(origin, id, Writer(pid, text, Creating(attempt)))
      {
        Interfere(id, origin, Writer(pid, text, Creating(attempt)));
        var path, before := TempName(file, pid, attempt), fs;
        if refuses(Creating(attempt)) {
          Book(id, Fails, before, id, origin);
          return Err(CreateFailed);
        }
        if path !in fs.names {
          fs := FileSystem(fs.names[path := fs.nextInode], fs.contents[fs.nextInode := ""], fs.nextInode + 1);
          Book(id, Runs(0), before, id, origin);
          return Ok((path, before.nextInode));
        }
        Book(id, Runs(0), before, id, origin);
        attempt := attempt + 1;
      }
      Book(id, if refuses(Creating(MAX_ATTEMPTS)) then Fails else Runs(0), fs, id, origin);
      r := Err(InvalidTarget);
    }

    /** One `write` through the handle, taking at least one more byte if there is one. */
    method WriteSome(id: WriterId, w: Writer, ghost origin: System) returns (ok: bool, written: nat)
      requires w.pc.Writing? && Stands(origin, id, w) && w.pc.written <= |w.text|
      modifies this
      ensures ok ==> w.pc.written < written || written == |w.text|
      ensures ok ==> written <= |w.text|
      ensures Stands(origin, id, w.(pc :=
                if !ok then Unlinking(w.pc.temp, w.pc.inode, Err(WriteFailed))
                else if written == |w.text| then Syncing(w.pc.temp, w.pc.inode)
                else w.pc.(written := written)))
    {
      var before, more := fs, takes(w.pc);
      written := Min(w.pc.written + more + 1, |w.text|);
      ok := !refuses(w.pc);
      if ok {
        Holds(file, origin, history, id);
        var held := fs.contents[w.pc.inode];
        fs := fs.(contents := fs.contents[w.pc.inode := WriteAt(held, w.pc.written, w.text[w.pc.written..written])]);
      }
      Book(id, if ok then Runs(more + 1) else Fails, before, id, origin);
    }

    /** `write_all`, in as many writes as the system takes. */
    method WriteAll(id: WriterId, pid: nat, text: string, temp: Name, inode: Inode, ghost origin: System)
      returns (ok: bool)
      requires Stands(origin, id, Writer(pid, text, Writing(temp, inode, 0)))
      modifies this
      ensures Stands(origin, id, Writer(pid, text,
                if ok then Syncing(temp, inode) else Unlinking(temp, inode, Err(WriteFailed))))
    {
      var written := 0;
      while true
        invariant 0 <= written <= |text| && Stands(origin, id, Writer(pid, text, Writing(temp, inode, written)))
        decreases |text| - written
      {
        var w := Writer(pid, text, Writing(temp, inode, written));
        Interfere(id, origin, w);
        ok, written := WriteSome(id, w, origin);
        if !ok || written == |text| {
          return;
        }
      }
    }

    /** `sync_all`, which changes nothing that a name or a read can show. */
    method Sync(id: WriterId, pid: nat, text: string, temp: Name, inode: Inode, ghost origin: System)
      returns (ok: bool)
      requires Stands(origin, id, Writer(pid, text, Syncing(temp, inode)))
      modifies this
      ensures Stands(origin, id, Writer(pid, text,
                if ok then Linking(temp, inode) else Unlinking(temp, inode, Err(WriteFailed))))
    {
      Interfere(id, origin, Writer(pid, text, Syncing(temp, inode)));
      ok := !refuses(Syncing(temp, inode));
      Book(id, if ok then Runs(0) else Fails, fs, id, origin);
    }

    /** `hard_link`: refuses an existing target and replaces nothing. */
    method Link(id: WriterId, pid: nat, text: string, temp: Name, inode: Inode, ghost origin: System)
      returns (r: Outcome)
      requires Stands(origin, id, Writer(pid, text, Linking(temp, inode)))
      modifies this
      ensures Stands(origin, id, Writer(pid, text, Unlinking(temp, inode, r)))
    {
      Interfere(id, origin, Writer(pid, text, Linking(temp, inode)));
      var linkFails := refuses(Linking(temp, inode));
      var before := fs;
      if linkFails {
        r := Err(PublishFailed);
      } else if file in fs.names {
        r := Err(Exists);
      } else if temp in fs.names {
        r := Ok(());
        fs := fs.(names := fs.names[file := fs.names[temp]]);
      } else {
        r := Err(PublishFailed);
      }
      Book(id, if linkFails then Fails else Runs(0), before, id, origin);
    }

    /** `write_and_publish`: write, sync, then link; a failure goes straight to the unlink. */
    method WriteAndPublish(id: WriterId, pid: nat, text: string, temp: Name, inode: Inode, ghost origin: System)
      returns (r: Outcome)
      requires Stands(origin, id, Writer(pid, text, Writing(temp, inode, 0)))
      modifies this
      ensures Stands(origin, id, Writer(pid, text, Unlinking(temp, inode, r)))
    {
      var ok := WriteAll(id, pid, text, temp, inode, origin);
      if ok {
        ok := Sync(id, pid, text, temp, inode, origin);
      }
      if !ok {
        return Err(WriteFailed);
      }
      r := Link(id, pid, text, temp, inode, origin);
    }

    /** The last step: unlink the temporary file, ignoring a failure. */
    method RemoveTemporary(id: WriterId, pid: nat, text: string, temp: Name, inode: Inode, r: Outcome,
                           ghost origin: System)
      requires Stands(origin, id, Writer(pid, text, Unlinking(temp, inode, r)))
      modifies this
      ensures Stands(origin, id, Writer(pid, text, Done(r)))
    {
      Interfere(id, origin, Writer(pid, text, Unlinking(temp, inode, r)));
      var fails := refuses(Unlinking(temp, inode, r));
      var before := fs;
      if !fails {
        fs := fs.(names := fs.names - {temp});
      }
      Book(id, if fails then Fails else Runs(0), before, id, origin);
    }

    /** `publish`: success means that the target holds this writer's whole text, already-exists that another
        writer's success is there, and an existing target always refuses. */
    method Publish(id: WriterId, pid: nat, text: string) returns (r: Outcome)
      requires Inv(file, Now()) && history == [] && id in writers && writers[id] == Writer(pid, text, Creating(0))
      modifies this
      ensures Stands(old(Now()), id, Writer(pid, text, Done(r)))
      ensures Means(file, Now(), id, text, r)
      ensures old(file in fs.names) ==> r.Err?
      ensures Explained(file, old(Now()), history, id, pid, r)
      ensures (forall p: Pc :: !refuses(p)) ==> r in {Ok(()), Err(Exists), Err(InvalidTarget)}
    {
      ghost var origin := Now();
      var created := CreateTemporary(id, pid, text, origin);
      if created.Err? {
        r := Err(created.error);
      } else {
        var (temp, inode) := created.value;
        r := WriteAndPublish(id, pid, text, temp, inode, origin);
        RemoveTemporary(id, pid, text, temp, inode, r, origin);
      }
      OutcomeMeans(file, origin, history, id, r);
      OutcomeExplained(file, origin, history, id, r);
      if forall p: Pc :: !refuses(p) {
        WillingMeansNoFailure(file, origin, history, id, refuses);
        OnlyOwnFailures(file, origin, history, id);
      }
    }
  }

  /** What an outcome tells the caller about the target. */
  ghost predicate Means(file: Name, s: System, id: WriterId, text: string, r: Outcome) {
    && (r.Ok? ==> file in s.fs.names && s.fs.names[file] in s.fs.contents && s.fs.contents[s.fs.names[file]] == text)
    && (r == Err(Exists) ==> file in s.fs.names && exists w :: w in s.writers && w != id && Linked(s.writers[w].pc))
  }

  lemma OutcomeMeans(file: Name, s: System, steps: Schedule, id: WriterId, r: Outcome)
    requires Inv(file, s) && id in s.writers && s.writers[id].pc == Creating(0)
    requires Run(file, s, steps).writers[id].pc == Done(r)
    ensures Means(file, Run(file, s, steps), id, s.writers[id].text, r)
    ensures file in s.fs.names ==> r.Err?
  {
    var t := Run(file, s, steps);
    RunKeepsInv(file, s, steps);
    assert RespectsTarget(file, t.fs, t.writers[id]);
    if file in s.fs.names {
      NoLateWinner(file, s, steps, id);
    }
  }

  /** What an outcome tells the caller about the run: an I/O error is that of an operation of this writer that failed,
      and it gives up for lack of a name only when all its names were taken. */
  ghost predicate Explained(file: Name, s: System, steps: Schedule, id: WriterId, pid: nat, r: Outcome)
    requires id in s.writers
  {
    && (r.Err? && r.error in {CreateFailed, WriteFailed, PublishFailed} ==> FailedAs(file, s, steps, id, r.error))
    && (r == Err(InvalidTarget) ==>
          forall a: nat :: a < MAX_ATTEMPTS ==> EverTaken(file, s, steps, TempName(file, pid, a)))
  }

  lemma OutcomeExplained(file: Name, s: System, steps: Schedule, id: WriterId, r: Outcome)
    requires Inv(file, s) && id in s.writers && s.writers[id].pc == Creating(0)
    requires Run(file, s, steps).writers[id].pc == Done(r)
    ensures Explained(file, s, steps, id, s.writers[id].pid, r)
  {
    if r.Err? && r.error in {CreateFailed, WriteFailed, PublishFailed} {
      ErrorNamesFailure(file, s, steps, id, r.error);
    }
    if r == Err(InvalidTarget) {
      forall a: nat | a < MAX_ATTEMPTS ensures EverTaken(file, s, steps, TempName(file, s.writers[id].pid, a)) {
        OutOfNames(file, s, steps, id, a);
      }
    }
  }

  /** A writer that has not linked cannot win once the target exists. */
  lemma {:induction false} NoLateWinner(file: Name, s: System, steps: Schedule, id: WriterId)
    requires Inv(file, s) && file in s.fs.names && id in s.writers && !Linked(s.writers[id].pc)
    ensures !Linked(Run(file, s, steps).writers[id].pc)
    decreases |steps|
  {
    if steps == [] {
    } else {
      var who, io := steps[0].0, steps[0].1;
      if who in s.writers {
        StepKeepsInv(file, s, who, io);
        OwnStep(file, s.fs, s.writers[who], io);
        NoLateWinner(file, Advance(file, s, who, io), steps[1..], id);
      } else {
        NoLateWinner(file, s, steps[1..], id);
      }
    }
  }
}
