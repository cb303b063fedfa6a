/** What publishing achieves (aviate-apps/sitl-xplane-alia250/src/artifact.rs): writers come to an end, only failures
    of their own make them fail, and without failures one of them publishes and nothing is left behind. */
module Publication {
  import opened Common
  import opened Artifact

  function Stepped(file: Name, s: System, step: (WriterId, Io)): (t: System)
    ensures t.writers.Keys == s.writers.Keys
  {
    if step.0 in s.writers then Advance(file, s, step.0, step.1) else s
  }

  lemma SteppedKeepsInv(file: Name, s: System, step: (WriterId, Io))
    requires Inv(file, s)
    ensures Inv(file, Stepped(file, s, step))
  {
    if step.0 in s.writers {
      StepKeepsInv(file, s, step.0, step.1);
    }
  }

  // ---------- every writer comes to an end ----------

  /** How many operations a writer has ahead of it at most. */
  function Ahead(w: Writer): nat {
    match w.pc
    case Creating(a) => (if a < MAX_ATTEMPTS then MAX_ATTEMPTS - a else 0) + |w.text| + 5
    case Writing(_, _, n) => (if n < |w.text| then |w.text| - n else 0) + 4
    case Syncing(_, _) => 3
    case Linking(_, _) => 2
    case Unlinking(_, _, _) => 1
    case Done(_) => 0
  }

  /** The operations of writer `id`, where a write that runs takes at least one byte. */
  function Operations(steps: Schedule, id: WriterId): nat {
    if steps == [] then 0
    else (if steps[0].0 == id && steps[0].1 != Runs(0) then 1 else 0) + Operations(steps[1..], id)
  }

  lemma OneLessAhead(file: Name, s: System, step: (WriterId, Io), id: WriterId)
    requires id in s.writers
    ensures var w, v := s.writers[id], Stepped(file, s, step).writers[id];
      && Ahead(v) <= Ahead(w)
      && (step.0 == id && step.1 != Runs(0) && Ahead(w) > 0 ==> Ahead(v) < Ahead(w))
  {
  }

  /** Whatever the others do, a writer that gets to take so many operations, failing or not, has returned. */
  lemma {:induction false} WriterReturns(file: Name, s: System, steps: Schedule, id: WriterId)
    requires id in s.writers && Ahead(s.writers[id]) <= Operations(steps, id)
    ensures Run(file, s, steps).writers[id].pc.Done?
    decreases |steps|
  {
    if steps == [] {
    } else {
      OneLessAhead(file, s, steps[0], id);
      WriterReturns(file, Stepped(file, s, steps[0]), steps[1..], id);
    }
  }

  // ---------- only failures of its own make a writer fail ----------

  predicate FailedIn(steps: Schedule, id: WriterId) { exists i :: 0 <= i < |steps| && steps[i] == (id, Fails) }

  /** No verdict yet, or one that needs no failure. */
  predicate Blameless(p: Pc) {
    p.Unlinking? || p.Done? ==> p.outcome in {Ok(()), Err(Exists), Err(InvalidTarget)}
  }

  lemma StaysBlameless(file: Name, s: System, step: (WriterId, Io), id: WriterId)
    requires Inv(file, s) && id in s.writers && Blameless(s.writers[id].pc) && step != (id, Fails)
    ensures Blameless(Stepped(file, s, step).writers[id].pc)
  {
    assert OwnsTemp(file, s.fs, s.writers[id]);
  }

  /** A writer none of whose own operations failed returns success, an existing target, or the end of its names. */
  lemma {:induction false} OnlyOwnFailures(file: Name, s: System, steps: Schedule, id: WriterId)
    requires Inv(file, s) && id in s.writers && Blameless(s.writers[id].pc) && !FailedIn(steps, id)
    ensures Blameless(Run(file, s, steps).writers[id].pc)
    decreases |steps|
  {
    if steps == [] {
    } else {
      assert steps[0] != (id, Fails);
      assert !FailedIn(steps[1..], id) by {
        forall i | 0 <= i < |steps[1..]| ensures steps[1..][i] != (id, Fails) {
          assert steps[1..][i] == steps[i + 1];
        }
      }
      StaysBlameless(file, s, steps[0], id);
      SteppedKeepsInv(file, s, steps[0]);
      OnlyOwnFailures(file, Stepped(file, s, steps[0]), steps[1..], id);
    }
  }

  /** The error that a failure at this point of `publish` is reported as; the last unlink's is ignored. */
  function ReportedAs(p: Pc): Option<Error> {
    match p
    case Creating(a) => if a < MAX_ATTEMPTS then Some(CreateFailed) else None
    case Writing(_, _, _) => Some(WriteFailed)
    case Syncing(_, _) => Some(WriteFailed)
    case Linking(_, _) => Some(PublishFailed)
    case _ => None
  }

  /** In the run an operation of the writer failed that is reported as `e`. */
  predicate FailedAs(file: Name, s: System, steps: Schedule, id: WriterId, e: Error)
    requires id in s.writers
    decreases |steps|
  {
    steps != [] &&
    (|| (steps[0] == (id, Fails) && ReportedAs(s.writers[id].pc) == Some(e))
     || FailedAs(file, Stepped(file, s, steps[0]), steps[1..], id, e))
  }

  lemma {:induction false} VerdictStays(file: Name, s: System, steps: Schedule, id: WriterId)
    requires id in s.writers && (s.writers[id].pc.Unlinking? || s.writers[id].pc.Done?)
    requires Run(file, s, steps).writers[id].pc.Done?
    ensures Run(file, s, steps).writers[id].pc.outcome == s.writers[id].pc.outcome
    decreases |steps|
  {
    if steps == [] {
    } else {
      VerdictStays(file, Stepped(file, s, steps[0]), steps[1..], id);
    }
  }

  lemma VerdictComesFromFailure(file: Name, fs: FileSystem, w: Writer, io: Io, e: Error)
    requires OwnsTemp(file, fs, w) && !w.pc.Unlinking? && !w.pc.Done?
    requires var p := AdvancePc(file, fs, w, io); (p.Unlinking? || p.Done?) && p.outcome == Err(e)
    requires e in {CreateFailed, WriteFailed, PublishFailed}
    ensures io == Fails && ReportedAs(w.pc) == Some(e)
  {
  }

  /** A create, write or publish error that a writer returns is that of an operation of its own that failed. */
  lemma {:induction false} ErrorNamesFailure(file: Name, s: System, steps: Schedule, id: WriterId, e: Error)
    requires Inv(file, s) && id in s.writers && !s.writers[id].pc.Unlinking? && !s.writers[id].pc.Done?
    requires Run(file, s, steps).writers[id].pc == Done(Err(e)) && e in {CreateFailed, WriteFailed, PublishFailed}
    ensures FailedAs(file, s, steps, id, e)
    decreases |steps|
  {
    var next := Stepped(file, s, steps[0]);
    if next.writers[id].pc.Unlinking? || next.writers[id].pc.Done? {
      VerdictStays(file, next, steps[1..], id);
      VerdictComesFromFailure(file, s.fs, s.writers[id], steps[0].1, e);
    } else {
      SteppedKeepsInv(file, s, steps[0]);
      ErrorNamesFailure(file, next, steps[1..], id, e);
    }
  }

  // ---------- running out of names ----------

  /** Some time in the run the name was taken. */
  predicate EverTaken(file: Name, s: System, steps: Schedule, n: Name)
    decreases |steps|
  {
    n in s.fs.names || (steps != [] && EverTaken(file, Stepped(file, s, steps[0]), steps[1..], n))
  }

  lemma {:induction false} CreatedHasAName(file: Name, s: System, steps: Schedule, id: WriterId)
    requires id in s.writers && !s.writers[id].pc.Creating?
    requires s.writers[id].pc.Unlinking? || s.writers[id].pc.Done? ==> s.writers[id].pc.outcome != Err(InvalidTarget)
    ensures Run(file, s, steps).writers[id].pc != Done(Err(InvalidTarget))
    decreases |steps|
  {
    if steps == [] {
    } else {
      CreatedHasAName(file, Stepped(file, s, steps[0]), steps[1..], id);
    }
  }

  /** A writer gives up for lack of a name only when each of its hundred names was taken. */
  lemma {:induction false} OutOfNames(file: Name, s: System, steps: Schedule, id: WriterId, attempt: nat)
    requires id in s.writers && s.writers[id].pc.Creating? && s.writers[id].pc.attempt <= attempt < MAX_ATTEMPTS
    requires Run(file, s, steps).writers[id].pc == Done(Err(InvalidTarget))
    ensures EverTaken(file, s, steps, TempName(file, s.writers[id].pid, attempt))
    decreases |steps|
  {
    var next, w := Stepped(file, s, steps[0]), s.writers[id];
    if !next.writers[id].pc.Creating? {
      CreatedHasAName(file, next, steps[1..], id);
    } else if next.writers[id].pc.attempt <= attempt {
      OutOfNames(file, next, steps[1..], id, attempt);
    }
  }

  // ---------- what is left in the directory ----------

  predicate NoFailures(steps: Schedule) { forall i :: 0 <= i < |steps| ==> steps[i].1.Runs? }

  /** Every name was there before, is the target, or is a live writer's temporary. */
  ghost predicate Tidy(file: Name, before: set<Name>, s: System) {
    forall n :: n in s.fs.names && n !in before && n != file ==> TempOfSomeone(s, n)
  }

  ghost predicate TempOfSomeone(s: System, n: Name) {
    exists id :: id in s.writers && Live(s.writers[id].pc) && s.writers[id].pc.temp == n
  }

  lemma StaysTidy(file: Name, before: set<Name>, s: System, step: (WriterId, Io))
    requires Inv(file, s) && Tidy(file, before, s) && step.1.Runs?
    ensures Tidy(file, before, Stepped(file, s, step))
  {
    var t := Stepped(file, s, step);
    forall n | n in t.fs.names && n !in before && n != file ensures TempOfSomeone(t, n) {
      if n in s.fs.names {
        var id :| id in s.writers && Live(s.writers[id].pc) && s.writers[id].pc.temp == n;
        assert id in t.writers && Live(t.writers[id].pc) && t.writers[id].pc.temp == n;
      } else {
        assert step.0 in t.writers && Live(t.writers[step.0].pc) && t.writers[step.0].pc.temp == n;
      }
    }
  }

  lemma {:induction false} RunStaysTidy(file: Name, before: set<Name>, s: System, steps: Schedule)
    requires Inv(file, s) && Tidy(file, before, s) && NoFailures(steps)
    ensures Tidy(file, before, Run(file, s, steps))
    decreases |steps|
  {
    if steps == [] {
    } else {
      StaysTidy(file, before, s, steps[0]);
      SteppedKeepsInv(file, s, steps[0]);
      RunStaysTidy(file, before, Stepped(file, s, steps[0]), steps[1..]);
    }
  }

  // ---------- without failures one writer publishes ----------

  predicate AllDone(s: System) { forall id :: id in s.writers ==> s.writers[id].pc.Done? }

  /** Writer `w` published, and the others met the target or ran out of names. */
  ghost predicate Published(file: Name, s: System, w: WriterId) {
    && w in s.writers && s.writers[w].pc == Done(Ok(()))
    && (forall v :: v in s.writers && v != w ==> s.writers[v].pc in {Done(Err(Exists)), Done(Err(InvalidTarget))})
    && file in s.fs.names && s.fs.names[file] in s.fs.contents && s.fs.contents[s.fs.names[file]] == s.writers[w].text
  }

  /** The directory holds what it held, and the target. */
  ghost predicate OnlyAdds(file: Name, s: System, t: System) {
    && t.fs.names.Keys == s.fs.names.Keys + {file}
    && forall n :: n in s.fs.names ==>
         && t.fs.names[n] == s.fs.names[n] && s.fs.names[n] in s.fs.contents && s.fs.names[n] in t.fs.contents
         && t.fs.contents[s.fs.names[n]] == s.fs.contents[s.fs.names[n]]
  }

  lemma InitialInv(file: Name, s: System)
    requires Initial(file, s)
    ensures Inv(file, s)
  {
  }

  lemma OneWriterPublished(file: Name, t: System, any: WriterId)
    requires Inv(file, t) && AllDone(t) && any in t.writers && t.writers[any].pc != Done(Err(InvalidTarget))
    requires forall id :: id in t.writers ==> Blameless(t.writers[id].pc)
    ensures exists w :: Published(file, t, w)
  {
    assert RespectsTarget(file, t.fs, t.writers[any]) && Blameless(t.writers[any].pc);
    assert file in t.fs.names;
    var w :| w in t.writers && Linked(t.writers[w].pc);
    assert RespectsTarget(file, t.fs, t.writers[w]);
    forall v | v in t.writers && v != w ensures t.writers[v].pc in {Done(Err(Exists)), Done(Err(InvalidTarget))} {
      assert Disjoint(t.writers[v], t.writers[w]) && Blameless(t.writers[v].pc);
    }
    assert Published(file, t, w);
  }

  lemma OldNamesStay(file: Name, s: System, steps: Schedule)
    requires Initial(file, s)
    ensures forall n :: n in s.fs.names ==>
              var t := Run(file, s, steps);
              && n in t.fs.names && t.fs.names[n] == s.fs.names[n]
              && s.fs.names[n] in s.fs.contents && s.fs.names[n] in t.fs.contents
              && t.fs.contents[s.fs.names[n]] == s.fs.contents[s.fs.names[n]]
  {
    InitialInv(file, s);
    forall n | n in s.fs.names
      ensures var t := Run(file, s, steps);
        && n in t.fs.names && t.fs.names[n] == s.fs.names[n]
        && s.fs.names[n] in s.fs.contents && s.fs.names[n] in t.fs.contents
        && t.fs.contents[s.fs.names[n]] == s.fs.contents[s.fs.names[n]]
    {
      BystandersUntouched(file, s, steps, n);
    }
  }

  /** In every interleaving in which no operation fails and all writers return, if any of them found a name then
      exactly one published its text, the others were refused by the target or found no name, and the directory holds
      what it held before and the target: no temporary file is left. */
  lemma OnePublishes(file: Name, s: System, steps: Schedule, any: WriterId)
    requires Initial(file, s) && NoFailures(steps) && AllDone(Run(file, s, steps))
    requires any in s.writers && Run(file, s, steps).writers[any].pc != Done(Err(InvalidTarget))
    ensures exists w :: Published(file, Run(file, s, steps), w)
    ensures OnlyAdds(file, s, Run(file, s, steps))
  {
    var t := Run(file, s, steps);
    InitialInv(file, s);
    RunKeepsInv(file, s, steps);
    forall id | id in t.writers ensures Blameless(t.writers[id].pc) {
      OnlyOwnFailures(file, s, steps, id);
    }
    OneWriterPublished(file, t, any);
    RunStaysTidy(file, s.fs.names.Keys, s, steps);
    OldNamesStay(file, s, steps);
    forall n | n in t.fs.names ensures n in s.fs.names.Keys + {file} {
      assert !TempOfSomeone(t, n);
    }
  }

  /** A single writer that finds one of its names free and meets no failure publishes its text. */
  lemma AloneItPublishes(file: Name, s: System, steps: Schedule, id: WriterId, attempt: nat)
    requires Initial(file, s) && s.writers.Keys == {id} && NoFailures(steps)
    requires attempt < MAX_ATTEMPTS && !EverTaken(file, s, steps, TempName(file, s.writers[id].pid, attempt))
    requires Ahead(s.writers[id]) <= Operations(steps, id)
    ensures Published(file, Run(file, s, steps), id) && OnlyAdds(file, s, Run(file, s, steps))
  {
    WriterReturns(file, s, steps, id);
    if Run(file, s, steps).writers[id].pc == Done(Err(InvalidTarget)) {
      OutOfNames(file, s, steps, id, attempt);
    }
    OnePublishes(file, s, steps, id);
  }
}
