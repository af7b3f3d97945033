/** When the in-memory job table and the persisted records agree, and exactly which
    stop lets a stopped job come back. */
module SchedulerAgreement {
  import opened Options
  import opened Scheduler
  import opened SchedulerRuns

  // ---------- a job that nothing brings back ----------

  /** Neither in the table nor in the store, and no goroutine can put it back. */
  ghost predicate Gone(s: Sys, id: string) {
    && id !in s.table && id !in s.store
    && (forall o :: o in s.objs && o.0 == id ==> Inert(s.objs[o]))
  }

  lemma GoneMove(s: Sys, st: Step, id: string)
    requires Named(s) && Enabled(s, st) && st.Go? && Gone(s, id)
    ensures Gone(Next(s, st), id)
  {
    assert IsNamed(s.objs[st.o], st.o.0);
    if st.o.0 == id { InertMoved(s.objs[st.o], st.m); }
  }

  lemma GoneKept(s: Sys, st: Step, id: string)
    requires Named(s) && Enabled(s, st) && Gone(s, id) && !(st.CreateJob? && st.id == id)
    ensures Gone(Next(s, st), id)
  {
    if st.Go? { GoneMove(s, st, id); }
    else if st.StopJob? || st.UpdateJob? { GoneCall(s, st, id); }
  }

  lemma GoneCall(s: Sys, st: Step, id: string)
    requires Named(s) && Enabled(s, st) && Gone(s, id) && (st.StopJob? || st.UpdateJob?)
    ensures Gone(Next(s, st), id)
  {
    CallStep(s, st);
    assert IsNamed(s.objs[(st.id, s.table[st.id])], st.id);
  }

  ghost predicate NeverCreates(steps: seq<Step>, id: string) {
    forall k :: 0 <= k < |steps| && steps[k].CreateJob? ==> steps[k].id != id
  }

  lemma {:induction false} GoneForever(s: Sys, steps: seq<Step>, t: Sys, id: string)
    requires Named(s) && IsRun(s, steps, t) && Gone(s, id) && NeverCreates(steps, id)
    ensures Gone(t, id)
    decreases |steps|
  {
    if steps != [] {
      NamedKept(s, steps[0]);
      GoneKept(s, steps[0], id);
      GoneForever(Next(s, steps[0]), steps[1..], t, id);
    }
  }

  // ---------- the way back ----------

  /** The next step towards the save of a goroutine that can still save. */
  function TowardsSave(phase: Phase): Move {
    match phase
    case Launched => StartLoop
    case Ready => TestEnabled
    case Entering => Enter
    case Marked => CopyMark
    case Marking => PutMark(true)
    case Working => EndTask(true)
    case Unsaved => CopyResult
    case _ => PutResult(true)
  }

  function StepsToSave(phase: Phase): nat {
    match phase
    case Launched => 5
    case Ready => 4
    case Entering => 3
    case Marked => 2
    case Marking => 1
    case Working => 3
    case Unsaved => 2
    case _ => 1
  }

  lemma SaveCloser(obj: Obj)
    requires CanSave(obj)
    ensures var m := TowardsSave(obj.phase);
            && CanMove(obj, m)
            && (Puts(m) || (CanSave(Moved(obj, m)) && StepsToSave(Moved(obj, m).phase) < StepsToSave(obj.phase)))
  {
  }

  lemma {:induction false} SavesSoon(s: Sys, o: Ref) returns (steps: seq<Step>, t: Sys)
    requires Named(s) && o in s.objs && CanSave(s.objs[o])
    ensures IsRun(s, steps, t) && o.0 in t.store && NeverCreates(steps, o.0)
    decreases StepsToSave(s.objs[o].phase)
  {
    var st := Go(o, TowardsSave(s.objs[o].phase));
    SaveCloser(s.objs[o]);
    NamedMove(s, st);
    t := Next(s, st);
    if Puts(st.m) {
      steps := [];
      assert IsNamed(s.objs[o], o.0);
      assert IsRun(t, [], t);
    } else {
      steps, t := SavesSoon(t, o);
    }
    assert ([st] + steps)[1..] == steps;
    steps := [st] + steps;
  }

  /** Some run without a new request for `id` ends with a record of it. */
  ghost predicate ComesBack(s: Sys, id: string) {
    exists steps, t :: IsRun(s, steps, t) && NeverCreates(steps, id) && id in t.store
  }

  /** Objects of the job that the table has dropped are at rest. */
  ghost predicate OthersAtRest(s: Sys, id: string)
    requires id in s.table
  {
    forall o :: o in s.objs && o.0 == id && o.1 != s.table[id] ==> Inert(s.objs[o])
  }

  lemma DropReturns(s: Sys, id: string)
    requires Named(s) && s.stopping == Some(id) && CanSave(s.objs[(id, s.table[id])])
    ensures ComesBack(Next(s, DropJob(true)), id)
  {
    NamedKept(s, DropJob(true));
    var steps, t := SavesSoon(Next(s, DropJob(true)), (id, s.table[id]));
  }

  /** Between the halves of a stop only goroutines move. */
  ghost predicate OnlyMoves(steps: seq<Step>) {
    forall k :: 0 <= k < |steps| ==> steps[k].Go?
  }

  /** A stopped object of the table at rest, and the others of its job. */
  ghost predicate AtRest(s: Sys, id: string) {
    s.stopping == Some(id) && id in s.table && forall o :: o in s.objs && o.0 == id ==> Inert(s.objs[o])
  }

  lemma {:induction false} RestIsKept(s: Sys, steps: seq<Step>, t: Sys, id: string)
    requires Named(s) && AtRest(s, id) && IsRun(s, steps, t) && OnlyMoves(steps)
    ensures Named(t) && AtRest(t, id) && (id in t.store <==> id in s.store)
    decreases |steps|
  {
    if steps != [] {
      RestMove(s, steps[0], id);
      RestIsKept(Next(s, steps[0]), steps[1..], t, id);
    }
  }

  lemma RestMove(s: Sys, st: Step, id: string)
    requires Named(s) && AtRest(s, id) && Enabled(s, st) && st.Go?
    ensures Named(Next(s, st)) && AtRest(Next(s, st), id) && (id in Next(s, st).store <==> id in s.store)
  {
    NamedMove(s, st);
    var obj := s.objs[st.o];
    assert IsNamed(obj, st.o.0);
    if st.o.0 == id { InertMoved(obj, st.m); }
    RestReplaced(s, st.o, Moved(obj, st.m), id);
  }

  lemma RestReplaced(s: Sys, o: Ref, obj: Obj, id: string)
    requires AtRest(s, id) && o in s.objs && (o.0 == id ==> Inert(obj))
    ensures AtRest(SetObj(s, o, obj), id)
  {
  }

  /** After a stop that deletes the record, however the goroutines move meanwhile, some run brings the record back. */
  ghost predicate ReturnsAfterStop(s: Sys, id: string)
    requires Enabled(s, StopJob(id))
  {
    exists steps, m :: IsRun(Next(s, StopJob(id)), steps, m) && OnlyMoves(steps) && m.stopping == Some(id)
                       && ComesBack(Next(m, DropJob(true)), id)
  }

  lemma StoppedObjRests(obj: Obj)
    ensures CanSave(StoppedObj(obj)) <==> CanSave(obj)
    ensures CanSave(obj) || Inert(StoppedObj(obj))
  {
  }

  lemma StopRests(s: Sys, id: string)
    requires Named(s) && Enabled(s, StopJob(id)) && OthersAtRest(s, id) && !CanSave(s.objs[(id, s.table[id])])
    ensures Named(Next(s, StopJob(id))) && AtRest(Next(s, StopJob(id)), id)
  {
    NamedCall(s, StopJob(id));
    CallStep(s, StopJob(id));
    StoppedObjRests(s.objs[(id, s.table[id])]);
  }

  lemma RestThenGone(n: Sys, id: string, during: seq<Step>, m: Sys, after: seq<Step>, t: Sys)
    requires Named(n) && AtRest(n, id) && IsRun(n, during, m) && OnlyMoves(during) && m.stopping == Some(id)
    requires IsRun(Next(m, DropJob(true)), after, t) && NeverCreates(after, id)
    ensures Gone(t, id)
  {
    RestIsKept(n, during, m, id);
    NamedKept(m, DropJob(true));
    assert Gone(Next(m, DropJob(true)), id);
    GoneForever(Next(m, DropJob(true)), after, t, id);
  }

  lemma StopReturns(s: Sys, id: string)
    requires Named(s) && Enabled(s, StopJob(id)) && CanSave(s.objs[(id, s.table[id])])
    ensures ReturnsAfterStop(s, id)
  {
    var n := Next(s, StopJob(id));
    NamedCall(s, StopJob(id));
    CallStep(s, StopJob(id));
    StoppedObjRests(s.objs[(id, s.table[id])]);
    DropReturns(n, id);
    assert IsRun(n, [], n) && OnlyMoves([]);
  }

  /** A stop is final if and only if it does not reach the job while its goroutine has a save ahead of it: from the
      look at the enabled flag that lets it in, or the launch of an enabled job, to the save of the outcome. */
  lemma StopIsFinalIff(s: Sys, id: string)
    requires Named(s) && Enabled(s, StopJob(id)) && OthersAtRest(s, id)
    ensures ReturnsAfterStop(s, id) <==> CanSave(s.objs[(id, s.table[id])])
  {
    if CanSave(s.objs[(id, s.table[id])]) {
      StopReturns(s, id);
    } else {
      StopRests(s, id);
      forall steps, m, after, t |
        IsRun(Next(s, StopJob(id)), steps, m) && OnlyMoves(steps) && m.stopping == Some(id)
        && IsRun(Next(m, DropJob(true)), after, t) && NeverCreates(after, id)
        ensures id !in t.store
      {
        RestThenGone(Next(s, StopJob(id)), id, steps, m, after, t);
      }
    }
  }

  // ---------- agreement ----------

  /** The status an object in the table has in each phase. */
  function StatusOf(phase: Phase): JobStatus {
    if phase in {Marked, Marking, Working} then Executing else Scheduled
  }

  /** Between a change of the object and the end of the save that follows it. */
  predicate IsSaving(phase: Phase) {
    phase in {Marked, Marking, Unsaved, Saving}
  }

  /** An object of the table and its record: the same up to what a restart would make of them, except during a save. */
  ghost predicate Matches(obj: Obj, j: Job) {
    && obj.job.id == j.id && obj.job.config == j.config
    && obj.job.status == StatusOf(obj.phase) && j.status != Stopped
    && obj.phase != Exited && !obj.cancelled
    && (obj.phase in {Marking, Saving} ==> obj.copy == obj.job)
    && (!IsSaving(obj.phase) ==> Recover(obj.job) == Recover(j))
  }

  /** An object that a stop has reached, while its record is still there. */
  ghost predicate IsLeaving(obj: Obj, j: Job) {
    Inert(obj) && obj.job.id == j.id && obj.job.config == j.config && j.status != Stopped
  }

  ghost predicate PairedAt(s: Sys, id: string) {
    && (id in s.table <==> id in s.store)
    && (id in s.table ==>
          && (id, s.table[id]) in s.objs
          && var obj := s.objs[(id, s.table[id])];
             if s.stopping == Some(id) then IsLeaving(obj, s.store[id]) else Matches(obj, s.store[id]))
  }

  ghost predicate Paired(s: Sys) {
    forall id :: PairedAt(s, id)
  }

  ghost predicate StrayInert(s: Sys) {
    forall o :: o in s.objs && !InTable(s, o) ==> Inert(s.objs[o])
  }

  ghost predicate NoDuplicates(store: Table) {
    forall a, b :: a in store && b in store && store[a].config == store[b].config ==> a == b
  }

  ghost predicate Agree(s: Sys) {
    Named(s) && Paired(s) && StrayInert(s) && NoDuplicates(s.store)
  }

  /** No store failure, no stop while the goroutine still has a save ahead of it, and no update of a job between the
      copy of a save and its put. */
  ghost predicate Careful(s: Sys, st: Step)
    requires Enabled(s, st)
  {
    match st
    case StopJob(id) => !CanSave(s.objs[(id, s.table[id])])
    case DropJob(ok) => ok
    case UpdateJob(id, _, _, ok) => ok && s.objs[(id, s.table[id])].phase !in {Marking, Saving}
    case Go(_, m) => (m.PutMark? || m.PutResult?) ==> m.ok
    case _ => true
  }

  /** Jobs of the table and of the store have the same configuration. */
  lemma SameConfigs(s: Sys, id: string)
    requires Agree(s) && id in s.store
    ensures id in s.table && (id, s.table[id]) in s.objs && id in InMemory(s)
    ensures InMemory(s)[id].config == s.store[id].config
  {
    assert PairedAt(s, id);
  }

  lemma AcceptedIsNew(s: Sys, st: Step)
    requires Agree(s) && Enabled(s, st) && st.CreateJob?
    ensures st.id !in s.table && st.id !in s.store
    ensures forall id :: id in s.store ==> s.store[id].config != st.config
  {
    assert PairedAt(s, st.id);
    forall id | id in s.store ensures s.store[id].config != st.config {
      SameConfigs(s, id);
    }
  }

  lemma PairedCreate(s: Sys, st: Step)
    requires Agree(s) && Enabled(s, st) && st.CreateJob? && st.ok && st.id !in s.table && st.id !in s.store
    ensures Paired(Next(s, st))
  {
    var t := Next(s, st);
    forall id ensures PairedAt(t, id) {
      assert PairedAt(s, id);
    }
  }

  lemma StrayCreate(s: Sys, st: Step)
    requires Agree(s) && Enabled(s, st) && st.CreateJob? && st.ok && st.id !in s.table
    ensures StrayInert(Next(s, st))
  {
    var t := Next(s, st);
    forall o | o in t.objs && !InTable(t, o) ensures Inert(t.objs[o]) {
      assert o in s.objs && !InTable(s, o) && t.objs[o] == s.objs[o];
    }
  }

  lemma AgreeCreate(s: Sys, st: Step)
    requires Agree(s) && Enabled(s, st) && st.CreateJob? && st.ok
    ensures Agree(Next(s, st))
  {
    NamedCreate(s, st);
    AcceptedIsNew(s, st);
    PairedCreate(s, st);
    StrayCreate(s, st);
  }

  /** Changing one object of the table, and its record, keeps the rest as it was. */
  lemma AgreeReplace(s: Sys, t: Sys, o: Ref)
    requires Agree(s) && Named(t) && InTable(s, o) && o in s.objs && o in t.objs && o.0 in s.store && o.0 in t.store
    requires t.table == s.table && t.objs == s.objs[o := t.objs[o]] && t.store == s.store[o.0 := t.store[o.0]]
    requires t.stopping == s.stopping || (s.stopping == None && t.stopping == Some(o.0))
    requires PairedAt(t, o.0) && t.store[o.0].config == s.store[o.0].config
    ensures Agree(t)
  {
    forall id ensures PairedAt(t, id) { PairedReplace(s, t, o, id); }
    StrayReplace(s, t, o);
    DuplicatesReplace(s.store, t.store);
  }

  lemma PairedReplace(s: Sys, t: Sys, o: Ref, id: string)
    requires Paired(s) && InTable(s, o) && o in s.objs && o in t.objs && o.0 in s.store && o.0 in t.store
    requires t.table == s.table && t.objs == s.objs[o := t.objs[o]] && t.store == s.store[o.0 := t.store[o.0]]
    requires t.stopping == s.stopping || (s.stopping == None && t.stopping == Some(o.0))
    requires PairedAt(t, o.0)
    ensures PairedAt(t, id)
  {
    assert PairedAt(s, id);
  }

  lemma StrayReplace(s: Sys, t: Sys, o: Ref)
    requires StrayInert(s) && InTable(s, o) && o in t.objs && t.table == s.table && t.objs == s.objs[o := t.objs[o]]
    ensures StrayInert(t)
  {
  }

  lemma DuplicatesReplace(before: Table, after: Table)
    requires NoDuplicates(before)
    requires forall id :: id in after ==> id in before && after[id].config == before[id].config
    ensures NoDuplicates(after)
  {
  }

  lemma AgreeStop(s: Sys, st: Step)
    requires Agree(s) && Enabled(s, st) && st.StopJob? && Careful(s, st)
    ensures Agree(Next(s, st))
  {
    NamedCall(s, st);
    CallStep(s, st);
    PairedStop(s, Next(s, st), st.id);
    AgreeReplace(s, Next(s, st), (st.id, s.table[st.id]));
  }

  lemma PairedStop(s: Sys, t: Sys, id: string)
    requires Paired(s) && id in s.table && s.stopping == None
    requires var o := (id, s.table[id]);
             o in s.objs && o in t.objs && !CanSave(s.objs[o]) && t.objs[o] == StoppedObj(s.objs[o])
    requires t.table == s.table && t.store == s.store && t.stopping == Some(id)
    ensures id in s.store && PairedAt(t, id)
  {
    assert PairedAt(s, id);
    StoppedObjRests(s.objs[(id, s.table[id])]);
  }

  lemma AgreeDrop(s: Sys, st: Step)
    requires Agree(s) && Enabled(s, st) && st.DropJob? && Careful(s, st)
    ensures Agree(Next(s, st))
  {
    var t := Next(s, st);
    forall id ensures PairedAt(t, id) {
      assert PairedAt(s, id);
    }
    forall p | p in t.objs && !InTable(t, p) ensures Inert(t.objs[p]) {
      if InTable(s, p) { assert PairedAt(s, p.0); }
    }
    assert forall id :: id in t.store ==> id in s.store;
  }

  lemma UpdateMatches(obj: Obj, j: Job, newInterval: Option<int>, newEnabled: Option<bool>)
    requires Matches(obj, j) && obj.phase !in {Marking, Saving}
    ensures var k := UpdatedObj(obj, newInterval, newEnabled); Matches(k, k.job) && k.job.config == j.config
  {
  }

  lemma AgreeUpdate(s: Sys, st: Step)
    requires Agree(s) && Enabled(s, st) && st.UpdateJob? && Careful(s, st)
    ensures Agree(Next(s, st))
  {
    NamedCall(s, st);
    CallStep(s, st);
    var o := (st.id, s.table[st.id]);
    assert PairedAt(s, st.id);
    UpdateMatches(s.objs[o], s.store[st.id], st.newInterval, st.newEnabled);
    AgreeReplace(s, Next(s, st), o);
  }

  /** A step of the goroutine keeps a matching pair matching. */
  lemma MoveMatches(obj: Obj, j: Job, m: Move)
    requires Matches(obj, j) && CanMove(obj, m) && ((m.PutMark? || m.PutResult?) ==> m.ok)
    requires obj.copy.id == obj.job.id && obj.copy.config == obj.job.config
    ensures Matches(Moved(obj, m), if Puts(m) then obj.copy else j)
  {
  }

  lemma PairedMove(s: Sys, st: Step)
    requires Agree(s) && Enabled(s, st) && st.Go? && Careful(s, st) && InTable(s, st.o)
    ensures st.o.0 in s.store && PairedAt(Next(s, st), st.o.0)
  {
    var obj, id := s.objs[st.o], st.o.0;
    assert PairedAt(s, id) && IsNamed(obj, id);
    if s.stopping == Some(id) {
      InertMoved(obj, st.m);
      MovedNamed(obj, st.m, id);
    } else {
      MoveMatches(obj, s.store[id], st.m);
    }
  }

  lemma MoveChanges(s: Sys, st: Step)
    requires Agree(s) && Enabled(s, st) && st.Go? && st.o.0 in s.store && InTable(s, st.o)
    ensures var t, o := Next(s, st), st.o;
            && t.table == s.table && t.stopping == s.stopping && t.objs == s.objs[o := t.objs[o]]
            && o.0 in t.store && t.store == s.store[o.0 := t.store[o.0]]
            && t.store[o.0].config == s.store[o.0].config
  {
    assert PairedAt(s, st.o.0) && IsNamed(s.objs[st.o], st.o.0);
  }

  lemma AgreeMoveTable(s: Sys, st: Step)
    requires Agree(s) && Enabled(s, st) && st.Go? && Careful(s, st) && InTable(s, st.o)
    ensures Agree(Next(s, st))
  {
    NamedMove(s, st);
    PairedMove(s, st);
    MoveChanges(s, st);
    AgreeReplace(s, Next(s, st), st.o);
  }

  lemma AgreeMoveStray(s: Sys, st: Step)
    requires Agree(s) && Enabled(s, st) && st.Go? && !InTable(s, st.o)
    ensures Agree(Next(s, st))
  {
    NamedMove(s, st);
    InertMoved(s.objs[st.o], st.m);
    var t := Next(s, st);
    forall id ensures PairedAt(t, id) {
      assert PairedAt(s, id);
    }
  }

  lemma RecoveredMatches(j: Job)
    requires j.status != Stopped
    ensures Matches(Recovered(j), j)
  {
  }

  lemma AgreeRestart(s: Sys)
    requires Agree(s)
    ensures Agree(Next(s, Restart))
  {
    NamedKept(s, Restart);
    var t := Next(s, Restart);
    forall id ensures PairedAt(t, id) {
      assert PairedAt(s, id);
      if id in s.store { RecoveredMatches(s.store[id]); }
    }
  }

  lemma AgreeKept(s: Sys, st: Step)
    requires Agree(s) && Enabled(s, st) && Careful(s, st)
    ensures Agree(Next(s, st))
  {
    if st.CreateJob? { if st.ok { AgreeCreate(s, st); } }
    else if st.StopJob? { AgreeStop(s, st); }
    else if st.DropJob? { AgreeDrop(s, st); }
    else if st.UpdateJob? { AgreeUpdate(s, st); }
    else if st.Restart? { AgreeRestart(s); }
    else if InTable(s, st.o) { AgreeMoveTable(s, st); }
    else { AgreeMoveStray(s, st); }
  }

  ghost predicate IsCarefulRun(s: Sys, steps: seq<Step>, t: Sys)
    decreases |steps|
  {
    if steps == [] then t == s
    else Enabled(s, steps[0]) && Careful(s, steps[0]) && IsCarefulRun(Next(s, steps[0]), steps[1..], t)
  }

  lemma {:induction false} AgreeRun(s: Sys, steps: seq<Step>, t: Sys)
    requires Agree(s) && IsCarefulRun(s, steps, t)
    ensures Agree(t)
    decreases |steps|
  {
    if steps != [] {
      AgreeKept(s, steps[0]);
      AgreeRun(Next(s, steps[0]), steps[1..], t);
    }
  }

  // ---------- main results ----------

  lemma AfterRestart(t: Sys)
    ensures InMemory(Next(t, Restart)).Keys == t.store.Keys
    ensures forall id :: id in t.store ==> InMemory(Next(t, Restart))[id] == Recover(t.store[id])
  {
  }

  lemma AgreeTables(t: Sys)
    requires Agree(t)
    ensures InMemory(t).Keys == t.store.Keys
    ensures forall id :: id in t.store ==> InMemory(t)[id].config == t.store[id].config
    ensures forall id :: id in t.store && t.stopping != Some(id) ==> Matches(t.objs[(id, t.table[id])], t.store[id])
  {
    forall id ensures id in InMemory(t) <==> id in t.store {
      assert PairedAt(t, id);
    }
    forall id | id in t.store
      ensures InMemory(t)[id].config == t.store[id].config
      ensures t.stopping != Some(id) ==> Matches(t.objs[(id, t.table[id])], t.store[id])
    {
      assert PairedAt(t, id);
    }
  }

  /** Without store failures, with stops only where they are final and no update in the middle of a save: memory and
      store hold the same jobs, equal up to what a restart makes of them, except during a save or a stop; no two jobs
      share the six fields; and a restart brings back exactly the jobs of the table. */
  lemma Agreement(steps: seq<Step>, t: Sys)
    requires IsCarefulRun(EMPTY, steps, t)
    ensures InMemory(t).Keys == t.store.Keys == InMemory(Next(t, Restart)).Keys
    ensures forall a, b :: a in t.store && b in t.store && InMemory(t)[a].config == InMemory(t)[b].config ==> a == b
    ensures forall id :: id in t.store && t.stopping != Some(id) && !IsSaving(t.objs[(id, t.table[id])].phase) ==>
              Recover(InMemory(t)[id]) == Recover(t.store[id]) == InMemory(Next(t, Restart))[id]
  {
    AgreeRun(EMPTY, steps, t);
    AgreeTables(t);
    AfterRestart(t);
  }

  /** `t` comes some time after a stop of `id` at `s` that deletes the record, without a new request for it. */
  ghost predicate ComesAfterStop(s: Sys, id: string, t: Sys)
    requires Enabled(s, StopJob(id))
  {
    exists during, m, after :: IsRun(Next(s, StopJob(id)), during, m) && OnlyMoves(during) && m.stopping == Some(id)
                               && IsRun(Next(m, DropJob(true)), after, t) && NeverCreates(after, id)
  }

  lemma FinalFromAgreement(s: Sys, id: string, t: Sys)
    requires Agree(s) && Enabled(s, StopJob(id)) && Careful(s, StopJob(id)) && ComesAfterStop(s, id, t)
    ensures id !in t.table && id !in t.store
  {
    StopRests(s, id);
    var during, m, after :| IsRun(Next(s, StopJob(id)), during, m) && OnlyMoves(during) && m.stopping == Some(id)
                            && IsRun(Next(m, DropJob(true)), after, t) && NeverCreates(after, id);
    RestThenGone(Next(s, StopJob(id)), id, during, m, after, t);
  }

  /** In such a run a stopped job stays out of the table and of the store, over every restart, until it is asked for
      again. What follows the stop need not even be careful. */
  lemma StoppedStaysStopped(before: seq<Step>, s: Sys, id: string, t: Sys)
    requires IsCarefulRun(EMPTY, before, s) && Enabled(s, StopJob(id)) && Careful(s, StopJob(id))
    requires ComesAfterStop(s, id, t)
    ensures id !in t.table && id !in t.store
  {
    AgreeRun(EMPTY, before, s);
    FinalFromAgreement(s, id, t);
  }
}
