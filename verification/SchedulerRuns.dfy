/** Runs of the scheduler: API calls, job goroutines, store failures and process
    restarts, interleaved in any order between their critical sections. */
module SchedulerRuns {
  import opened Options
  import opened Scheduler

  /** Where a job's goroutine is: just launched by `go job.start()`; about to look at the enabled flag; past that
      look and about to take the lock of `execute`; waiting in `select`; marked executing but not yet copied for
      the store; copied but not yet put; running the task; finished but not yet copied; copied but not yet put;
      returned; or never launched (a job recovered while disabled). */
  datatype Phase =
    | Launched | Ready | Entering | Idle | Marked | Marking | Working | Unsaved | Saving | Exited | NoGoroutine

  /** `copy` is what the goroutine is going to put into the store, in the phases Marking and Saving. */
  datatype Obj = Obj(job: Job, phase: Phase, copy: Job, cancelled: bool, ticking: bool)

  /** Objects live on after the table has dropped them; the number tells apart objects with the same job id. */
  type Ref = (string, nat)

  /** `stopping` is the job a stop has reached but not yet deleted, while it holds the lock of the manager. */
  datatype Sys = Sys(objs: map<Ref, Obj>, table: map<string, nat>, store: Table, stopping: Option<string>, generation: nat)

  /** What the goroutine of a job does next. A task that panics, times out or is cancelled ends with an error
      (`EndTask`); `PanicTask` is a panic of `execute` itself. */
  datatype Move =
    | StartLoop | TestEnabled | Enter | Tick | CopyMark | PutMark(ok: bool) | EndTask(success: bool) | PanicTask
    | CopyResult | PutResult(ok: bool) | Leave

  /** A stop takes two steps, `StopJob` on the object and `DropJob` on store and table; "stop all" repeats them. */
  datatype Step =
    | CreateJob(id: string, config: Config, interval: int, optionOk: bool, ok: bool)
    | StopJob(id: string)
    | DropJob(ok: bool)
    | UpdateJob(id: string, newInterval: Option<int>, newEnabled: Option<bool>, ok: bool)
    | Go(o: Ref, m: Move)
    | Restart

  /** The in-memory table, by value. */
  function InMemory(s: Sys): Table {
    map id | id in s.table && (id, s.table[id]) in s.objs :: s.objs[(id, s.table[id])].job
  }

  predicate At(s: Sys, o: Ref, phase: Phase) {
    o in s.objs && s.objs[o].phase == phase
  }

  predicate CanMove(obj: Obj, m: Move) {
    match m
    case StartLoop => obj.phase == Launched
    case TestEnabled => obj.phase == Ready
    case Enter => obj.phase == Entering
    case Tick => obj.phase == Idle && obj.ticking
    case CopyMark => obj.phase == Marked
    case PutMark(_) => obj.phase == Marking
    case EndTask(_) => obj.phase == Working
    case PanicTask => obj.phase == Working
    case CopyResult => obj.phase == Unsaved
    case PutResult(_) => obj.phase == Saving
    case Leave => obj.phase == Idle && obj.cancelled
  }

  predicate Enabled(s: Sys, st: Step) {
    match st
    case CreateJob(id, config, interval, optionOk, _) =>
      s.stopping == None && Accepts(InMemory(s), id, config, interval, optionOk)
    case StopJob(id) => s.stopping == None && id in InMemory(s)
    case DropJob(_) => s.stopping.Some?
    case UpdateJob(id, _, _, _) => s.stopping == None && id in InMemory(s)
    case Go(o, m) => o in s.objs && CanMove(s.objs[o], m)
    case Restart => true
  }

  function SetObj(s: Sys, o: Ref, obj: Obj): Sys {
    s.(objs := s.objs[o := obj])
  }

  function Resets(newInterval: Option<int>): bool {
    newInterval.Some? && newInterval.value >= MIN_UPDATED_INTERVAL
  }

  predicate HasTicker(obj: Obj) {
    obj.phase != Launched && obj.phase != NoGoroutine
  }

  function NewObj(j: Job): Obj {
    Obj(j, Launched, j, false, false)
  }

  function Recovered(j: Job): Obj {
    NewObj(Recover(j)).(phase := if j.enabled then Launched else NoGoroutine)
  }

  function StoppedObj(obj: Obj): Obj {
    obj.(job := obj.job.(status := Stopped), cancelled := true, ticking := false)
  }

  function UpdatedObj(obj: Obj, newInterval: Option<int>, newEnabled: Option<bool>): Obj {
    obj.(job := Update(obj.job, newInterval, newEnabled),
         ticking := obj.ticking || (HasTicker(obj) && Resets(newInterval)))
  }

  /** What a step of its goroutine makes of a job object. */
  function Moved(obj: Obj, m: Move): Obj {
    match m
    case StartLoop => obj.(job := obj.job.(status := Scheduled), phase := Ready, ticking := true)
    case TestEnabled => obj.(phase := if obj.job.enabled then Entering else Idle)
    case Enter => obj.(job := Begin(obj.job), phase := Marked)
    case Tick => obj.(phase := Ready)
    case CopyMark => obj.(copy := obj.job, phase := Marking)
    case PutMark(_) => obj.(phase := Working)
    case EndTask(success) =>
      obj.(job := Finish(obj.job, success), phase := Unsaved,
           ticking := obj.ticking && (success || !AutoDisables(obj.job)))
    case PanicTask => obj.(job := Panic(obj.job), phase := Unsaved)
    case CopyResult => obj.(copy := obj.job, phase := Saving)
    case PutResult(_) => obj.(phase := Idle)
    case Leave => obj.(phase := Exited)
  }

  /** A step of the goroutine that succeeds in putting its copy into the store. */
  predicate Puts(m: Move) {
    (m.PutMark? || m.PutResult?) && m.ok
  }

  /** `loadJobsFromStore` in a new process. */
  function Reload(store: Table, n: nat): (objs: map<Ref, Obj>)
    ensures forall o :: o in objs <==> o.0 in store && o.1 == n
    ensures forall o :: o in objs ==> objs[o] == Recovered(store[o.0])
  {
    var refs := set id | id in store :: (id, n);
    map o | o in refs :: Recovered(store[o.0])
  }

  function Next(s: Sys, st: Step): Sys
    requires Enabled(s, st)
  {
    match st
    case CreateJob(id, config, interval, _, ok) =>
      if !ok then s
      else
        var job := NewJob(id, config, interval);
        Sys(s.objs[(id, s.generation) := NewObj(job)], s.table[id := s.generation], s.store[id := job], None,
            s.generation + 1)
    case StopJob(id) =>
      var o := (id, s.table[id]);
      SetObj(s, o, StoppedObj(s.objs[o])).(stopping := Some(id))
    case DropJob(ok) =>
      var id := s.stopping.value;
      Sys(s.objs, s.table - {id}, Deleted(s.store, id, ok), None, s.generation)
    case UpdateJob(id, newInterval, newEnabled, ok) =>
      var o := (id, s.table[id]);
      var obj := UpdatedObj(s.objs[o], newInterval, newEnabled);
      SetObj(s, o, obj).(store := Saved(s.store, obj.job, ok))
    case Restart =>
      Sys(Reload(s.store, s.generation), map id | id in s.store :: s.generation, s.store, None, s.generation + 1)
    case Go(o, m) => SetObj(s, o, Moved(s.objs[o], m)).(store := Saved(s.store, s.objs[o].copy, Puts(m)))
  }

  const EMPTY := Sys(map[], map[], map[], None, 0)

  ghost predicate IsRun(s: Sys, steps: seq<Step>, t: Sys)
    decreases |steps|
  {
    if steps == [] then t == s
    else Enabled(s, steps[0]) && IsRun(Next(s, steps[0]), steps[1..], t)
  }

  lemma {:induction false} Extend(s: Sys, steps: seq<Step>, m: Sys, st: Step)
    requires IsRun(s, steps, m) && Enabled(m, st)
    ensures IsRun(s, steps + [st], Next(m, st))
    decreases |steps|
  {
    if steps != [] {
      Extend(Next(s, steps[0]), steps[1..], m, st);
      assert (steps + [st])[1..] == steps[1..] + [st];
    } else {
      assert IsRun(Next(m, st), [st][1..], Next(m, st));
    }
  }

  // ---------- naming ----------

  ghost predicate IsNamed(obj: Obj, id: string) {
    obj.job.id == id && obj.copy.id == id && obj.copy.config == obj.job.config
  }

  ghost predicate NamedObjs(objs: map<Ref, Obj>, n: nat) {
    forall o :: o in objs ==> IsNamed(objs[o], o.0) && o.1 < n
  }

  ghost predicate NamedStore(store: Table) {
    forall id :: id in store ==> store[id].id == id
  }

  /** Every object, table entry and record goes by its own job id. */
  ghost predicate Named(s: Sys) {
    && NamedObjs(s.objs, s.generation)
    && (forall id :: id in s.table ==> (id, s.table[id]) in s.objs)
    && (s.stopping.Some? ==> s.stopping.value in s.table)
    && NamedStore(s.store)
  }

  lemma NamedCreate(s: Sys, st: Step)
    requires Named(s) && Enabled(s, st) && st.CreateJob?
    ensures Named(Next(s, st))
  {
    var t := Next(s, st);
    assert NamedObjs(t.objs, t.generation);
    assert NamedStore(t.store);
  }

  /** The object a call of the API is about, after it. */
  function Called(obj: Obj, st: Step): Obj
    requires st.StopJob? || st.UpdateJob?
  {
    if st.StopJob? then StoppedObj(obj) else UpdatedObj(obj, st.newInterval, st.newEnabled)
  }

  lemma CallStep(s: Sys, st: Step)
    requires Named(s) && Enabled(s, st) && (st.StopJob? || st.UpdateJob?)
    ensures var t, o := Next(s, st), (st.id, s.table[st.id]);
            && o in s.objs && t.objs == s.objs[o := Called(s.objs[o], st)]
            && t.table == s.table && t.generation == s.generation
            && t.stopping == (if st.StopJob? then Some(st.id) else s.stopping)
            && t.store == if st.StopJob? then s.store else Saved(s.store, t.objs[o].job, st.ok)
  {
  }

  lemma NamedCall(s: Sys, st: Step)
    requires Named(s) && Enabled(s, st) && (st.StopJob? || st.UpdateJob?)
    ensures Named(Next(s, st))
  {
    CallStep(s, st);
    var o := (st.id, s.table[st.id]);
    assert IsNamed(s.objs[o], st.id) && IsNamed(Called(s.objs[o], st), st.id);
  }

  lemma MovedNamed(obj: Obj, m: Move, id: string)
    requires IsNamed(obj, id)
    ensures IsNamed(Moved(obj, m), id) && Moved(obj, m).job.config == obj.job.config
  {
  }

  lemma NamedMove(s: Sys, st: Step)
    requires Named(s) && Enabled(s, st) && st.Go?
    ensures Named(Next(s, st))
  {
    MovedNamed(s.objs[st.o], st.m, st.o.0);
  }

  lemma NamedKept(s: Sys, st: Step)
    requires Named(s) && Enabled(s, st)
    ensures Named(Next(s, st))
  {
    if st.CreateJob? { NamedCreate(s, st); }
    else if st.Go? { NamedMove(s, st); }
    else if st.StopJob? || st.UpdateJob? { NamedCall(s, st); }
  }

  lemma {:induction false} RunNamed(s: Sys, steps: seq<Step>, t: Sys)
    requires Named(s) && IsRun(s, steps, t)
    ensures Named(t)
    decreases |steps|
  {
    if steps != [] {
      NamedKept(s, steps[0]);
      RunNamed(Next(s, steps[0]), steps[1..], t);
    }
  }

  // ---------- who may still write a record ----------

  /** The goroutine is going to save its job, whatever anybody else does. */
  predicate CanSave(obj: Obj) {
    || obj.phase in {Entering, Marked, Marking, Working, Unsaved, Saving}
    || (obj.phase in {Launched, Ready} && obj.job.enabled)
  }

  /** No step of the goroutine itself will ever save the job. */
  predicate Inert(obj: Obj) {
    !CanSave(obj) && (obj.job.enabled ==> !obj.ticking)
  }

  predicate InTable(s: Sys, o: Ref) {
    o.0 in s.table && s.table[o.0] == o.1
  }

  lemma InertMoved(obj: Obj, m: Move)
    requires CanMove(obj, m) && Inert(obj)
    ensures Inert(Moved(obj, m)) && !Puts(m)
  {
  }
}
