/** What holds of the fields of every job, in memory and in the store, in every reachable state. */
module SchedulerFields {
  import opened Options
  import opened Scheduler
  import opened SchedulerRuns

  // ---------- new and recovered jobs ----------

  /** A new job is enabled and has counted nothing. */
  lemma NewJobIs(id: string, config: Config, interval: int)
    ensures var j := NewJob(id, config, interval);
            && j.id == id && j.config == config && j.interval == interval && j.enabled && !j.autoDisabled
            && j.status == Scheduled && j.executions == j.successes == j.failures == j.consecutive == 0 && j.log == []
  {
  }

  /** A recovered job is what was persisted; only an interrupted execution is noted. */
  lemma RecoverChanges(j: Job)
    ensures Recover(j).status != Executing && (j.status != Executing ==> Recover(j) == j)
    ensures j.status == Executing ==> Recover(j) == j.(status := Scheduled, log := j.log + [Interrupted])
  {
  }

  /** What each section of an execution notes, besides the counters. */
  lemma NotedIs(j: Job, success: bool)
    ensures Begin(j).log == j.log + [Began] && Begin(j).executions == j.executions + 1
    ensures Finish(j, success).log == j.log + [if success then Succeeded else Failed]
    ensures Panic(j) == j.(status := Scheduled, log := j.log + [Panicked])
  {
  }

  /** A request is accepted if and only if no job has its six fields or its id, its interval is ten seconds or more, and
      its options are valid where its type has any. */
  lemma AcceptedIff(table: Table, id: string, config: Config, interval: int, optionOk: bool)
    ensures Accepts(table, id, config, interval, optionOk) <==>
            && (forall other :: other in table ==> table[other].config != config && other != id) && interval >= 10
            && (optionOk || (config.jobType != "registerCspResources" && config.jobType != "registerCspResourcesAll"))
  {
  }

  // ---------- the goroutine of a job ----------

  /** Where it can go from where it is. The loop ends only where it waits, once the job was stopped; it ticks only
      while the ticker runs. */
  lemma WaysOn(obj: Obj, m: Move)
    ensures CanMove(obj, m) <==>
            match obj.phase
            case Launched => m == StartLoop
            case Ready => m == TestEnabled
            case Entering => m == Enter
            case Idle => (m == Tick && obj.ticking) || (m == Leave && obj.cancelled)
            case Marked => m == CopyMark
            case Marking => m.PutMark?
            case Working => m.EndTask? || m == PanicTask
            case Unsaved => m == CopyResult
            case Saving => m.PutResult?
            case Exited => false
            case NoGoroutine => false
  {
  }

  /** Where each move leads. */
  lemma WhereTo(obj: Obj, m: Move)
    requires CanMove(obj, m)
    ensures Moved(obj, m).copy == if m.CopyMark? || m.CopyResult? then obj.job else obj.copy
    ensures Moved(obj, m).phase ==
            match m
            case StartLoop => Ready
            case TestEnabled => if obj.job.enabled then Entering else Idle
            case Enter => Marked
            case Tick => Ready
            case CopyMark => Marking
            case PutMark(_) => Working
            case EndTask(_) => Unsaved
            case PanicTask => Unsaved
            case CopyResult => Saving
            case PutResult(_) => Idle
            case Leave => Exited
    ensures Moved(obj, m).cancelled == obj.cancelled
    ensures Moved(obj, m).ticking ==
            match m
            case StartLoop => true
            case EndTask(success) => obj.ticking && (success || obj.job.autoDisabled || obj.job.consecutive < 4)
            case _ => obj.ticking
  {
  }

  /** A stop reaches the status, the context and the ticker, and nothing else. */
  lemma StopChanges(obj: Obj)
    ensures StoppedObj(obj) == Obj(obj.job.(status := Stopped), obj.phase, obj.copy, true, false)
  {
  }

  /** An update reaches the job, and restarts its ticker if the goroutine has started one and the interval is from 60
      seconds up. */
  lemma UpdateReaches(obj: Obj, interval: Option<int>, enabled: Option<bool>)
    ensures var k := UpdatedObj(obj, interval, enabled);
            && k.phase == obj.phase && k.copy == obj.copy && k.cancelled == obj.cancelled
            && (k.ticking <==>
                (obj.ticking || (obj.phase !in {Launched, NoGoroutine} && exists n :: interval == Some(n) && n >= 60)))
  {
  }

  // ---------- every job, at any time ----------

  /** Its interval is at least ten seconds; unless it was stopped, its status says whether it is executing. */
  ghost predicate Fits(obj: Obj) {
    && obj.job.interval >= 10 && obj.copy.interval >= 10
    && (obj.cancelled || obj.phase in {Launched, NoGoroutine}
        || obj.job.status == if obj.phase in {Marked, Marking, Working} then Executing else Scheduled)
  }

  ghost predicate AllFit(s: Sys) {
    && (forall o :: o in s.objs ==> Fits(s.objs[o]))
    && (forall id :: id in s.store ==> s.store[id].interval >= 10)
  }

  lemma FitsMoved(obj: Obj, m: Move)
    requires Fits(obj) && CanMove(obj, m)
    ensures Fits(Moved(obj, m))
  {
  }

  lemma FitCall(s: Sys, st: Step)
    requires Named(s) && AllFit(s) && Enabled(s, st) && (st.StopJob? || st.UpdateJob?)
    ensures AllFit(Next(s, st))
  {
    CallStep(s, st);
    var o := (st.id, s.table[st.id]);
    assert Fits(s.objs[o]) && Fits(Called(s.objs[o], st));
  }

  lemma FitKept(s: Sys, st: Step)
    requires Named(s) && AllFit(s) && Enabled(s, st)
    ensures AllFit(Next(s, st))
  {
    if st.StopJob? || st.UpdateJob? { FitCall(s, st); }
    else if st.Go? { FitsMoved(s.objs[st.o], st.m); }
  }

  lemma {:induction false} FitRun(s: Sys, steps: seq<Step>, t: Sys)
    requires Named(s) && AllFit(s) && IsRun(s, steps, t)
    ensures AllFit(t)
    decreases |steps|
  {
    if steps != [] {
      NamedKept(s, steps[0]);
      FitKept(s, steps[0]);
      FitRun(Next(s, steps[0]), steps[1..], t);
    }
  }

  /** In every reachable state: no job runs more often than every ten seconds, and a job that was not stopped is
      executing, by its status, exactly from the lock that begins an execution to the one that ends it. */
  lemma AlwaysFits(steps: seq<Step>, t: Sys, o: Ref)
    requires IsRun(EMPTY, steps, t) && o in t.objs
    ensures t.objs[o].job.interval >= 10 && (o.0 in t.store ==> t.store[o.0].interval >= 10)
    ensures !t.objs[o].cancelled && t.objs[o].phase !in {Launched, NoGoroutine} ==>
              t.objs[o].job.status == if t.objs[o].phase in {Marked, Marking, Working} then Executing else Scheduled
  {
    FitRun(EMPTY, steps, t);
    assert Fits(t.objs[o]);
  }
}
