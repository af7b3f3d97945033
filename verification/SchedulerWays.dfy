/** Runs that can always be continued: how a job's goroutine gets on from wherever it is. */
module SchedulerWays {
  import opened Options
  import opened Scheduler
  import opened SchedulerRuns

  ghost predicate NoRestart(steps: seq<Step>) {
    forall k :: 0 <= k < |steps| ==> !steps[k].Restart?
  }

  // ---------- without a goroutine ----------

  /** A job recovered while disabled has no goroutine: no update makes it run again in that process. */
  ghost predicate Dormant(s: Sys, o: Ref) {
    At(s, o, NoGoroutine) && !s.objs[o].ticking
  }

  /** A restart leaves exactly the disabled jobs without a goroutine; the others are launched, with a ticker to come. */
  lemma RestartIs(s: Sys, id: string)
    requires Named(s) && id in s.store
    ensures var t, o := Next(s, Restart), (id, s.generation);
            && InTable(t, o) && o in t.objs && !t.objs[o].cancelled && !t.objs[o].ticking
            && (if s.store[id].enabled then At(t, o, Launched) else Dormant(t, o))
  {
  }

  lemma DormantKept(s: Sys, st: Step, o: Ref)
    requires Named(s) && Enabled(s, st) && Dormant(s, o) && !st.Restart?
    ensures Dormant(Next(s, st), o) && Next(s, st).objs[o].job.executions == s.objs[o].job.executions
  {
    if st.StopJob? || st.UpdateJob? { CallStep(s, st); }
    else if st.CreateJob? { assert (st.id, s.generation) != o; }
  }

  lemma {:induction false} DormantForever(s: Sys, steps: seq<Step>, t: Sys, o: Ref)
    requires Named(s) && IsRun(s, steps, t) && Dormant(s, o)
    requires NoRestart(steps)
    ensures Dormant(t, o) && t.objs[o].job.executions == s.objs[o].job.executions
    decreases |steps|
  {
    if steps != [] {
      NamedKept(s, steps[0]);
      DormantKept(s, steps[0], o);
      DormantForever(Next(s, steps[0]), steps[1..], t, o);
    }
  }

  // ---------- with one ----------

  lemma RunCons(s: Sys, st: Step, steps: seq<Step>, t: Sys)
    requires Enabled(s, st) && IsRun(Next(s, st), steps, t)
    ensures IsRun(s, [st] + steps, t)
  {
    assert ([st] + steps)[1..] == steps;
  }

  /** A job of the table whose goroutine has not been told to stop, while no call holds the manager. */
  ghost predicate IsRunning(s: Sys, o: Ref) {
    Named(s) && s.stopping == None && InTable(s, o) && !s.objs[o].cancelled && s.objs[o].phase !in {Exited, NoGoroutine}
  }

  /** The goroutine needs an update to get on: its ticker is stopped, or its job disabled. */
  predicate NeedsUpdate(obj: Obj) {
    (obj.phase == Idle && !obj.ticking) || (obj.phase == Ready && !obj.job.enabled)
  }

  /** How many steps away the next execution is. */
  function Distance(obj: Obj): nat {
    (match obj.phase
     case Entering => 1 case Ready => 2 case Launched => 4 case Idle => 4 case Saving => 6 case Unsaved => 7
     case Working => 8 case Marking => 9 case Marked => 10 case _ => 11)
    + if NeedsUpdate(obj) then 1 else 0
  }

  /** The step of the goroutine that brings it closer. */
  function Onward(phase: Phase): Move {
    match phase
    case Launched => StartLoop
    case Ready => TestEnabled
    case Idle => Tick
    case Entering => Enter
    case Marked => CopyMark
    case Marking => PutMark(true)
    case Working => EndTask(false)
    case Unsaved => CopyResult
    case _ => PutResult(true)
  }

  lemma MovedCloser(obj: Obj)
    requires obj.phase !in {Exited, NoGoroutine} && !NeedsUpdate(obj)
    ensures var moved := Moved(obj, Onward(obj.phase));
            && CanMove(obj, Onward(obj.phase)) && moved.phase !in {Exited, NoGoroutine} && moved.cancelled == obj.cancelled
            && (if obj.phase == Entering then moved.job.executions > obj.job.executions
                else moved.job.executions == obj.job.executions && Distance(moved) < Distance(obj))
  {
  }

  function Wake(id: string): Step {
    UpdateJob(id, Some(MIN_UPDATED_INTERVAL), Some(true), true)
  }

  lemma WokenCloser(obj: Obj, id: string)
    requires NeedsUpdate(obj)
    ensures var woken := Called(obj, Wake(id));
            && woken.phase == obj.phase && woken.cancelled == obj.cancelled && Distance(woken) < Distance(obj)
            && woken.job.executions == obj.job.executions
  {
  }

  lemma GoStep(s: Sys, o: Ref, m: Move)
    requires IsRunning(s, o) && CanMove(s.objs[o], m) && m != Leave
    ensures Enabled(s, Go(o, m)) && Next(s, Go(o, m)).objs[o] == Moved(s.objs[o], m) && IsRunning(Next(s, Go(o, m)), o)
  {
    NamedMove(s, Go(o, m));
  }

  lemma WakeStep(s: Sys, o: Ref)
    requires IsRunning(s, o)
    ensures Enabled(s, Wake(o.0)) && IsRunning(Next(s, Wake(o.0)), o)
    ensures Next(s, Wake(o.0)).objs[o] == Called(s.objs[o], Wake(o.0))
  {
    assert o.0 in InMemory(s);
    CallStep(s, Wake(o.0));
    NamedCall(s, Wake(o.0));
  }

  /** A step on the way: the execution begins, or is closer. */
  lemma CloserStep(s: Sys, o: Ref) returns (st: Step)
    requires IsRunning(s, o)
    ensures Enabled(s, st) && !st.Restart? && IsRunning(Next(s, st), o)
    ensures var obj, next := s.objs[o], Next(s, st).objs[o];
            if obj.phase == Entering then next.job.executions > obj.job.executions
            else next.job.executions == obj.job.executions && Distance(next) < Distance(obj)
  {
    var obj := s.objs[o];
    if NeedsUpdate(obj) {
      st := Wake(o.0);
      WakeStep(s, o);
      WokenCloser(obj, o.0);
    } else {
      st := Go(o, Onward(obj.phase));
      MovedCloser(obj);
      GoStep(s, o, Onward(obj.phase));
    }
  }

  /** One more execution begins, without a restart. */
  lemma {:induction false} ExecutesSoon(s: Sys, o: Ref) returns (steps: seq<Step>, t: Sys)
    requires IsRunning(s, o)
    ensures IsRun(s, steps, t) && NoRestart(steps) && o in t.objs
    ensures t.objs[o].job.executions > s.objs[o].job.executions
    decreases Distance(s.objs[o])
  {
    var st := CloserStep(s, o);
    steps, t := [], Next(s, st);
    if s.objs[o].phase == Entering {
      assert IsRun(t, [], t);
    } else {
      steps, t := ExecutesSoon(t, o);
    }
    RunCons(s, st, steps, t);
    steps := [st] + steps;
  }

  ghost predicate ExecutesAgain(s: Sys, o: Ref)
    requires o in s.objs
  {
    exists steps, t :: IsRun(s, steps, t) && NoRestart(steps) && o in t.objs
                       && t.objs[o].job.executions > s.objs[o].job.executions
  }

  /** A job of the table, not stopped, executes again in some run of this process if and only if it was not
      recovered while disabled. */
  lemma ExecutesAgainIff(s: Sys, o: Ref)
    requires Named(s) && s.stopping == None && InTable(s, o) && !s.objs[o].cancelled && s.objs[o].phase != Exited
    requires s.objs[o].phase == NoGoroutine ==> !s.objs[o].ticking
    ensures ExecutesAgain(s, o) <==> s.objs[o].phase != NoGoroutine
  {
    if s.objs[o].phase == NoGoroutine {
      forall steps, t | IsRun(s, steps, t) && NoRestart(steps)
        ensures o in t.objs && t.objs[o].job.executions == s.objs[o].job.executions
      {
        DormantForever(s, steps, t, o);
      }
    } else {
      var steps, t := ExecutesSoon(s, o);
    }
  }
}
