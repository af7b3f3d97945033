/** Two runs in which table and store come apart: a stop in the middle of an execution, and an update in the
    middle of a save. */
module SchedulerFaults {
  import opened Options
  import opened Scheduler
  import opened SchedulerRuns
  import opened SchedulerAgreement

  // ---------- an update in the middle of a save ----------

  /** What an update may change for good. */
  predicate SameSettings(j: Job, k: Job) {
    j.enabled == k.enabled && j.interval == k.interval
  }

  lemma PutAfterUpdate(obj: Obj, st: Step, put: Move)
    requires st.UpdateJob? && obj.copy == obj.job
    requires (obj.phase == Marking && put == PutMark(true)) || (obj.phase == Saving && put == PutResult(true))
    ensures var called := Called(obj, st);
            && CanMove(called, put) && called.copy == obj.job && !IsSaving(Moved(called, put).phase)
            && Moved(called, put).job == Update(obj.job, st.newInterval, st.newEnabled)
  {
  }

  /** An update between the copy of a save and its put is overwritten: table and store then agree on the settings
      of the job if and only if the update did not change them, and a restart brings back the old ones. */
  lemma LostUpdateIff(s: Sys, st: Step, put: Move)
    requires Agree(s) && Enabled(s, st) && st.UpdateJob? && st.ok
    requires var obj := s.objs[(st.id, s.table[st.id])];
             (obj.phase == Marking && put == PutMark(true)) || (obj.phase == Saving && put == PutResult(true))
    ensures var o, m := (st.id, s.table[st.id]), Next(s, st);
            && Enabled(m, Go(o, put))
            && var t := Next(m, Go(o, put));
               && o in t.objs && st.id in t.store && !IsSaving(t.objs[o].phase)
               && t.objs[o].job == Update(s.objs[o].job, st.newInterval, st.newEnabled)
               && (SameSettings(t.objs[o].job, t.store[st.id]) <==> SameSettings(t.objs[o].job, s.objs[o].job))
               && SameSettings(Recovered(t.store[st.id]).job, s.objs[o].job)
  {
    var o := (st.id, s.table[st.id]);
    assert PairedAt(s, st.id) && IsNamed(s.objs[o], st.id);
    CallStep(s, st);
    PutAfterUpdate(s.objs[o], st, put);
  }

  // ---------- one job on its way ----------

  /** The job `id` alone, enabled, its goroutine in this phase. */
  ghost predicate Alone(s: Sys, id: string, config: Config, phase: Phase) {
    && Named(s) && s.table == map[id := 0] && s.objs.Keys == {(id, 0)} && s.stopping == None && s.generation == 1
    && id in s.store && var obj := s.objs[(id, 0)];
       && obj.phase == phase && obj.job.config == config && obj.job.enabled && obj.copy.enabled
       && obj.job.consecutive == 0
  }

  function First(id: string, config: Config): Step {
    CreateJob(id, config, MIN_UPDATED_INTERVAL, true, true)
  }

  lemma CreateAlone(id: string, config: Config) returns (t: Sys)
    requires config.jobType == "registerCspResources"
    ensures IsRun(EMPTY, [First(id, config)], t) && Alone(t, id, config, Launched)
  {
    t := Next(EMPTY, First(id, config));
    NamedCreate(EMPTY, First(id, config));
    assert IsRun(EMPTY, [], EMPTY);
    Extend(EMPTY, [], EMPTY, First(id, config));
    assert [] + [First(id, config)] == [First(id, config)];
  }

  lemma AloneMove(steps: seq<Step>, s: Sys, id: string, config: Config, m: Move) returns (t: Sys)
    requires IsRun(EMPTY, steps, s) && (id, 0) in s.objs && Alone(s, id, config, s.objs[(id, 0)].phase)
    requires CanMove(s.objs[(id, 0)], m) && m != EndTask(false)
    ensures IsRun(EMPTY, steps + [Go((id, 0), m)], t) && Alone(t, id, config, Moved(s.objs[(id, 0)], m).phase)
  {
    var st := Go((id, 0), m);
    t := Next(s, st);
    NamedMove(s, st);
    Extend(EMPTY, steps, s, st);
  }

  function ToWorking(id: string, config: Config): seq<Step> {
    var o := (id, 0);
    [First(id, config)] + [Go(o, StartLoop)] + [Go(o, TestEnabled)] + [Go(o, Enter)] + [Go(o, CopyMark)] + [Go(o, PutMark(true))]
  }

  lemma FirstHalf(id: string, config: Config) returns (t: Sys)
    requires config.jobType == "registerCspResources"
    ensures IsRun(EMPTY, [First(id, config)] + [Go((id, 0), StartLoop)] + [Go((id, 0), TestEnabled)], t)
    ensures Alone(t, id, config, Entering)
  {
    var o, a := (id, 0), [First(id, config)];
    t := CreateAlone(id, config);
    t := AloneMove(a, t, id, config, StartLoop);
    t := AloneMove(a + [Go(o, StartLoop)], t, id, config, TestEnabled);
  }

  lemma ReachesWorking(id: string, config: Config) returns (t: Sys)
    requires config.jobType == "registerCspResources"
    ensures IsRun(EMPTY, ToWorking(id, config), t) && Alone(t, id, config, Working)
  {
    var o, a := (id, 0), [First(id, config)] + [Go((id, 0), StartLoop)] + [Go((id, 0), TestEnabled)];
    t := FirstHalf(id, config);
    t := AloneMove(a, t, id, config, Enter);
    t := AloneMove(a + [Go(o, Enter)], t, id, config, CopyMark);
    t := AloneMove(a + [Go(o, Enter)] + [Go(o, CopyMark)], t, id, config, PutMark(true));
  }

  function ToSaving(id: string, config: Config): seq<Step> {
    ToWorking(id, config) + [Go((id, 0), EndTask(true))] + [Go((id, 0), CopyResult)]
  }

  lemma ReachesSaving(id: string, config: Config) returns (t: Sys)
    requires config.jobType == "registerCspResources"
    ensures IsRun(EMPTY, ToSaving(id, config), t) && Alone(t, id, config, Saving)
  {
    t := ReachesWorking(id, config);
    t := AloneMove(ToWorking(id, config), t, id, config, EndTask(true));
    t := AloneMove(ToWorking(id, config) + [Go((id, 0), EndTask(true))], t, id, config, CopyResult);
  }

  function Disable(id: string): Step { UpdateJob(id, None, Some(false), true) }

  /** A job disabled between the copy and the put of its save: disabled in the table, enabled in the store, with
      nothing under way, no store failure and no stop; a restart runs it again. */
  lemma LostUpdate(id: string, config: Config) returns (t: Sys)
    requires config.jobType == "registerCspResources"
    ensures IsRun(EMPTY, ToSaving(id, config) + [Disable(id)] + [Go((id, 0), PutResult(true))], t)
    ensures At(t, (id, 0), Idle) && t.table == map[id := 0] && id in t.store
    ensures !t.objs[(id, 0)].job.enabled && t.store[id].enabled && Recovered(t.store[id]).phase == Launched
  {
    var o, steps, st := (id, 0), ToSaving(id, config), Disable(id);
    var s := ReachesSaving(id, config);
    assert id in InMemory(s);
    CallStep(s, st);
    Extend(EMPTY, steps, s, st);
    var m := Next(s, st);
    assert IsNamed(s.objs[o], id);
    Extend(EMPTY, steps + [st], m, Go(o, PutResult(true)));
    t := Next(m, Go(o, PutResult(true)));
  }

  // ---------- a stop in the middle of an execution ----------

  function Replaced(id: string, other: string, config: Config): seq<Step> {
    ToWorking(id, config) + [StopJob(id)] + [DropJob(true)] + [First(other, config)]
  }

  function Resurrection(id: string, other: string, config: Config): seq<Step> {
    var o := (id, 0);
    Replaced(id, other, config) + [Go(o, EndTask(true))] + [Go(o, CopyResult)] + [Go(o, PutResult(true))]
  }

  /** The job `id` dropped from the table with its goroutine in this phase, and `other` in its place. */
  ghost predicate Stray(s: Sys, id: string, other: string, config: Config, phase: Phase) {
    && Named(s) && s.table == map[other := 1] && other in s.store && s.store[other].config == config
    && At(s, (id, 0), phase) && s.objs[(id, 0)].job.config == config
  }

  lemma StopWorking(id: string, config: Config) returns (t: Sys)
    requires config.jobType == "registerCspResources"
    ensures IsRun(EMPTY, ToWorking(id, config) + [StopJob(id)], t)
    ensures Named(t) && t.table == map[id := 0] && t.stopping == Some(id) && t.generation == 1
    ensures At(t, (id, 0), Working) && t.objs[(id, 0)].job.config == config
  {
    var s := ReachesWorking(id, config);
    assert id in InMemory(s);
    CallStep(s, StopJob(id));
    NamedCall(s, StopJob(id));
    Extend(EMPTY, ToWorking(id, config), s, StopJob(id));
    t := Next(s, StopJob(id));
  }

  lemma DropWorking(id: string, config: Config) returns (t: Sys)
    requires config.jobType == "registerCspResources"
    ensures IsRun(EMPTY, ToWorking(id, config) + [StopJob(id)] + [DropJob(true)], t)
    ensures Named(t) && t.table == map[] && t.stopping == None && t.generation == 1
    ensures At(t, (id, 0), Working) && t.objs[(id, 0)].job.config == config
  {
    var s := StopWorking(id, config);
    NamedKept(s, DropJob(true));
    Extend(EMPTY, ToWorking(id, config) + [StopJob(id)], s, DropJob(true));
    t := Next(s, DropJob(true));
  }

  lemma ReplaceWorking(id: string, other: string, config: Config) returns (t: Sys)
    requires id != other && config.jobType == "registerCspResources"
    ensures IsRun(EMPTY, Replaced(id, other, config), t) && Stray(t, id, other, config, Working)
  {
    var s := DropWorking(id, config);
    assert InMemory(s) == map[];
    NamedCreate(s, First(other, config));
    Extend(EMPTY, ToWorking(id, config) + [StopJob(id)] + [DropJob(true)], s, First(other, config));
    t := Next(s, First(other, config));
  }

  lemma StrayMove(steps: seq<Step>, s: Sys, id: string, other: string, config: Config, m: Move) returns (t: Sys)
    requires IsRun(EMPTY, steps, s) && (id, 0) in s.objs && Stray(s, id, other, config, s.objs[(id, 0)].phase) && id != other
    requires CanMove(s.objs[(id, 0)], m)
    ensures IsRun(EMPTY, steps + [Go((id, 0), m)], t) && Stray(t, id, other, config, Moved(s.objs[(id, 0)], m).phase)
    ensures Puts(m) ==> id in t.store && t.store[id].config == config
  {
    var st := Go((id, 0), m);
    t := Next(s, st);
    assert IsNamed(s.objs[(id, 0)], id);
    NamedMove(s, st);
    Extend(EMPTY, steps, s, st);
  }

  lemma FinishStray(id: string, other: string, config: Config) returns (t: Sys)
    requires id != other && config.jobType == "registerCspResources"
    ensures IsRun(EMPTY, Resurrection(id, other, config), t) && Stray(t, id, other, config, Idle)
    ensures id in t.store && t.store[id].config == config
  {
    var o, steps := (id, 0), Replaced(id, other, config);
    t := ReplaceWorking(id, other, config);
    t := StrayMove(steps, t, id, other, config, EndTask(true));
    t := StrayMove(steps + [Go(o, EndTask(true))], t, id, other, config, CopyResult);
    t := StrayMove(steps + [Go(o, EndTask(true))] + [Go(o, CopyResult)], t, id, other, config, PutResult(true));
  }

  lemma StrayRestart(t: Sys, id: string, other: string, config: Config)
    requires Stray(t, id, other, config, Idle) && id in t.store && t.store[id].config == config && id != other
    ensures id !in InMemory(t) && other in t.store
    ensures var r := InMemory(Next(t, Restart)); id in r && other in r && r[id].config == r[other].config
  {
    AfterRestart(t);
  }

  /** Stopped in the middle of an execution, a job is saved again at its end: the store holds a job the table has
      dropped, and a restart runs two jobs of one configuration. */
  lemma StopMidExecution(id: string, other: string, config: Config) returns (t: Sys)
    requires id != other && config.jobType == "registerCspResources"
    ensures IsRun(EMPTY, Resurrection(id, other, config), t)
    ensures id !in InMemory(t) && id in t.store && other in t.store
    ensures var r := InMemory(Next(t, Restart)); id in r && other in r && r[id].config == r[other].config
  {
    t := FinishStray(id, other, config);
    StrayRestart(t, id, other, config);
  }
}
