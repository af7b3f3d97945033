/** The flag of the automatic disabling: only a success takes it back, and while it is set nothing else disables. */
module SchedulerFlag {
  import opened Options
  import opened Scheduler
  import opened SchedulerRuns
  import opened SchedulerWays
  import opened SchedulerKept

  // ---------- no second automatic disabling ----------

  /** Enabled again, with the flag of its automatic disabling still set. */
  predicate Immune(j: Job) {
    j.enabled && j.autoDisabled
  }

  /** Neither created anew, nor updated to disabled, nor successful. */
  predicate IsHarmless(st: Step, id: string) {
    match st
    case CreateJob(i, _, _, _, _) => i != id
    case UpdateJob(i, _, newEnabled, _) => i == id ==> newEnabled != Some(false)
    case Go(o, m) => o.0 == id ==> m != EndTask(true)
    case _ => true
  }

  lemma HarmlessSpares(st: Step, id: string)
    requires IsHarmless(st, id)
    ensures Spares(Immune, st, id)
  {
  }

  function EnableAgain(id: string, interval: Option<int>): Step { UpdateJob(id, interval, Some(true), true) }

  /** The update that enables an automatically disabled job again makes it immune, in memory and in the store, if and
      only if no save from before is under way. */
  lemma EnabledAgainIff(s: Sys, id: string, interval: Option<int>)
    requires Named(s) && Enabled(s, EnableAgain(id, interval)) && InMemory(s)[id].autoDisabled
    ensures AllHave(Immune, Next(s, EnableAgain(id, interval)), id) <==> NoneUnderWay(Immune, s, id)
  {
    TakesHoldIff(Immune, s, EnableAgain(id, interval));
  }

  /** Enabled again after its automatic disabling, a job stays enabled, in every process and in the store, over every
      run in which it does not succeed and nobody disables it, however often it fails. */
  lemma NeverDisabledTwice(before: seq<Step>, s: Sys, id: string, interval: Option<int>, steps: seq<Step>, t: Sys)
    requires IsRun(EMPTY, before, s) && Enabled(s, EnableAgain(id, interval)) && InMemory(s)[id].autoDisabled
    requires id in s.table && (id, s.table[id]) in s.objs && NoneUnderWay(Immune, s, id)
    requires IsRun(Next(s, EnableAgain(id, interval)), steps, t)
    requires forall k :: 0 <= k < |steps| ==> IsHarmless(steps[k], id)
    ensures id in InMemory(t) ==> InMemory(t)[id].enabled && InMemory(t)[id].autoDisabled
    ensures id in t.store ==> t.store[id].enabled && t.store[id].autoDisabled
  {
    forall k | 0 <= k < |steps| ensures Spares(Immune, steps[k], id) { HarmlessSpares(steps[k], id); }
    UpdateLasts(Immune, before, s, EnableAgain(id, interval), steps, t);
  }

  // ---------- a run that gets there ----------

  /** A job on its way to five failures in a row, or just past the fifth. */
  predicate IsFailing(obj: Obj) {
    && !obj.cancelled && obj.phase !in {Exited, NoGoroutine} && obj.job.consecutive <= MAX_CONSECUTIVE_FAILURES
    && if obj.job.consecutive == MAX_CONSECUTIVE_FAILURES then
         obj.phase in {Unsaved, Saving, Idle} && !obj.job.enabled && obj.job.autoDisabled
       else obj.job.enabled && !obj.job.autoDisabled && (obj.phase == Launched || obj.ticking)
  }

  predicate HasFailed(obj: Obj) {
    obj.phase == Idle && obj.job.consecutive == MAX_CONSECUTIVE_FAILURES
  }

  /** How many steps away that is, at most. */
  function ToGo(obj: Obj): nat
    requires IsFailing(obj)
  {
    12 * (MAX_CONSECUTIVE_FAILURES - obj.job.consecutive)
    + match obj.phase
      case Unsaved => 15 case Saving => 14 case Idle => 13 case Launched => 12 case Ready => 9 case Entering => 8
      case Marked => 7 case Marking => 6 case _ => 5
  }

  lemma FailingMoved(obj: Obj)
    requires IsFailing(obj) && !HasFailed(obj)
    ensures var moved := Moved(obj, Onward(obj.phase));
            CanMove(obj, Onward(obj.phase)) && IsFailing(moved) && ToGo(moved) < ToGo(obj)
  {
  }

  /** Left alone, the only job there is goes on failing up to the fifth time. */
  lemma {:induction false} FailsOn(s: Sys, o: Ref) returns (steps: seq<Step>, t: Sys)
    requires IsRunning(s, o) && s.objs.Keys == {o} && IsFailing(s.objs[o])
    ensures IsRun(s, steps, t) && IsRunning(t, o) && t.objs.Keys == {o} && IsFailing(t.objs[o]) && HasFailed(t.objs[o])
    decreases ToGo(s.objs[o])
  {
    steps, t := [], s;
    if !HasFailed(s.objs[o]) {
      var st := Go(o, Onward(s.objs[o].phase));
      FailingMoved(s.objs[o]);
      GoStep(s, o, Onward(s.objs[o].phase));
      steps, t := FailsOn(Next(s, st), o);
      RunCons(s, st, steps, t);
      steps := [st] + steps;
    }
  }

  /** There is a run that disables a job automatically and leaves it to be enabled again. */
  lemma FifthFailure(id: string, config: Config, interval: Option<int>) returns (steps: seq<Step>, s: Sys)
    requires config.jobType == "registerCspResources"
    ensures IsRun(EMPTY, steps, s) && Enabled(s, EnableAgain(id, interval)) && id in s.table && (id, s.table[id]) in s.objs
    ensures InMemory(s)[id].autoDisabled && !InMemory(s)[id].enabled && NoneUnderWay(Immune, s, id)
  {
    var create, o := CreateJob(id, config, MIN_INTERVAL, true, true), (id, 0);
    OnlyJob(id, config);
    steps, s := FailsOn(Next(EMPTY, create), o);
    RunCons(EMPTY, create, steps, s);
    steps := [create] + steps;
    assert id in InMemory(s);
  }

  lemma OnlyJob(id: string, config: Config)
    requires config.jobType == "registerCspResources"
    ensures var create := CreateJob(id, config, MIN_INTERVAL, true, true);
            && Enabled(EMPTY, create) && IsRunning(Next(EMPTY, create), (id, 0))
            && Next(EMPTY, create).objs.Keys == {(id, 0)} && IsFailing(Next(EMPTY, create).objs[(id, 0)])
  {
    assert InMemory(EMPTY) == map[];
    NamedKept(EMPTY, CreateJob(id, config, MIN_INTERVAL, true, true));
  }
}
