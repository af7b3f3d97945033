/** What an update of a job changes, and for how long. */
module SchedulerSettings {
  import opened Options
  import opened Scheduler
  import opened SchedulerRuns
  import opened SchedulerKept

  /** The interval is the requested one, from 60 seconds up, and otherwise the old one; the job is enabled or disabled
      if that is asked for; nothing else changes but the log. */
  lemma UpdateChanges(j: Job, interval: Option<int>, enabled: Option<bool>)
    ensures var k := Update(j, interval, enabled);
            && (forall n :: interval == Some(n) && n >= 60 ==> k.interval == n)
            && (interval == None || interval.value < 60 ==> k.interval == j.interval)
            && (forall b :: enabled == Some(b) ==> k.enabled == b && k.log == j.log + [Updated(b)])
            && (enabled == None ==> k.enabled == j.enabled && k.log == j.log)
            && k == j.(interval := k.interval, enabled := k.enabled, log := k.log)
  {
  }

  /** No new job of the id, and no update of its interval to another one from 60 seconds up. */
  predicate KeepsInterval(st: Step, id: string, n: int) {
    match st
    case CreateJob(i, _, _, _, _) => i != id
    case UpdateJob(i, interval, _, _) => i == id && interval.Some? && interval.value >= 60 ==> interval.value == n
    case _ => true
  }

  /** No new job of the id, no update that says otherwise, and nothing that disables it but an update. */
  predicate KeepsDisabled(st: Step, id: string) {
    match st
    case CreateJob(i, _, _, _, _) => i != id
    case UpdateJob(i, _, enabled, _) => i == id ==> enabled != Some(true)
    case _ => true
  }

  ghost function WithInterval(n: int): Job -> bool {
    (j: Job) => j.interval == n
  }

  ghost function Disabled(): Job -> bool {
    (j: Job) => !j.enabled
  }

  /** After a saved update to `n`, from 60 seconds up, the job has that interval, in the table, in the store and after
      every restart, until it is created anew or updated to another: unless an older copy of it is on its way to the
      store. */
  lemma IntervalLasts(before: seq<Step>, s: Sys, id: string, n: int, enabled: Option<bool>, steps: seq<Step>, t: Sys)
    requires var st := UpdateJob(id, Some(n), enabled, true);
             IsRun(EMPTY, before, s) && n >= 60 && Enabled(s, st) && IsRun(Next(s, st), steps, t)
    requires id in s.table && (id, s.table[id]) in s.objs && NoneUnderWay(WithInterval(n), s, id)
    requires forall k :: 0 <= k < |steps| ==> KeepsInterval(steps[k], id, n)
    ensures id in InMemory(t) ==> InMemory(t)[id].interval == n
    ensures id in t.store ==> t.store[id].interval == n
  {
    forall k | 0 <= k < |steps| ensures Spares(WithInterval(n), steps[k], id) { IntervalSpared(steps[k], id, n); }
    UpdateLasts(WithInterval(n), before, s, UpdateJob(id, Some(n), enabled, true), steps, t);
  }

  lemma IntervalSpared(st: Step, id: string, n: int)
    requires KeepsInterval(st, id, n)
    ensures Spares(WithInterval(n), st, id)
  {
    if st.Go? {
      forall obj | Has(WithInterval(n), obj) && CanMove(obj, st.m) ensures Has(WithInterval(n), Moved(obj, st.m)) {
        MovedInterval(obj, st.m);
      }
    }
  }

  /** The goroutine never changes the interval. */
  lemma MovedInterval(obj: Obj, m: Move)
    requires CanMove(obj, m)
    ensures var moved := Moved(obj, m);
            && moved.job.interval == obj.job.interval
            && (moved.phase in {Marking, Saving} ==> moved.copy.interval == obj.job.interval)
  {
  }

  /** After a saved update to disabled, the job is disabled, in the table, in the store and after every restart, until
      it is created anew or enabled by an update. */
  lemma DisabledLasts(before: seq<Step>, s: Sys, id: string, interval: Option<int>, steps: seq<Step>, t: Sys)
    requires var st := UpdateJob(id, interval, Some(false), true);
             IsRun(EMPTY, before, s) && Enabled(s, st) && IsRun(Next(s, st), steps, t)
    requires id in s.table && (id, s.table[id]) in s.objs && NoneUnderWay(Disabled(), s, id)
    requires forall k :: 0 <= k < |steps| ==> KeepsDisabled(steps[k], id)
    ensures id in InMemory(t) ==> !InMemory(t)[id].enabled
    ensures id in t.store ==> !t.store[id].enabled
  {
    forall k | 0 <= k < |steps| ensures Spares(Disabled(), steps[k], id) { DisabledSpared(steps[k], id); }
    UpdateLasts(Disabled(), before, s, UpdateJob(id, interval, Some(false), true), steps, t);
  }

  lemma DisabledSpared(st: Step, id: string)
    requires KeepsDisabled(st, id)
    ensures Spares(Disabled(), st, id)
  {
    if st.Go? {
      forall obj | Has(Disabled(), obj) && CanMove(obj, st.m) ensures Has(Disabled(), Moved(obj, st.m)) {
        MovedDisabled(obj, st.m);
      }
    }
  }

  /** It never enables a job. */
  lemma MovedDisabled(obj: Obj, m: Move)
    requires CanMove(obj, m) && !obj.job.enabled
    ensures !Moved(obj, m).job.enabled && (Moved(obj, m).phase in {Marking, Saving} ==> !Moved(obj, m).copy.enabled)
  {
  }
}
