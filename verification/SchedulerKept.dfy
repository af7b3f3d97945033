/** What a job keeps over runs, in every process and in the store: any property of jobs that no step takes away. */
module SchedulerKept {
  import opened Options
  import opened Scheduler
  import opened SchedulerRuns

  /** The job has the property, and so does the copy of it that is under way. */
  ghost predicate Has(has: Job -> bool, obj: Obj) {
    has(obj.job) && (obj.phase in {Marking, Saving} ==> has(obj.copy))
  }

  /** Every object of the job, but for stray ones that no longer do anything, and its record. */
  ghost predicate AllHave(has: Job -> bool, s: Sys, id: string) {
    && (forall o :: o in s.objs && o.0 == id ==> Has(has, s.objs[o]) || (!InTable(s, o) && Inert(s.objs[o])))
    && (id in s.store ==> has(s.store[id]))
  }

  /** The step does not create the job anew, and takes the property from no job it changes. */
  ghost predicate Spares(has: Job -> bool, st: Step, id: string) {
    match st
    case CreateJob(i, _, _, _, _) => i != id
    case StopJob(i) => i == id ==> forall j :: has(j) ==> has(j.(status := Stopped))
    case UpdateJob(i, interval, enabled, _) => i == id ==> forall j :: has(j) ==> has(Update(j, interval, enabled))
    case Go(o, m) => o.0 == id ==> forall obj :: Has(has, obj) && CanMove(obj, m) ==> Has(has, Moved(obj, m))
    case Restart => forall j :: has(j) ==> has(Recover(j))
    case _ => true
  }

  lemma KeptMove(has: Job -> bool, s: Sys, st: Step, id: string)
    requires Named(s) && Enabled(s, st) && st.Go? && AllHave(has, s, id) && Spares(has, st, id)
    ensures AllHave(has, Next(s, st), id)
  {
    var obj := s.objs[st.o];
    assert IsNamed(obj, st.o.0);
    if st.o.0 == id { KeptMoved(has, obj, st, id); }
  }

  lemma KeptMoved(has: Job -> bool, obj: Obj, st: Step, id: string)
    requires st.Go? && st.o.0 == id && Spares(has, st, id) && CanMove(obj, st.m) && (Has(has, obj) || Inert(obj))
    ensures Has(has, obj) ==> Has(has, Moved(obj, st.m)) && (Puts(st.m) ==> has(obj.copy))
    ensures !Has(has, obj) ==> Inert(Moved(obj, st.m)) && !Puts(st.m)
  {
    if !Has(has, obj) { InertMoved(obj, st.m); }
  }

  lemma KeptCalled(has: Job -> bool, obj: Obj, st: Step, id: string)
    requires Has(has, obj) && (st.StopJob? || st.UpdateJob?) && st.id == id && Spares(has, st, id)
    ensures Has(has, Called(obj, st))
  {
  }

  lemma KeptCall(has: Job -> bool, s: Sys, st: Step, id: string)
    requires Named(s) && Enabled(s, st) && AllHave(has, s, id) && Spares(has, st, id) && (st.StopJob? || st.UpdateJob?)
    ensures AllHave(has, Next(s, st), id)
  {
    var t, o := Next(s, st), (st.id, s.table[st.id]);
    CallStep(s, st);
    assert InTable(s, o) && IsNamed(s.objs[o], st.id);
    if st.id == id { KeptCalled(has, s.objs[o], st, id); }
    forall p | p in t.objs && p.0 == id ensures Has(has, t.objs[p]) || (!InTable(t, p) && Inert(t.objs[p])) {
      assert p in s.objs;
    }
  }

  lemma KeptDrop(has: Job -> bool, s: Sys, st: Step, id: string)
    requires Named(s) && Enabled(s, st) && AllHave(has, s, id) && st.DropJob?
    ensures AllHave(has, Next(s, st), id)
  {
    var t := Next(s, st);
    forall o | o in t.objs && o.0 == id ensures Has(has, t.objs[o]) || (!InTable(t, o) && Inert(t.objs[o])) {
      assert o in s.objs;
    }
  }

  lemma KeptStep(has: Job -> bool, s: Sys, st: Step, id: string)
    requires Named(s) && Enabled(s, st) && AllHave(has, s, id) && Spares(has, st, id)
    ensures AllHave(has, Next(s, st), id)
  {
    if st.Go? { KeptMove(has, s, st, id); }
    else if st.StopJob? || st.UpdateJob? { KeptCall(has, s, st, id); }
    else if st.DropJob? { KeptDrop(has, s, st, id); }
  }

  lemma {:induction false} KeptRun(has: Job -> bool, s: Sys, steps: seq<Step>, t: Sys, id: string)
    requires Named(s) && IsRun(s, steps, t) && AllHave(has, s, id)
    requires forall k :: 0 <= k < |steps| ==> Spares(has, steps[k], id)
    ensures Named(t) && AllHave(has, t, id)
    decreases |steps|
  {
    if steps != [] {
      NamedKept(s, steps[0]);
      KeptStep(has, s, steps[0], id);
      KeptRun(has, Next(s, steps[0]), steps[1..], t, id);
    }
  }

  /** In the table and in the store, the job has the property over every run of such steps. */
  lemma KeptForever(has: Job -> bool, s: Sys, steps: seq<Step>, t: Sys, id: string)
    requires Named(s) && IsRun(s, steps, t) && AllHave(has, s, id)
    requires forall k :: 0 <= k < |steps| ==> Spares(has, steps[k], id)
    ensures id in InMemory(t) ==> has(InMemory(t)[id])
    ensures id in t.store ==> has(t.store[id])
  {
    KeptRun(has, s, steps, t, id);
    if id in InMemory(t) { assert InTable(t, (id, t.table[id])); }
  }

  // ---------- an update that gives the property ----------

  /** No save of a job without the property is under way, in the goroutine of the job or in that of an earlier job of
      the id. */
  ghost predicate NoneUnderWay(has: Job -> bool, s: Sys, id: string)
    requires id in s.table && (id, s.table[id]) in s.objs
  {
    && (var obj := s.objs[(id, s.table[id])]; obj.phase in {Marking, Saving} ==> has(obj.copy))
    && (forall o :: o in s.objs && o.0 == id && !InTable(s, o) ==> Has(has, s.objs[o]) || Inert(s.objs[o]))
  }

  /** Only the object of the job in the table changes, and comes to have the property; so does its record. */
  lemma KeptAfterIff(has: Job -> bool, s: Sys, t: Sys, id: string)
    requires id in s.table && t.table == s.table
    requires var o := (id, s.table[id]);
             && o in s.objs && o in t.objs && t.objs == s.objs[o := t.objs[o]] && has(t.objs[o].job)
             && t.objs[o].phase == s.objs[o].phase && t.objs[o].copy == s.objs[o].copy
    requires id in t.store && has(t.store[id])
    ensures AllHave(has, t, id) <==> NoneUnderWay(has, s, id)
  {
    var o := (id, s.table[id]);
    assert InTable(t, o);
    if NoneUnderWay(has, s, id) {
      forall p | p in t.objs && p.0 == id ensures Has(has, t.objs[p]) || (!InTable(t, p) && Inert(t.objs[p])) {
        assert p in s.objs;
      }
    }
    if AllHave(has, t, id) {
      forall p | p in s.objs && p.0 == id && !InTable(s, p) ensures Has(has, s.objs[p]) || Inert(s.objs[p]) {
        assert p in t.objs && t.objs[p] == s.objs[p];
      }
    }
  }

  /** A saved update that gives the job the property gives it everywhere if and only if no save of a job without it is
      under way. */
  lemma TakesHoldIff(has: Job -> bool, s: Sys, st: Step)
    requires Named(s) && Enabled(s, st) && st.UpdateJob? && st.ok
    requires has(Update(InMemory(s)[st.id], st.newInterval, st.newEnabled))
    ensures AllHave(has, Next(s, st), st.id) <==> NoneUnderWay(has, s, st.id)
  {
    CallStep(s, st);
    assert IsNamed(s.objs[(st.id, s.table[st.id])], st.id);
    KeptAfterIff(has, s, Next(s, st), st.id);
  }

  lemma {:induction false} NamedRun(s: Sys, steps: seq<Step>, t: Sys)
    requires Named(s) && IsRun(s, steps, t)
    ensures Named(t)
    decreases |steps|
  {
    if steps != [] {
      NamedKept(s, steps[0]);
      NamedRun(Next(s, steps[0]), steps[1..], t);
    }
  }

  /** From any reachable state: a property that a saved update gives, with no save of a job without it under way, stays
      with the job in the table and in the store over every run of steps that spare it. */
  lemma UpdateLasts(has: Job -> bool, before: seq<Step>, s: Sys, st: Step, steps: seq<Step>, t: Sys)
    requires IsRun(EMPTY, before, s) && Enabled(s, st) && st.UpdateJob? && st.ok
    requires has(Update(InMemory(s)[st.id], st.newInterval, st.newEnabled))
    requires st.id in s.table && (st.id, s.table[st.id]) in s.objs && NoneUnderWay(has, s, st.id)
    requires IsRun(Next(s, st), steps, t)
    requires forall k :: 0 <= k < |steps| ==> Spares(has, steps[k], st.id)
    ensures st.id in InMemory(t) ==> has(InMemory(t)[st.id])
    ensures st.id in t.store ==> has(t.store[st.id])
  {
    NamedRun(EMPTY, before, s);
    TakesHoldIff(has, s, st);
    NamedKept(s, st);
    KeptForever(has, Next(s, st), steps, t, st.id);
  }
}
