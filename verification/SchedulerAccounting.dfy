/** What the counters of a job mean, over every run of the scheduler. */
module SchedulerAccounting {
  import opened Options
  import opened Scheduler
  import opened SchedulerRuns

  // ---------- meanings, read off the history ----------

  function Count(log: seq<Event>, e: Event): nat {
    if log == [] then 0
    else Count(log[..|log| - 1], e) + if log[|log| - 1] == e then 1 else 0
  }

  /** The recorded outcomes in order, true for a success. */
  function Outcomes(log: seq<Event>): seq<bool> {
    if log == [] then []
    else
      var init, e := Outcomes(log[..|log| - 1]), log[|log| - 1];
      if e == Succeeded then init + [true] else if e == Failed then init + [false] else init
  }

  /** The length of the run of failures at the end. */
  function FailingSuffix(outcomes: seq<bool>): nat {
    if outcomes == [] || outcomes[|outcomes| - 1] then 0
    else 1 + FailingSuffix(outcomes[..|outcomes| - 1])
  }

  /** An execution has begun and nothing has ended it yet. */
  predicate IsOpen(log: seq<Event>) {
    log != [] && var e := log[|log| - 1];
                 if e.Updated? then IsOpen(log[..|log| - 1]) else e == Began
  }

  predicate Ends(e: Event) {
    e in {Succeeded, Failed, Panicked, Interrupted}
  }

  /** Only an open execution ends. */
  predicate WellFormed(log: seq<Event>) {
    forall k :: 0 <= k < |log| && Ends(log[k]) ==> IsOpen(log[..k])
  }

  /** Executions that will never have an outcome: panicked, interrupted by a restart, or abandoned. */
  function Lost(log: seq<Event>): nat {
    if log == [] then 0
    else
      var init, e := log[..|log| - 1], log[|log| - 1];
      Lost(init) + if e in {Panicked, Interrupted} || (e == Began && IsOpen(init)) then 1 else 0
  }

  /** The latest failure made the fifth in a row, and no update has enabled the job since. */
  predicate IsMuted(log: seq<Event>) {
    log != [] && var init, e := log[..|log| - 1], log[|log| - 1];
                 if e == Failed && FailingSuffix(Outcomes(log)) == MAX_CONSECUTIVE_FAILURES then true
                 else e != Updated(true) && IsMuted(init)
  }

  /** No execution begins while the job is muted. */
  predicate Guarded(log: seq<Event>) {
    forall k :: 0 <= k < |log| && log[k] == Began ==> !IsMuted(log[..k])
  }

  ghost predicate Accounts(j: Job) {
    && j.executions == Count(j.log, Began)
    && j.successes == Count(j.log, Succeeded)
    && j.failures == Count(j.log, Failed)
    && j.consecutive == FailingSuffix(Outcomes(j.log))
    && (j.autoDisabled <==> j.consecutive >= MAX_CONSECUTIVE_FAILURES)
  }

  ghost predicate Disciplined(j: Job) {
    && WellFormed(j.log) && Guarded(j.log)
    && (j.status == Executing ==> IsOpen(j.log))
    && (IsMuted(j.log) ==> !j.enabled)
  }

  // ---------- one critical section at a time ----------

  lemma Append(log: seq<Event>, e: Event)
    ensures (log + [e])[..|log|] == log && (log + [e])[|log|] == e
    ensures (Ends(e) ==> IsOpen(log)) ==> WellFormed(log + [e]) == WellFormed(log)
    ensures (e == Began ==> !IsMuted(log)) ==> Guarded(log + [e]) == Guarded(log)
  {
    var l := log + [e];
    assert forall k :: 0 <= k <= |log| ==> l[..k] == log[..k];
    assert forall k :: 0 <= k < |log| ==> l[k] == log[k];
    assert log[..|log|] == log;
  }

  lemma OutcomeAppend(log: seq<Event>, e: Event)
    ensures var n, m := FailingSuffix(Outcomes(log)), FailingSuffix(Outcomes(log + [e]));
            m == if e == Succeeded then 0 else if e == Failed then n + 1 else n
    ensures forall c :: Count(log + [e], c) == Count(log, c) + if c == e then 1 else 0
  {
    assert (log + [e])[..|log|] == log;
    var out := Outcomes(log);
    assert (out + [false])[..|out|] == out;
  }

  lemma BeginAccounts(j: Job)
    requires Accounts(j)
    ensures Accounts(Begin(j))
  {
    OutcomeAppend(j.log, Began);
  }

  lemma BeginDisciplined(j: Job)
    requires Disciplined(j) && !IsMuted(j.log)
    ensures Disciplined(Begin(j)) && IsOpen(Begin(j).log)
  {
    Append(j.log, Began);
  }

  lemma FinishAccounts(j: Job, ok: bool)
    requires Accounts(j)
    ensures Accounts(Finish(j, ok))
  {
    OutcomeAppend(j.log, if ok then Succeeded else Failed);
  }

  lemma FinishDisciplined(j: Job, ok: bool)
    requires Accounts(j) && Disciplined(j) && IsOpen(j.log)
    ensures Disciplined(Finish(j, ok))
  {
    Append(j.log, if ok then Succeeded else Failed);
    OutcomeAppend(j.log, if ok then Succeeded else Failed);
  }

  lemma PanicAccounts(j: Job)
    requires Accounts(j) && Disciplined(j) && IsOpen(j.log)
    ensures Accounts(Panic(j)) && Disciplined(Panic(j))
  {
    Append(j.log, Panicked);
    OutcomeAppend(j.log, Panicked);
  }

  lemma RecoverAccounts(j: Job)
    requires Accounts(j) && Disciplined(j)
    ensures Accounts(Recover(j)) && Disciplined(Recover(j))
  {
    Append(j.log, Interrupted);
    OutcomeAppend(j.log, Interrupted);
  }

  lemma EnableAccounts(j: Job, enabled: bool)
    requires Accounts(j) && Disciplined(j)
    ensures var k := j.(enabled := enabled, log := j.log + [Updated(enabled)]);
            Accounts(k) && Disciplined(k)
  {
    Append(j.log, Updated(enabled));
    OutcomeAppend(j.log, Updated(enabled));
  }

  /** An update neither opens nor ends an execution, and mutes no job that was not muted. */
  lemma EnableLog(log: seq<Event>, enabled: bool)
    ensures IsOpen(log + [Updated(enabled)]) == IsOpen(log)
    ensures IsMuted(log + [Updated(enabled)]) ==> IsMuted(log)
  {
    Append(log, Updated(enabled));
  }

  lemma UpdateAccounts(j: Job, interval: Option<int>, enabled: Option<bool>)
    requires Accounts(j) && Disciplined(j)
    ensures var k := Update(j, interval, enabled);
            && Accounts(k) && Disciplined(k)
            && (IsOpen(j.log) ==> IsOpen(k.log)) && (!IsMuted(j.log) ==> !IsMuted(k.log))
  {
    var k := Update(j, interval, None);
    if enabled.Some? {
      EnableAccounts(k, enabled.value);
      EnableLog(k.log, enabled.value);
    }
  }

  // ---------- the whole system ----------

  ghost predicate SoundJob(j: Job) {
    Accounts(j) && Disciplined(j)
  }

  ghost predicate Sound(obj: Obj) {
    && SoundJob(obj.job) && SoundJob(obj.copy)
    && (obj.phase in {Marked, Marking, Working} ==> IsOpen(obj.job.log))
    && (obj.phase == Entering ==> !IsMuted(obj.job.log))
  }

  ghost predicate SoundObjs(objs: map<Ref, Obj>) {
    forall o :: o in objs ==> Sound(objs[o])
  }

  ghost predicate SoundStore(store: Table) {
    forall id :: id in store ==> SoundJob(store[id])
  }

  ghost predicate AllSound(s: Sys) {
    SoundObjs(s.objs) && SoundStore(s.store)
  }

  /** Each step of a goroutine keeps its own object sound. */
  lemma MovedSound(obj: Obj, m: Move)
    requires CanMove(obj, m) && Sound(obj)
    ensures Sound(Moved(obj, m))
  {
    if m.Enter? {
      BeginAccounts(obj.job);
      BeginDisciplined(obj.job);
    } else if m.EndTask? {
      FinishAccounts(obj.job, m.success);
      FinishDisciplined(obj.job, m.success);
    } else if m.PanicTask? {
      PanicAccounts(obj.job);
    }
  }

  lemma UpdatedSound(obj: Obj, newInterval: Option<int>, newEnabled: Option<bool>)
    requires Sound(obj)
    ensures Sound(UpdatedObj(obj, newInterval, newEnabled))
  {
    UpdateAccounts(obj.job, newInterval, newEnabled);
  }

  /** Replacing one object and one record by sound ones keeps everything sound. */
  lemma ReplaceSound(objs: map<Ref, Obj>, store: Table, o: Ref, obj: Obj, j: Job)
    requires SoundObjs(objs) && SoundStore(store) && Sound(obj) && SoundJob(j)
    ensures SoundObjs(objs[o := obj]) && SoundStore(Saved(store, j, true))
  {
  }

  lemma SoundCreate(s: Sys, st: Step)
    requires AllSound(s) && Enabled(s, st) && st.CreateJob?
    ensures AllSound(Next(s, st))
  {
    var job := NewJob(st.id, st.config, st.interval);
    ReplaceSound(s.objs, s.store, (st.id, s.generation), NewObj(job), job);
  }

  lemma SoundStop(s: Sys, st: Step)
    requires Named(s) && AllSound(s) && Enabled(s, st) && (st.StopJob? || st.DropJob?)
    ensures AllSound(Next(s, st))
  {
    if st.StopJob? {
      var o := (st.id, s.table[st.id]);
      assert Sound(s.objs[o]);
      ReplaceSound(s.objs, s.store, o, StoppedObj(s.objs[o]), s.objs[o].copy);
    }
  }

  lemma SoundUpdate(s: Sys, st: Step)
    requires Named(s) && AllSound(s) && Enabled(s, st) && st.UpdateJob?
    ensures AllSound(Next(s, st))
  {
    var o := (st.id, s.table[st.id]);
    assert Sound(s.objs[o]);
    var obj := UpdatedObj(s.objs[o], st.newInterval, st.newEnabled);
    UpdatedSound(s.objs[o], st.newInterval, st.newEnabled);
    ReplaceSound(s.objs, s.store, o, obj, obj.job);
  }

  lemma SoundMove(s: Sys, st: Step)
    requires AllSound(s) && Enabled(s, st) && st.Go?
    ensures AllSound(Next(s, st))
  {
    assert Sound(s.objs[st.o]);
    MovedSound(s.objs[st.o], st.m);
    ReplaceSound(s.objs, s.store, st.o, Moved(s.objs[st.o], st.m), s.objs[st.o].copy);
  }

  lemma RecoveredSound(j: Job)
    requires SoundJob(j)
    ensures Sound(Recovered(j))
  {
    RecoverAccounts(j);
  }

  lemma SoundRestart(s: Sys)
    requires AllSound(s)
    ensures AllSound(Next(s, Restart))
  {
    var t := Next(s, Restart);
    forall o | o in t.objs ensures Sound(t.objs[o]) {
      assert SoundJob(s.store[o.0]);
      RecoveredSound(s.store[o.0]);
    }
  }

  lemma SoundKept(s: Sys, st: Step)
    requires Named(s) && AllSound(s) && Enabled(s, st)
    ensures AllSound(Next(s, st))
  {
    if st.CreateJob? { SoundCreate(s, st); }
    else if st.Go? { SoundMove(s, st); }
    else if st.Restart? { SoundRestart(s); }
    else if st.UpdateJob? { SoundUpdate(s, st); }
    else { SoundStop(s, st); }
  }

  lemma {:induction false} RunSound(s: Sys, steps: seq<Step>, t: Sys)
    requires Named(s) && AllSound(s) && IsRun(s, steps, t)
    ensures Named(t) && AllSound(t)
    decreases |steps|
  {
    if steps != [] {
      NamedKept(s, steps[0]);
      SoundKept(s, steps[0]);
      RunSound(Next(s, steps[0]), steps[1..], t);
    }
  }

  // ---------- main results ----------

  /** `j` is a job some process holds, or has persisted, after some run from the empty store. */
  ghost predicate Reachable(steps: seq<Step>, t: Sys, j: Job) {
    && IsRun(EMPTY, steps, t)
    && ((exists o :: o in t.objs && t.objs[o].job == j) || (exists id :: id in t.store && t.store[id] == j))
  }

  lemma ReachableSound(steps: seq<Step>, t: Sys, j: Job)
    requires Reachable(steps, t, j)
    ensures Accounts(j) && Disciplined(j)
  {
    RunSound(EMPTY, steps, t);
    if o :| o in t.objs && t.objs[o].job == j {
      assert Sound(t.objs[o]);
    } else {
      assert SoundStore(t.store);
    }
  }

  lemma {:induction false} Balance(log: seq<Event>)
    requires WellFormed(log)
    ensures Count(log, Began) == Count(log, Succeeded) + Count(log, Failed) + Lost(log) + if IsOpen(log) then 1 else 0
  {
    if log != [] {
      var init, e := log[..|log| - 1], log[|log| - 1];
      assert log == init + [e];
      Append(init, e);
      assert Ends(e) ==> IsOpen(log[..|log| - 1]);
      assert WellFormed(init) by {
        forall k | 0 <= k < |init| && Ends(init[k]) ensures IsOpen(init[..k]) {
          assert init[..k] == log[..k] && Ends(log[k]);
        }
      }
      Balance(init);
    }
  }

  /** Over all runs with crashes, restarts, updates, panics and store failures: the counters count
      what was recorded, the consecutive counter is the failing suffix of the recorded outcomes,
      auto-disabled means five or more of them, and executions exceed successes and failures by
      exactly those lost and the one in flight. */
  lemma Accounting(steps: seq<Step>, t: Sys, j: Job)
    requires Reachable(steps, t, j)
    ensures j.successes == Count(j.log, Succeeded) && j.failures == Count(j.log, Failed)
    ensures j.consecutive == FailingSuffix(Outcomes(j.log))
    ensures j.autoDisabled <==> j.consecutive >= MAX_CONSECUTIVE_FAILURES
    ensures j.executions == j.successes + j.failures + Lost(j.log) + if IsOpen(j.log) then 1 else 0
  {
    ReachableSound(steps, t, j);
    Balance(j.log);
  }

  lemma {:induction false} StaysMuted(log: seq<Event>, i: nat, j: nat)
    requires i <= j <= |log| && IsMuted(log[..i])
    requires forall k :: i <= k < j ==> log[k] != Updated(true)
    ensures IsMuted(log[..j])
  {
    if i < j {
      StaysMuted(log, i, j - 1);
      assert log[..j][..j - 1] == log[..j - 1];
    }
  }

  /** After a fifth failure in a row, no execution begins without an update to enabled in between. */
  lemma SixthFailureNeedsUpdate(steps: seq<Step>, t: Sys, j: Job, fifth: nat, next: nat)
    requires Reachable(steps, t, j) && fifth < next < |j.log|
    requires j.log[fifth] == Failed && FailingSuffix(Outcomes(j.log[..fifth + 1])) == MAX_CONSECUTIVE_FAILURES
    requires j.log[next] == Began
    ensures exists k :: fifth < k < next && j.log[k] == Updated(true)
  {
    ReachableSound(steps, t, j);
    if forall k :: fifth < k < next ==> j.log[k] != Updated(true) {
      StaysMuted(j.log, fifth + 1, next);
      assert false;
    }
  }
}
