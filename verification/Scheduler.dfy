/** The job scheduler of src/core/infra/scheduler.go: job objects shared between
    the manager's table and their own goroutines, and the records persisted in
    the key-value store. */
module Scheduler {
  import opened Options

  const MAX_CONSECUTIVE_FAILURES := 5
  const MIN_INTERVAL := 10
  const MIN_UPDATED_INTERVAL := 60

  datatype JobStatus = Scheduled | Executing | Stopped

  /** The six fields by which two jobs are duplicates. */
  datatype Config = Config(nsId: string, jobType: string, connectionName: string, mciNamePrefix: string,
                           option: string, mciFlag: string)

  /** What has happened to a job, and its earlier incarnations, in order. */
  datatype Event = Began | Succeeded | Failed | Panicked | Interrupted | Updated(enabled: bool)

  /** One job, in memory or persisted. `log` is a history variable: it is only ever appended to. */
  datatype Job = Job(id: string, config: Config, interval: int, enabled: bool, status: JobStatus,
                     executions: nat, successes: nat, failures: nat, consecutive: nat, autoDisabled: bool,
                     log: seq<Event>)

  // ---------- what each critical section does to a job ----------

  function NewJob(id: string, config: Config, interval: int): Job {
    Job(id, config, interval, true, Scheduled, 0, 0, 0, 0, false, [])
  }

  function Begin(j: Job): Job {
    j.(status := Executing, executions := j.executions + 1, log := j.log + [Began])
  }

  predicate AutoDisables(j: Job) {
    j.consecutive + 1 >= MAX_CONSECUTIVE_FAILURES && !j.autoDisabled
  }

  function Finish(j: Job, ok: bool): Job {
    if ok then
      j.(status := Scheduled, successes := j.successes + 1, consecutive := 0, autoDisabled := false,
         log := j.log + [Succeeded])
    else
      j.(status := Scheduled, failures := j.failures + 1, consecutive := j.consecutive + 1,
         enabled := j.enabled && !AutoDisables(j), autoDisabled := j.autoDisabled || AutoDisables(j),
         log := j.log + [Failed])
  }

  function Panic(j: Job): Job {
    j.(status := Scheduled, log := j.log + [Panicked])
  }

  function Update(j: Job, interval: Option<int>, enabled: Option<bool>): Job {
    var k := if interval.Some? && interval.value >= MIN_UPDATED_INTERVAL then j.(interval := interval.value) else j;
    if enabled.Some? then k.(enabled := enabled.value, log := k.log + [Updated(enabled.value)]) else k
  }

  /** What `recoverJob` makes of a persisted record. */
  function Recover(j: Job): Job {
    if j.status == Executing then j.(status := Scheduled, log := j.log + [Interrupted]) else j
  }

  // ---------- the job object ----------

  class ScheduledJob {
    const id: string
    const config: Config
    var interval: int
    var enabled: bool
    var status: JobStatus
    var executionCount: nat
    var successCount: nat
    var failureCount: nat
    var consecutiveFailures: nat
    var autoDisabled: bool
    var log: seq<Event>
    var ticking: bool
    var cancelled: bool

    function Snapshot(): Job
      reads this
    {
      Job(id, config, interval, enabled, status, executionCount, successCount, failureCount, consecutiveFailures,
          autoDisabled, log)
    }

    constructor (j: Job)
      ensures Snapshot() == j && !ticking && !cancelled
    {
      id, config, interval, enabled, status := j.id, j.config, j.interval, j.enabled, j.status;
      executionCount, successCount, failureCount := j.executions, j.successes, j.failures;
      consecutiveFailures, autoDisabled, log := j.consecutive, j.autoDisabled, j.log;
      ticking, cancelled := false, false;
    }

    /** The critical section at the head of `start`. */
    method Start()
      modifies this
      ensures Snapshot() == old(Snapshot()).(status := Scheduled) && ticking && cancelled == old(cancelled)
    {
      status := Scheduled;
      ticking := true;
    }

    /** The first critical section of `execute`. */
    method BeginExecution()
      modifies this
      ensures Snapshot() == Begin(old(Snapshot())) && ticking == old(ticking) && cancelled == old(cancelled)
    {
      status := Executing;
      executionCount := executionCount + 1;
      log := log + [Began];
    }

    /** The second critical section of `execute`, for a task that ended with or without an error. */
    method FinishExecution(ok: bool)
      modifies this
      ensures Snapshot() == Finish(old(Snapshot()), ok) && cancelled == old(cancelled)
      ensures ticking == (old(ticking) && (ok || !AutoDisables(old(Snapshot()))))
    {
      if !ok {
        failureCount := failureCount + 1;
        consecutiveFailures := consecutiveFailures + 1;
        log := log + [Failed];
        if consecutiveFailures >= MAX_CONSECUTIVE_FAILURES && !autoDisabled {
          enabled := false;
          autoDisabled := true;
          ticking := false;
        }
      } else {
        successCount := successCount + 1;
        consecutiveFailures := 0;
        log := log + [Succeeded];
        if autoDisabled {
          autoDisabled := false;
        }
      }
      status := Scheduled;
    }

    /** The deferred recovery of `execute`. */
    method RecoverPanic()
      modifies this
      ensures Snapshot() == Panic(old(Snapshot())) && ticking == old(ticking) && cancelled == old(cancelled)
    {
      status := Scheduled;
      log := log + [Panicked];
    }

    method Stop()
      modifies this
      ensures Snapshot() == old(Snapshot()).(status := Stopped) && !ticking && cancelled
    {
      ticking := false;
      cancelled := true;
      status := Stopped;
    }

    /** The body of `UpdateScheduledJob` before the record is persisted. */
    method Configure(newInterval: Option<int>, newEnabled: Option<bool>, hasTicker: bool)
      modifies this
      ensures Snapshot() == Update(old(Snapshot()), newInterval, newEnabled) && cancelled == old(cancelled)
      ensures ticking == (old(ticking) || (hasTicker && newInterval.Some? && newInterval.value >= MIN_UPDATED_INTERVAL))
    {
      if newInterval.Some? && newInterval.value >= MIN_UPDATED_INTERVAL {
        interval := newInterval.value;
        if hasTicker {
          ticking := true;
        }
      }
      if newEnabled.Some? {
        enabled := newEnabled.value;
        log := log + [Updated(newEnabled.value)];
      }
    }
  }

  predicate IsStopped(job: ScheduledJob)
    reads job
  {
    job.cancelled && !job.ticking && job.status == Stopped
  }

  // ---------- the manager ----------

  type Table = map<string, Job>

  predicate HasDuplicate(table: Table, config: Config) {
    exists id :: id in table && table[id].config == config
  }

  /** A request is accepted if it duplicates nothing, is not too frequent, names valid
      options and gets an unused id. */
  predicate Accepts(table: Table, id: string, config: Config, interval: int, optionOk: bool) {
    !HasDuplicate(table, config) && interval >= MIN_INTERVAL && OptionValid(config, optionOk) && id !in table
  }

  /** Options are only looked at for the two known job types. */
  predicate OptionValid(config: Config, optionOk: bool) {
    config.jobType in {"registerCspResources", "registerCspResourcesAll"} ==> optionOk
  }

  function Saved(store: Table, j: Job, ok: bool): Table {
    if ok then store[j.id := j] else store
  }

  function Deleted(store: Table, id: string, ok: bool): Table {
    if ok then store - {id} else store
  }

  lemma DropOne<T>(m: map<string, T>, gone: set<string>, id: string)
    ensures m - gone - {id} == m - (gone + {id})
  {
  }

  /** The record of a job whose delete fails stays. */
  lemma DeleteOne(m: Table, gone: set<string>, failing: set<string>, id: string)
    ensures Deleted(m - (gone - failing), id, id !in failing) == m - (gone + {id} - failing)
  {
    assert id in failing ==> gone + {id} - failing == gone - failing;
    assert id !in failing ==> gone + {id} - failing == gone - failing + {id};
    DropOne(m, gone - failing, id);
  }

  lemma OneMore(gone: set<string>, id: string, failing: set<string>)
    requires id !in gone
    ensures |gone + {id}| == |gone| + 1
    ensures !(gone + {id} !! failing) <==> !(gone !! failing) || id in failing
  {
  }

  class SchedulerManager {
    var jobs: map<string, ScheduledJob>
    var store: Table

    /** Each job is filed under its own id, so no object is filed twice. */
    ghost predicate Valid()
      reads this
    {
      forall id :: id in jobs ==> jobs[id].id == id
    }

    /** The in-memory table, by value. */
    function InMemory(): Table
      reads this, jobs.Values
    {
      map id | id in jobs :: jobs[id].Snapshot()
    }

    /** A process starting over persisted records. */
    constructor (persisted: Table)
      ensures jobs == map[] && store == persisted && Valid()
    {
      jobs := map[];
      store := persisted;
    }

    method FindDuplicateJob(config: Config) returns (found: bool)
      ensures found <==> HasDuplicate(InMemory(), config)
    {
      var todo := jobs.Keys;
      while todo != {}
        invariant todo <= jobs.Keys
        invariant forall id :: id in jobs && id !in todo ==> jobs[id].config != config
      {
        var id :| id in todo;
        if jobs[id].config == config {
          assert id in InMemory();
          return true;
        }
        todo := todo - {id};
      }
      assert forall id :: id in InMemory() ==> id in jobs;
      return false;
    }

    method CreateScheduledJob(id: string, config: Config, interval: int, optionOk: bool, putOk: bool)
      returns (created: Option<ScheduledJob>)
      requires Valid()
      modifies this
      ensures Valid()
      ensures created.Some? <==> Accepts(old(InMemory()), id, config, interval, optionOk) && putOk
      ensures created.Some? ==> fresh(created.value) && jobs == old(jobs)[id := created.value]
                                && created.value.Snapshot() == NewJob(id, config, interval)
                                && store == Saved(old(store), NewJob(id, config, interval), true)
      ensures created.None? ==> jobs == old(jobs) && store == old(store)
    {
      var duplicate := FindDuplicateJob(config);
      if duplicate || interval < MIN_INTERVAL {
        return None;
      }
      if (config.jobType == "registerCspResources" || config.jobType == "registerCspResourcesAll") && !optionOk {
        return None;
      }
      if id in jobs {
        return None;
      }
      var job := new ScheduledJob(NewJob(id, config, interval));
      ghost var before := jobs;
      jobs := jobs[id := job];
      if !putOk {
        jobs := jobs - {id};
        assert jobs == before;
        return None;
      }
      store := Saved(store, job.Snapshot(), true);
      return Some(job);
    }

    method StopScheduledJob(id: string, deleteOk: bool) returns (found: bool)
      requires Valid()
      modifies this, jobs.Values
      ensures Valid() && found == (id in old(jobs))
      ensures jobs == old(jobs) - {id} && store == if found then Deleted(old(store), id, deleteOk) else old(store)
      ensures found ==> IsStopped(old(jobs)[id])
      ensures forall other :: other in jobs ==> unchanged(jobs[other])
    {
      if id !in jobs {
        assert jobs == jobs - {id};
        return false;
      }
      Discard(id, deleteOk);
      return true;
    }

    /** Stops one job, deletes its record and drops it from the table. */
    method Discard(id: string, deleteOk: bool)
      requires id in jobs
      modifies this, jobs[id]
      ensures jobs == old(jobs) - {id} && store == Deleted(old(store), id, deleteOk)
      ensures IsStopped(old(jobs)[id])
    {
      jobs[id].Stop();
      store := Deleted(store, id, deleteOk);
      jobs := jobs - {id};
    }

    /** While all jobs are being stopped: those of `gone` are, and their records deleted but for the failures. */
    ghost predicate Drained(all: map<string, ScheduledJob>, gone: set<string>, before: Table, failing: set<string>)
      reads this, all.Values
    {
      && (forall id :: id in jobs <==> id in all && id !in gone)
      && (forall id :: id in jobs ==> jobs[id] == all[id])
      && (forall id :: id in gone ==> id in all && IsStopped(all[id]))
      && store == before - (gone - failing)
    }

    method DiscardNext(id: string, ghost all: map<string, ScheduledJob>, ghost gone: set<string>, ghost before: Table,
                       failing: set<string>)
      requires Drained(all, gone, before, failing) && id in jobs && forall i :: i in all ==> all[i].id == i
      modifies this, jobs[id]
      ensures Drained(all, gone + {id}, before, failing) && jobs.Keys == old(jobs.Keys) - {id}
    {
      DeleteOne(before, gone, failing, id);
      Discard(id, id !in failing);
    }

    lemma AllDrained(all: map<string, ScheduledJob>, gone: set<string>, before: Table, failing: set<string>)
      requires Drained(all, gone, before, failing) && jobs.Keys == {}
      ensures jobs == map[] && gone == all.Keys && store == before - (all.Keys - failing)
      ensures forall id :: id in all ==> IsStopped(all[id])
    {
      assert forall id :: id in all ==> id !in jobs.Keys;
    }

    /** Every delete that fails leaves its record behind, and the loop goes on. */
    method StopAllScheduledJobs(failing: set<string>) returns (count: nat, failed: bool)
      requires Valid()
      modifies this, jobs.Values
      ensures jobs == map[] && count == |old(jobs)|
      ensures store == old(store) - (old(jobs).Keys - failing)
      ensures failed <==> !(old(jobs).Keys !! failing)
      ensures forall id :: id in old(jobs) ==> IsStopped(old(jobs)[id])
    {
      count, failed := 0, false;
      ghost var all, before, gone := jobs, store, {};
      var jobsToDelete := jobs.Keys;
      while jobsToDelete != {}
        invariant jobsToDelete == jobs.Keys
        invariant Drained(all, gone, before, failing)
        invariant count == |gone| && failed == !(gone !! failing)
      {
        var id :| id in jobsToDelete;
        OneMore(gone, id, failing);
        DiscardNext(id, all, gone, before, failing);
        gone := gone + {id};
        jobsToDelete := jobsToDelete - {id};
        failed := failed || id in failing;
        count := count + 1;
      }
      AllDrained(all, gone, before, failing);
    }

    method UpdateScheduledJob(id: string, interval: Option<int>, enabled: Option<bool>, hasTicker: bool, putOk: bool)
      returns (ok: bool)
      requires Valid()
      modifies this`store, jobs.Values
      ensures Valid() && ok == (id in jobs && putOk)
      ensures id in jobs ==> jobs[id].Snapshot() == Update(old(jobs[id].Snapshot()), interval, enabled)
      ensures forall other :: other in jobs && other != id ==> unchanged(jobs[other])
      ensures store == if id in jobs then Saved(old(store), jobs[id].Snapshot(), putOk) else old(store)
    {
      if id !in jobs {
        return false;
      }
      var job := jobs[id];
      job.Configure(interval, enabled, hasTicker);
      store := Saved(store, job.Snapshot(), putOk);
      return putOk;
    }

    /** `loadJobsFromStore`: one object per record; the records themselves are not rewritten. */
    method LoadJobsFromStore()
      requires jobs == map[] && forall id :: id in store ==> store[id].id == id
      modifies this`jobs
      ensures Valid()
      ensures jobs.Keys == store.Keys && forall id :: id in jobs ==> fresh(jobs[id]) && jobs[id].Snapshot() == Recover(store[id])
    {
      var todo := store.Keys;
      while todo != {}
        invariant todo <= store.Keys && Valid()
        invariant forall id :: id in jobs ==> fresh(jobs[id])
        invariant jobs.Keys == store.Keys - todo
        invariant forall id :: id in jobs ==> jobs[id].Snapshot() == Recover(store[id])
      {
        var id :| id in todo;
        var job := new ScheduledJob(Recover(store[id]));
        jobs := jobs[id := job];
        todo := todo - {id};
      }
    }
  }
}
