/** The hierarchical rate limiter of src/core/infra/provisioning.go
    (`CreateVmsInParallel`; the same protocol drives `ControlVmsInParallel` and
    `fetchVmStatusesWithRateLimiting`): one goroutine per provider, under it one
    per region behind a region semaphore, under that one per VM behind a VM
    semaphore, with error lists merged upwards under mutexes. */
module RateLimiter {
  import opened Options
  import opened Text

  datatype Vm = Vm(id: string, provider: string, region: string)

  type Capacity = n: int | n > 0 witness 1

  datatype Limits = Limits(maxRegions: Capacity, maxVms: Capacity)

  datatype Operation = CreateOrControl | FetchStatus

  /** Semaphore capacities per cloud provider. */
  function LimitsFor(op: Operation, provider: string): Limits {
    var csp := Lower(provider);
    match op
    case CreateOrControl => if csp == "ncp" then Limits(5, 15) else Limits(30, 20)
    case FetchStatus =>
      if csp == "aws" then Limits(10, 30)
      else if csp == "azure" then Limits(8, 25)
      else if csp == "gcp" then Limits(12, 35)
      else if csp == "alibaba" || csp == "tencent" then Limits(6, 20)
      else if csp == "ncp" then Limits(3, 15)
      else if csp == "nhn" then Limits(5, 20)
      else if csp == "openstack" then Limits(5, 15)
      else Limits(10, 30)
  }

  /** The capacities, whatever the case the provider is written in. */
  lemma Capacities(op: Operation, provider: string)
    ensures LimitsFor(op, provider) == LimitsFor(op, Lower(provider))
    ensures var csp, l := Lower(provider), LimitsFor(op, provider);
            && (op == CreateOrControl ==> (l.maxRegions, l.maxVms) == if csp == "ncp" then (5, 15) else (30, 20))
            && (op == FetchStatus ==>
                  && (csp in {"alibaba", "tencent"} ==> (l.maxRegions, l.maxVms) == (6, 20))
                  && (csp == "azure" ==> (l.maxRegions, l.maxVms) == (8, 25))
                  && (csp == "gcp" ==> (l.maxRegions, l.maxVms) == (12, 35))
                  && (csp == "ncp" ==> (l.maxRegions, l.maxVms) == (3, 15))
                  && (csp == "nhn" ==> (l.maxRegions, l.maxVms) == (5, 20))
                  && (csp == "openstack" ==> (l.maxRegions, l.maxVms) == (5, 15))
                  && (csp !in {"alibaba", "tencent", "azure", "gcp", "ncp", "nhn", "openstack"} ==>
                        (l.maxRegions, l.maxVms) == (10, 30)))
  {
    assert Lower(Lower(provider)) == Lower(provider);
  }

  // ---------- step 1: grouping ----------

  type Groups = map<string, map<string, seq<Vm>>>

  /** The VMs of one provider and region, in list order. */
  function InGroup(vms: seq<Vm>, provider: string, region: string): seq<Vm> {
    if vms == [] then []
    else
      var init, v := vms[..|vms| - 1], vms[|vms| - 1];
      InGroup(init, provider, region) + if v.provider == provider && v.region == region then [v] else []
  }

  function Group(g: Groups, provider: string, region: string): seq<Vm> {
    if provider in g && region in g[provider] then g[provider][region] else []
  }

  /** The map holds exactly the non-empty groups of the list. */
  ghost predicate IsGrouping(g: Groups, vms: seq<Vm>) {
    && (forall p, r :: Group(g, p, r) == InGroup(vms, p, r))
    && (forall p :: p in g ==> g[p] != map[])
    && (forall p, r :: p in g && r in g[p] ==> g[p][r] != [])
  }

  method GroupVms(vms: seq<Vm>) returns (g: Groups)
    ensures IsGrouping(g, vms)
  {
    g := map[];
    for i := 0 to |vms|
      invariant IsGrouping(g, vms[..i])
    {
      var p, r := vms[i].provider, vms[i].region;
      ghost var before := g;
      if p !in g {
        g := g[p := map[]];
      }
      var bucket := if r in g[p] then g[p][r] else [];
      g := g[p := g[p][r := bucket + [vms[i]]]];
      assert vms[..i + 1][..i] == vms[..i];
      forall p', r' ensures Group(g, p', r') == InGroup(vms[..i + 1], p', r') {
        assert Group(before, p', r') == InGroup(vms[..i], p', r');
      }
    }
    assert vms[..|vms|] == vms;
  }

  /** Grouping loses and duplicates nothing: a VM is counted in its own group only. */
  lemma {:induction false} GroupCounts(vms: seq<Vm>, v: Vm, p: string, r: string)
    ensures multiset(InGroup(vms, p, r))[v] ==
            if p == v.provider && r == v.region then multiset(vms)[v] else 0
  {
    if vms != [] {
      GroupCounts(vms[..|vms| - 1], v, p, r);
      assert vms == vms[..|vms| - 1] + [vms[|vms| - 1]];
    }
  }

  // ---------- steps 2 to 4: the goroutine tree ----------

  /** A VM goroutine: blocked on the VM semaphore, inside the VM operation, back
      from it with the outcome recorded, or finished with its slot given back. */
  datatype TaskPhase = Waiting | Running | Returned | Done

  datatype Task = Task(vm: Vm, phase: TaskPhase, failed: bool)

  /** A region goroutine: blocked on the region semaphore, waiting for its VMs,
      merged into the provider's errors, or finished with its slot given back. */
  datatype RegionPhase = Queued | Active | Merged | Released

  /** A region's semaphore `slots` counts tokens taken; `errors` lists failed tasks. */
  datatype Region = Region(phase: RegionPhase, slots: nat, errors: seq<nat>)

  datatype Provider = Provider(merged: bool, slots: nat, errors: seq<nat>)

  type Key = (string, string)

  function KeyOf(vm: Vm): Key { (vm.provider, vm.region) }

  /** Task `i` handles the `i`-th VM of the list, under the region goroutine of
      its group; `calls` observes, in order, the VM operations issued. */
  datatype State = State(limits: string -> Limits, tasks: seq<Task>, regions: map<Key, Region>, providers: map<string, Provider>,
                         errors: seq<nat>, calls: seq<nat>)

  datatype Step =
    | EnterRegion(k: Key)
    | AcquireVm(i: nat)
    | ReturnVm(i: nat, failed: bool)
    | LeaveVm(i: nat)
    | MergeRegion(k: Key)
    | LeaveRegion(k: Key)
    | MergeProvider(p: string)

  predicate TasksDone(s: State, k: Key) {
    forall i :: 0 <= i < |s.tasks| && KeyOf(s.tasks[i].vm) == k ==> s.tasks[i].phase == Done
  }

  predicate RegionsReleased(s: State, p: string) {
    forall k :: k in s.regions && k.0 == p ==> s.regions[k].phase == Released
  }

  predicate InActiveRegion(s: State, i: nat) {
    i < |s.tasks| && var k := KeyOf(s.tasks[i].vm); k in s.regions && s.regions[k].phase == Active
  }

  predicate Enabled(s: State, st: Step) {
    match st
    case EnterRegion(k) => k in s.regions && s.regions[k].phase == Queued && k.0 in s.providers
                           && s.providers[k.0].slots < s.limits(k.0).maxRegions
    case AcquireVm(i) => InActiveRegion(s, i) && s.tasks[i].phase == Waiting
                         && s.regions[KeyOf(s.tasks[i].vm)].slots < s.limits(s.tasks[i].vm.provider).maxVms
    case ReturnVm(i, _) => InActiveRegion(s, i) && s.tasks[i].phase == Running
    case LeaveVm(i) => InActiveRegion(s, i) && s.tasks[i].phase == Returned && s.regions[KeyOf(s.tasks[i].vm)].slots > 0
    case MergeRegion(k) => k in s.regions && s.regions[k].phase == Active && k.0 in s.providers && TasksDone(s, k)
    case LeaveRegion(k) => k in s.regions && s.regions[k].phase == Merged && k.0 in s.providers && s.providers[k.0].slots > 0
    case MergeProvider(p) => p in s.providers && !s.providers[p].merged && RegionsReleased(s, p)
  }

  function Next(s: State, st: Step): State
    requires Enabled(s, st)
  {
    match st
    case EnterRegion(k) =>
      var prov := s.providers[k.0];
      s.(regions := s.regions[k := s.regions[k].(phase := Active)],
         providers := s.providers[k.0 := prov.(slots := prov.slots + 1)])
    case AcquireVm(i) =>
      var k := KeyOf(s.tasks[i].vm);
      s.(tasks := s.tasks[i := s.tasks[i].(phase := Running)],
         regions := s.regions[k := s.regions[k].(slots := s.regions[k].slots + 1)],
         calls := s.calls + [i])
    case ReturnVm(i, failed) =>
      var k := KeyOf(s.tasks[i].vm);
      s.(tasks := s.tasks[i := s.tasks[i].(phase := Returned, failed := failed)],
         regions := if failed then s.regions[k := s.regions[k].(errors := s.regions[k].errors + [i])] else s.regions)
    case LeaveVm(i) =>
      var k := KeyOf(s.tasks[i].vm);
      s.(tasks := s.tasks[i := s.tasks[i].(phase := Done)],
         regions := s.regions[k := s.regions[k].(slots := s.regions[k].slots - 1)])
    case MergeRegion(k) =>
      var prov := s.providers[k.0];
      s.(regions := s.regions[k := s.regions[k].(phase := Merged)],
         providers := s.providers[k.0 := prov.(errors := prov.errors + s.regions[k].errors)])
    case LeaveRegion(k) =>
      var prov := s.providers[k.0];
      s.(regions := s.regions[k := s.regions[k].(phase := Released)],
         providers := s.providers[k.0 := prov.(slots := prov.slots - 1)])
    case MergeProvider(p) =>
      s.(providers := s.providers[p := s.providers[p].(merged := true)],
         errors := s.errors + s.providers[p].errors)
  }

  /** `wg.Wait()` of the outermost function has returned. */
  predicate Final(s: State) {
    forall p :: p in s.providers ==> s.providers[p].merged
  }

  /** The value then returned by `CreateVmsInParallel`: an error only if all VMs failed. */
  function Result(s: State): Option<nat> {
    if |s.errors| > 0 && |s.errors| >= |s.tasks| then Some(s.errors[0]) else None
  }

  function GroupKeys(g: Groups): set<Key> {
    set p, r | p in g && r in g[p] :: (p, r)
  }

  /** The tree just after every goroutine was started. */
  ghost predicate Initial(s: State, vms: seq<Vm>, g: Groups) {
    && |s.tasks| == |vms|
    && (forall i :: 0 <= i < |vms| ==> s.tasks[i] == Task(vms[i], Waiting, false))
    && s.regions.Keys == GroupKeys(g)
    && (forall k :: k in s.regions ==> s.regions[k] == Region(Queued, 0, []))
    && s.providers.Keys == g.Keys
    && (forall p :: p in s.providers ==> s.providers[p] == Provider(false, 0, []))
    && s.errors == [] && s.calls == []
  }

  method Launch(op: Operation, vms: seq<Vm>) returns (s: State, ghost g: Groups)
    ensures IsGrouping(g, vms) && Initial(s, vms, g)
    ensures forall p :: s.limits(p) == LimitsFor(op, p)
  {
    var groups := GroupVms(vms);
    g := groups;
    s := State(p => LimitsFor(op, p),
               seq(|vms|, i requires 0 <= i < |vms| => Task(vms[i], Waiting, false)),
               map k | k in GroupKeys(groups) :: Region(Queued, 0, []),
               map p | p in groups :: Provider(false, 0, []),
               [], []);
  }

  // ---------- the invariant ----------

  /** The sequence enumerates the set, each element once. */
  ghost predicate Lists(xs: seq<nat>, s: set<nat>) {
    && (forall i, j :: 0 <= i < j < |xs| ==> xs[i] != xs[j])
    && (forall x :: x in xs <==> x in s)
  }

  function InFlight(s: State, k: Key): set<nat> {
    set i | 0 <= i < |s.tasks| && KeyOf(s.tasks[i].vm) == k && (s.tasks[i].phase == Running || s.tasks[i].phase == Returned)
  }

  function ActiveRegions(s: State, p: string): set<Key> {
    set k | k in s.regions && k.0 == p && (s.regions[k].phase == Active || s.regions[k].phase == Merged)
  }

  function Failed(s: State): set<nat> {
    set i | 0 <= i < |s.tasks| && s.tasks[i].failed
  }

  function FailedIn(s: State, k: Key): set<nat> {
    set i | 0 <= i < |s.tasks| && s.tasks[i].failed && KeyOf(s.tasks[i].vm) == k
  }

  predicate HasMerged(s: State, k: Key) {
    k in s.regions && (s.regions[k].phase == Merged || s.regions[k].phase == Released)
  }

  function FailedAndMerged(s: State, p: string): set<nat> {
    set i | 0 <= i < |s.tasks| && s.tasks[i].failed && s.tasks[i].vm.provider == p && HasMerged(s, KeyOf(s.tasks[i].vm))
  }

  function FailedAndReported(s: State): set<nat> {
    set i | 0 <= i < |s.tasks| && s.tasks[i].failed
            && s.tasks[i].vm.provider in s.providers && s.providers[s.tasks[i].vm.provider].merged
  }

  function Called(s: State): set<nat> {
    set i | 0 <= i < |s.tasks| && s.tasks[i].phase != Waiting
  }

  /** Which goroutine exists and how far the phases of parents and children may differ. */
  ghost predicate Shape(s: State) {
    && (forall i :: 0 <= i < |s.tasks| ==> KeyOf(s.tasks[i].vm) in s.regions)
    && (forall k :: k in s.regions ==> k.0 in s.providers)
    && (forall i :: 0 <= i < |s.tasks| && s.regions[KeyOf(s.tasks[i].vm)].phase == Queued ==> s.tasks[i].phase == Waiting)
    && (forall i :: 0 <= i < |s.tasks| && HasMerged(s, KeyOf(s.tasks[i].vm)) ==> s.tasks[i].phase == Done)
    && (forall i :: 0 <= i < |s.tasks| && s.tasks[i].failed ==> s.tasks[i].phase == Returned || s.tasks[i].phase == Done)
    && (forall k :: k in s.regions && s.providers[k.0].merged ==> s.regions[k].phase == Released)
  }

  /** Each semaphore counts its holders and is within its capacity. */
  ghost predicate Semaphores(s: State) {
    && (forall k :: k in s.regions ==> s.regions[k].slots == |InFlight(s, k)| <= s.limits(k.0).maxVms)
    && (forall p :: p in s.providers ==> s.providers[p].slots == |ActiveRegions(s, p)| <= s.limits(p).maxRegions)
  }

  /** Each list holds exactly the failures (or the calls) it stands for. */
  ghost predicate Ledgers(s: State) {
    && (forall k :: k in s.regions ==> Lists(s.regions[k].errors, FailedIn(s, k)))
    && (forall p :: p in s.providers ==> Lists(s.providers[p].errors, FailedAndMerged(s, p)))
    && Lists(s.errors, FailedAndReported(s))
    && Lists(s.calls, Called(s))
  }

  ghost predicate Inv(s: State) {
    Shape(s) && Semaphores(s) && Ledgers(s)
  }
}
