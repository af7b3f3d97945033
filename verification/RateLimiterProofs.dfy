/** Safety, progress, termination and the outcome of the rate limiter, over every
    interleaving of its goroutines. */
module RateLimiterProofs {
  import opened RateLimiter

  // ---------- every step keeps the invariant ----------

  predicate IsVmStep(st: Step) {
    st.AcquireVm? || st.ReturnVm? || st.LeaveVm?
  }

  /** The part of the invariant about one task. */
  ghost predicate TaskFits(s: State, i: nat)
    requires i < |s.tasks|
  {
    && KeyOf(s.tasks[i].vm) in s.regions
    && (s.regions[KeyOf(s.tasks[i].vm)].phase == Queued ==> s.tasks[i].phase == Waiting)
    && (HasMerged(s, KeyOf(s.tasks[i].vm)) ==> s.tasks[i].phase == Done)
    && (s.tasks[i].failed ==> s.tasks[i].phase == Returned || s.tasks[i].phase == Done)
  }

  lemma TaskFitsAfterVm(s: State, st: Step, i: nat)
    requires Shape(s) && Enabled(s, st) && IsVmStep(st) && i < |s.tasks|
    ensures |Next(s, st).tasks| == |s.tasks| && TaskFits(Next(s, st), i)
  {
    assert TaskFits(s, i);
  }

  lemma ShapeFromTasks(s: State, n: State)
    requires Shape(s) && n.providers == s.providers && n.regions.Keys == s.regions.Keys
    requires forall k :: k in s.regions ==> n.regions[k].phase == s.regions[k].phase
    requires forall i :: 0 <= i < |n.tasks| ==> TaskFits(n, i)
    ensures Shape(n)
  {
    forall i | 0 <= i < |n.tasks|
      ensures KeyOf(n.tasks[i].vm) in n.regions
      ensures n.regions[KeyOf(n.tasks[i].vm)].phase == Queued ==> n.tasks[i].phase == Waiting
      ensures HasMerged(n, KeyOf(n.tasks[i].vm)) ==> n.tasks[i].phase == Done
      ensures n.tasks[i].failed ==> n.tasks[i].phase == Returned || n.tasks[i].phase == Done
    {
      assert TaskFits(n, i);
    }
  }

  lemma ShapeKeptByVm(s: State, st: Step)
    requires Shape(s) && Enabled(s, st) && IsVmStep(st)
    ensures Shape(Next(s, st))
  {
    forall i | 0 <= i < |Next(s, st).tasks| ensures TaskFits(Next(s, st), i) { TaskFitsAfterVm(s, st, i); }
    ShapeFromTasks(s, Next(s, st));
  }

  lemma ShapeKeptByRegion(s: State, st: Step)
    requires Shape(s) && Enabled(s, st) && !IsVmStep(st)
    ensures Shape(Next(s, st))
  {
  }

  lemma ShapeKept(s: State, st: Step)
    requires Shape(s) && Enabled(s, st)
    ensures Shape(Next(s, st))
  {
    if IsVmStep(st) { ShapeKeptByVm(s, st); } else { ShapeKeptByRegion(s, st); }
  }

  predicate Holding(t: Task) {
    t.phase == Running || t.phase == Returned
  }

  /** One task moves; the set of slot holders of a region changes accordingly. */
  lemma InFlightUpdate(s: State, n: State, i: nat, t: Task, k: Key)
    requires i < |s.tasks| && n.tasks == s.tasks[i := t] && t.vm == s.tasks[i].vm
    ensures (KeyOf(t.vm) != k || Holding(t) == Holding(s.tasks[i])) ==> InFlight(n, k) == InFlight(s, k)
    ensures KeyOf(t.vm) == k && Holding(t) && !Holding(s.tasks[i]) ==> |InFlight(n, k)| == |InFlight(s, k)| + 1
    ensures KeyOf(t.vm) == k && !Holding(t) && Holding(s.tasks[i]) ==> |InFlight(n, k)| == |InFlight(s, k)| - 1
  {
    var a, b := InFlight(s, k), InFlight(n, k);
    var gains, loses := Holding(t) && !Holding(s.tasks[i]), !Holding(t) && Holding(s.tasks[i]);
    if KeyOf(t.vm) == k && gains {
      assert b == a + {i};
    } else if KeyOf(t.vm) == k && loses {
      assert b == a - {i};
    } else {
      forall j ensures j in a <==> j in b {
        if j == i { assert KeyOf(t.vm) != k || Holding(t) == Holding(s.tasks[i]); }
      }
    }
  }

  lemma InFlightKept(s: State, st: Step, k: Key)
    requires Enabled(s, st) && k in s.regions
    requires s.regions[k].slots == |InFlight(s, k)| <= s.limits(k.0).maxVms
    ensures var n := Next(s, st); n.regions[k].slots == |InFlight(n, k)| <= s.limits(k.0).maxVms
  {
    var n := Next(s, st);
    if st.AcquireVm? || st.ReturnVm? || st.LeaveVm? {
      InFlightUpdate(s, n, st.i, n.tasks[st.i], k);
    } else {
      assert InFlight(n, k) == InFlight(s, k);
    }
  }

  predicate HoldsSlot(s: State, k: Key) {
    k in s.regions && (s.regions[k].phase == Active || s.regions[k].phase == Merged)
  }

  lemma ActiveRegionsSame(s: State, t: State, p: string)
    requires forall k :: HoldsSlot(s, k) <==> HoldsSlot(t, k)
    ensures ActiveRegions(s, p) == ActiveRegions(t, p)
  {
    forall k ensures k in ActiveRegions(s, p) <==> k in ActiveRegions(t, p) {
      assert HoldsSlot(s, k) <==> HoldsSlot(t, k);
    }
  }

  lemma ActiveRegionsEntered(s: State, k: Key, p: string)
    requires Enabled(s, EnterRegion(k))
    ensures var n := Next(s, EnterRegion(k));
            ActiveRegions(n, p) == ActiveRegions(s, p) + (if k.0 == p then {k} else {}) && k !in ActiveRegions(s, p)
  {
  }

  lemma ActiveRegionsLeft(s: State, k: Key, p: string)
    requires Enabled(s, LeaveRegion(k))
    ensures var n := Next(s, LeaveRegion(k));
            ActiveRegions(n, p) == ActiveRegions(s, p) - {k} && (k.0 == p <==> k in ActiveRegions(s, p))
  {
  }

  lemma ActiveRegionsKept(s: State, st: Step, p: string)
    requires Enabled(s, st) && p in s.providers
    requires s.providers[p].slots == |ActiveRegions(s, p)| <= s.limits(p).maxRegions
    ensures var n := Next(s, st); n.providers[p].slots == |ActiveRegions(n, p)| <= s.limits(p).maxRegions
  {
    if st.EnterRegion? {
      ActiveRegionsEntered(s, st.k, p);
    } else if st.LeaveRegion? {
      ActiveRegionsLeft(s, st.k, p);
    } else {
      ActiveRegionsSame(s, Next(s, st), p);
    }
  }

  lemma SemaphoresKept(s: State, st: Step)
    requires Shape(s) && Semaphores(s) && Enabled(s, st)
    ensures Semaphores(Next(s, st))
  {
    var n := Next(s, st);
    forall k | k in n.regions ensures n.regions[k].slots == |InFlight(n, k)| <= n.limits(k.0).maxVms {
      InFlightKept(s, st, k);
    }
    forall p | p in n.providers ensures n.providers[p].slots == |ActiveRegions(n, p)| <= n.limits(p).maxRegions {
      ActiveRegionsKept(s, st, p);
    }
  }

  lemma ListsAppend(xs: seq<nat>, s: set<nat>, ys: seq<nat>, t: set<nat>)
    requires Lists(xs, s) && Lists(ys, t) && s !! t
    ensures Lists(xs + ys, s + t)
  {
    forall i, j | 0 <= i < j < |xs + ys| ensures (xs + ys)[i] != (xs + ys)[j] {
      if i < |xs| <= j {
        assert xs[i] in xs && ys[j - |xs|] in ys;
      }
    }
  }

  lemma ListsOne(x: nat)
    ensures Lists([x], {x})
  {
  }

  lemma RegionLedgerKept(s: State, st: Step, k: Key)
    requires Shape(s) && Enabled(s, st) && k in s.regions && Lists(s.regions[k].errors, FailedIn(s, k))
    ensures Lists(Next(s, st).regions[k].errors, FailedIn(Next(s, st), k))
  {
    var a, b := FailedIn(s, k), FailedIn(Next(s, st), k);
    if st.ReturnVm? && st.failed && KeyOf(s.tasks[st.i].vm) == k {
      assert b == a + {st.i};
      ListsOne(st.i);
      ListsAppend(s.regions[k].errors, a, [st.i], {st.i});
    } else {
      assert b == a;
    }
  }

  /** The failures merged into a provider change only when one of its regions is merged. */
  lemma MergedSame(s: State, st: Step, p: string)
    requires Shape(s) && Enabled(s, st) && !(st.MergeRegion? && st.k.0 == p)
    ensures FailedAndMerged(Next(s, st), p) == FailedAndMerged(s, p)
  {
    var n := Next(s, st);
    forall i | 0 <= i < |s.tasks|
      ensures i in FailedAndMerged(n, p) <==> i in FailedAndMerged(s, p)
    {
      var k := KeyOf(s.tasks[i].vm);
      assert k.0 == p ==> (HasMerged(n, k) <==> HasMerged(s, k));
    }
  }

  lemma MergedAdds(s: State, k: Key)
    requires Shape(s) && Enabled(s, MergeRegion(k))
    ensures FailedAndMerged(Next(s, MergeRegion(k)), k.0) == FailedAndMerged(s, k.0) + FailedIn(s, k)
    ensures FailedAndMerged(s, k.0) !! FailedIn(s, k)
  {
  }

  lemma ProviderLedgerKept(s: State, st: Step, p: string)
    requires Shape(s) && Enabled(s, st) && p in s.providers && Lists(s.providers[p].errors, FailedAndMerged(s, p))
    requires forall k :: k in s.regions ==> Lists(s.regions[k].errors, FailedIn(s, k))
    ensures Lists(Next(s, st).providers[p].errors, FailedAndMerged(Next(s, st), p))
  {
    if st.MergeRegion? && st.k.0 == p {
      MergedAdds(s, st.k);
      ListsAppend(s.providers[p].errors, FailedAndMerged(s, p), s.regions[st.k].errors, FailedIn(s, st.k));
    } else {
      MergedSame(s, st, p);
    }
  }

  lemma ReportLedgerKept(s: State, st: Step)
    requires Shape(s) && Ledgers(s) && Enabled(s, st)
    ensures Lists(Next(s, st).errors, FailedAndReported(Next(s, st)))
  {
    var a, b := FailedAndReported(s), FailedAndReported(Next(s, st));
    if st.MergeProvider? {
      assert b == a + FailedAndMerged(s, st.p);
      ListsAppend(s.errors, a, s.providers[st.p].errors, FailedAndMerged(s, st.p));
    } else {
      assert b == a;
    }
  }

  lemma CallLedgerKept(s: State, st: Step)
    requires Enabled(s, st) && Lists(s.calls, Called(s))
    ensures Lists(Next(s, st).calls, Called(Next(s, st)))
  {
    var a, b := Called(s), Called(Next(s, st));
    if st.AcquireVm? {
      assert b == a + {st.i};
      ListsOne(st.i);
      ListsAppend(s.calls, a, [st.i], {st.i});
    } else {
      assert b == a;
    }
  }

  /** Every step of every goroutine keeps the invariant. */
  lemma StepKeeps(s: State, st: Step)
    requires Inv(s) && Enabled(s, st)
    ensures Inv(Next(s, st))
  {
    var n := Next(s, st);
    ShapeKept(s, st);
    SemaphoresKept(s, st);
    forall k | k in n.regions ensures Lists(n.regions[k].errors, FailedIn(n, k)) { RegionLedgerKept(s, st, k); }
    forall p | p in n.providers ensures Lists(n.providers[p].errors, FailedAndMerged(n, p)) { ProviderLedgerKept(s, st, p); }
    ReportLedgerKept(s, st);
    CallLedgerKept(s, st);
  }

  // ---------- the work left ----------

  function TasksBefore(s: State, phases: set<TaskPhase>): set<nat> {
    set i | 0 <= i < |s.tasks| && s.tasks[i].phase in phases
  }

  function RegionsBefore(s: State, phases: set<RegionPhase>): set<Key> {
    set k | k in s.regions && s.regions[k].phase in phases
  }

  function ProvidersBefore(s: State): set<string> {
    set p | p in s.providers && !s.providers[p].merged
  }

  function TaskMoves(s: State): nat {
    |TasksBefore(s, {Waiting})| + |TasksBefore(s, {Waiting, Running})| + |TasksBefore(s, {Waiting, Running, Returned})|
  }

  function RegionMoves(s: State): nat {
    |RegionsBefore(s, {Queued})| + |RegionsBefore(s, {Queued, Active})| + |RegionsBefore(s, {Queued, Active, Merged})|
  }

  /** Three moves per VM, three per region, one per provider, less those made. */
  function StepsLeft(s: State): nat {
    TaskMoves(s) + RegionMoves(s) + |ProvidersBefore(s)|
  }

  /** A VM goroutine's move takes its task out of the phases it leaves, and changes nothing else. */
  lemma TasksLeft(s: State, st: Step, phases: set<TaskPhase>)
    requires Enabled(s, st) && (st.AcquireVm? || st.ReturnVm? || st.LeaveVm?)
    requires Next(s, st).tasks[st.i].phase in phases ==> s.tasks[st.i].phase in phases
    ensures var gone := s.tasks[st.i].phase in phases && Next(s, st).tasks[st.i].phase !in phases;
            |TasksBefore(Next(s, st), phases)| + (if gone then 1 else 0) == |TasksBefore(s, phases)|
  {
    var a, b := TasksBefore(s, phases), TasksBefore(Next(s, st), phases);
    if s.tasks[st.i].phase in phases && Next(s, st).tasks[st.i].phase !in phases {
      assert b == a - {st.i};
    } else {
      assert b == a;
    }
  }

  lemma RegionsLeft(regions: map<Key, Region>, k: Key, phase: RegionPhase, s: State, t: State, phases: set<RegionPhase>)
    requires s.regions == regions && k in regions && t.regions == regions[k := regions[k].(phase := phase)]
    requires phase in phases ==> regions[k].phase in phases
    ensures var gone := regions[k].phase in phases && phase !in phases;
            |RegionsBefore(t, phases)| + (if gone then 1 else 0) == |RegionsBefore(s, phases)|
  {
    var a, b := RegionsBefore(s, phases), RegionsBefore(t, phases);
    if regions[k].phase in phases && phase !in phases {
      assert b == a - {k};
    } else {
      assert b == a;
    }
  }

  lemma RegionsSame(s: State, t: State, phases: set<RegionPhase>)
    requires s.regions.Keys == t.regions.Keys
    requires forall k :: k in s.regions ==> s.regions[k].phase == t.regions[k].phase
    ensures RegionsBefore(s, phases) == RegionsBefore(t, phases)
  {
  }

  lemma TaskCounts(s: State, st: Step)
    requires Enabled(s, st)
    ensures TaskMoves(Next(s, st)) + (if st.AcquireVm? || st.ReturnVm? || st.LeaveVm? then 1 else 0) == TaskMoves(s)
  {
    if st.AcquireVm? || st.ReturnVm? || st.LeaveVm? {
      TasksLeft(s, st, {Waiting});
      TasksLeft(s, st, {Waiting, Running});
      TasksLeft(s, st, {Waiting, Running, Returned});
    } else {
      assert Next(s, st).tasks == s.tasks;
    }
  }

  lemma RegionCounts(s: State, st: Step)
    requires Enabled(s, st)
    ensures RegionMoves(Next(s, st)) + (if st.EnterRegion? || st.MergeRegion? || st.LeaveRegion? then 1 else 0) == RegionMoves(s)
  {
    var n := Next(s, st);
    if st.EnterRegion? || st.MergeRegion? || st.LeaveRegion? {
      var phase := n.regions[st.k].phase;
      RegionsLeft(s.regions, st.k, phase, s, n, {Queued});
      RegionsLeft(s.regions, st.k, phase, s, n, {Queued, Active});
      RegionsLeft(s.regions, st.k, phase, s, n, {Queued, Active, Merged});
    } else {
      RegionsSame(s, n, {Queued});
      RegionsSame(s, n, {Queued, Active});
      RegionsSame(s, n, {Queued, Active, Merged});
    }
  }

  /** Every step takes exactly one unit off the work left. */
  lemma StepCounts(s: State, st: Step)
    requires Enabled(s, st)
    ensures StepsLeft(Next(s, st)) + 1 == StepsLeft(s)
  {
    TaskCounts(s, st);
    RegionCounts(s, st);
    if st.MergeProvider? {
      assert ProvidersBefore(Next(s, st)) == ProvidersBefore(s) - {st.p};
    } else {
      assert ProvidersBefore(Next(s, st)) == ProvidersBefore(s);
    }
  }

  // ---------- runs ----------

  ghost predicate IsRun(s: State, steps: seq<Step>, t: State)
    decreases |steps|
  {
    if steps == [] then t == s
    else Enabled(s, steps[0]) && IsRun(Next(s, steps[0]), steps[1..], t)
  }

  lemma {:induction false} RunKeeps(s: State, steps: seq<Step>, t: State)
    requires Inv(s) && IsRun(s, steps, t)
    ensures Inv(t)
    decreases |steps|
  {
    if steps != [] {
      StepKeeps(s, steps[0]);
      RunKeeps(Next(s, steps[0]), steps[1..], t);
    }
  }

  lemma {:induction false} RunCounts(s: State, steps: seq<Step>, t: State)
    requires IsRun(s, steps, t)
    ensures StepsLeft(t) + |steps| == StepsLeft(s)
    decreases |steps|
  {
    if steps != [] {
      StepCounts(s, steps[0]);
      RunCounts(Next(s, steps[0]), steps[1..], t);
    }
  }

  lemma {:induction false} RunKeepsWork(s: State, steps: seq<Step>, t: State)
    requires IsRun(s, steps, t)
    ensures t.limits == s.limits && |t.tasks| == |s.tasks| && forall i :: 0 <= i < |s.tasks| ==> t.tasks[i].vm == s.tasks[i].vm
    decreases |steps|
  {
    if steps != [] {
      RunKeepsWork(Next(s, steps[0]), steps[1..], t);
    }
  }

  /** Grouping gives every VM of the list a region goroutine of its own group. */
  lemma GroupOfVm(vms: seq<Vm>, g: Groups, i: nat)
    requires IsGrouping(g, vms) && i < |vms|
    ensures vms[i].provider in g && vms[i].region in g[vms[i].provider]
    ensures vms[i] in g[vms[i].provider][vms[i].region]
  {
    var v := vms[i];
    GroupCounts(vms, v, v.provider, v.region);
    assert v in multiset(vms);
    assert v in InGroup(vms, v.provider, v.region);
    assert Group(g, v.provider, v.region) == InGroup(vms, v.provider, v.region);
  }

  lemma InitialInv(s: State, vms: seq<Vm>, g: Groups)
    requires IsGrouping(g, vms) && Initial(s, vms, g)
    ensures Inv(s)
  {
    InitialShape(s, vms, g);
    InitialEmpty(s, vms, g);
  }

  lemma InitialShape(s: State, vms: seq<Vm>, g: Groups)
    requires IsGrouping(g, vms) && Initial(s, vms, g)
    ensures Shape(s)
  {
    forall i | 0 <= i < |s.tasks| ensures KeyOf(s.tasks[i].vm) in s.regions { GroupOfVm(vms, g, i); }
  }

  lemma InitialEmpty(s: State, vms: seq<Vm>, g: Groups)
    requires Initial(s, vms, g)
    ensures Semaphores(s) && Ledgers(s)
  {
    assert forall k :: k in s.regions ==> InFlight(s, k) == {} && FailedIn(s, k) == {};
    assert forall p :: p in s.providers ==> ActiveRegions(s, p) == {} && FailedAndMerged(s, p) == {};
    assert FailedAndReported(s) == {} && Called(s) == {};
  }

  lemma ReachableInv(vms: seq<Vm>, g: Groups, s: State, steps: seq<Step>, t: State)
    requires IsGrouping(g, vms) && Initial(s, vms, g) && IsRun(s, steps, t)
    ensures Inv(t) && StepsLeft(t) + |steps| == StepsLeft(s)
    ensures t.limits == s.limits && |t.tasks| == |vms|
    ensures forall i :: 0 <= i < |vms| ==> t.tasks[i].vm == vms[i]
  {
    InitialInv(s, vms, g);
    RunKeeps(s, steps, t);
    RunCounts(s, steps, t);
    RunKeepsWork(s, steps, t);
  }

  // ---------- safety ----------

  function VmsInFlight(s: State, p: string): set<nat> {
    set i | 0 <= i < |s.tasks| && s.tasks[i].vm.provider == p && (s.tasks[i].phase == Running || s.tasks[i].phase == Returned)
  }

  /** A set covered by parts of at most `max` elements. */
  lemma {:induction false} CoverBound(keys: set<Key>, parts: map<Key, set<nat>>, max: nat, whole: set<nat>)
    requires keys <= parts.Keys && forall k :: k in keys ==> |parts[k]| <= max
    requires forall i :: i in whole ==> exists k :: k in keys && i in parts[k]
    ensures |whole| <= max * |keys|
    decreases keys
  {
    if keys == {} {
      assert whole == {};
    } else {
      var k :| k in keys;
      var rest := keys - {k};
      CoverBound(rest, parts, max, whole - parts[k]);
      UnionSize(whole, parts[k]);
      ProductStep(max, |rest|);
    }
  }

  lemma UnionSize(a: set<nat>, b: set<nat>)
    ensures |a| <= |a - b| + |b|
  {
    SubsetCardinality(a, (a - b) + b);
    assert (a - b) !! b;
  }

  lemma ProductStep(a: nat, n: nat)
    ensures a * (n + 1) == a * n + a
  {
  }

  lemma {:induction false} SubsetCardinality<T>(a: set<T>, b: set<T>)
    requires a <= b
    ensures |a| <= |b|
    ensures |a| == |b| ==> a == b
  {
    assert b == a + (b - a);
  }

  lemma ProductBound(a: nat, b: nat, c: nat)
    requires b <= c
    ensures a * b <= a * c
  {
  }

  /** No more than `maxRegions` regions of the provider are active, no region has more than
      `maxVms` VMs in flight, so the provider has no more than their product. */
  ghost predicate WithinLimits(s: State, p: string) {
    var l := s.limits(p);
    && |ActiveRegions(s, p)| <= l.maxRegions
    && (forall r: string :: |InFlight(s, (p, r))| <= l.maxVms)
    && |VmsInFlight(s, p)| <= l.maxVms * l.maxRegions
  }

  /** Every reachable state is within the limits of every provider. */
  lemma Safety(vms: seq<Vm>, g: Groups, s: State, steps: seq<Step>, t: State, p: string)
    requires IsGrouping(g, vms) && Initial(s, vms, g) && IsRun(s, steps, t)
    ensures WithinLimits(t, p)
  {
    ReachableInv(vms, g, s, steps, t);
    LimitsHold(t, p);
  }

  lemma LimitsHold(t: State, p: string)
    requires Inv(t)
    ensures WithinLimits(t, p)
  {
    RegionBounds(t, p);
    if p in t.providers {
      ProviderBound(t, p);
    } else {
      UnknownProvider(t, p);
    }
  }

  lemma RegionBounds(t: State, p: string)
    requires Shape(t) && Semaphores(t)
    ensures forall r: string :: |InFlight(t, (p, r))| <= t.limits(p).maxVms
  {
    forall r: string ensures |InFlight(t, (p, r))| <= t.limits(p).maxVms {
      if (p, r) !in t.regions { assert InFlight(t, (p, r)) == {}; }
    }
  }

  lemma UnknownProvider(t: State, p: string)
    requires Shape(t) && p !in t.providers
    ensures ActiveRegions(t, p) == {} && VmsInFlight(t, p) == {}
  {
  }

  lemma ProviderBound(t: State, p: string)
    requires Inv(t) && p in t.providers
    ensures |ActiveRegions(t, p)| <= t.limits(p).maxRegions
    ensures |VmsInFlight(t, p)| <= t.limits(p).maxVms * t.limits(p).maxRegions
  {
    var parts := map k | k in ActiveRegions(t, p) :: InFlight(t, k);
    forall i | i in VmsInFlight(t, p) ensures exists k :: k in parts && i in parts[k] {
      var k := KeyOf(t.tasks[i].vm);
      assert k in parts && i in parts[k];
    }
    assert parts.Keys == ActiveRegions(t, p);
    CoverBound(parts.Keys, parts, t.limits(p).maxVms, VmsInFlight(t, p));
    ProductBound(t.limits(p).maxVms, |ActiveRegions(t, p)|, t.limits(p).maxRegions);
  }

  // ---------- progress and termination ----------

  lemma VmProgress(s: State, k: Key) returns (st: Step)
    requires Inv(s) && k in s.regions && s.regions[k].phase == Active && !TasksDone(s, k)
    ensures Enabled(s, st)
  {
    if InFlight(s, k) != {} {
      var i :| i in InFlight(s, k);
      st := if s.tasks[i].phase == Running then ReturnVm(i, false) else LeaveVm(i);
    } else {
      var i: nat :| i < |s.tasks| && KeyOf(s.tasks[i].vm) == k && s.tasks[i].phase != Done;
      assert i !in InFlight(s, k);
      st := AcquireVm(i);
    }
  }

  lemma ProviderProgress(s: State, p: string) returns (st: Step)
    requires Inv(s) && p in s.providers && !s.providers[p].merged
    ensures Enabled(s, st)
  {
    if RegionsReleased(s, p) {
      st := MergeProvider(p);
    } else if ActiveRegions(s, p) != {} {
      var k :| k in ActiveRegions(s, p);
      if s.regions[k].phase == Merged {
        st := LeaveRegion(k);
      } else if TasksDone(s, k) {
        st := MergeRegion(k);
      } else {
        st := VmProgress(s, k);
      }
    } else {
      var k :| k in s.regions && k.0 == p && s.regions[k].phase != Released;
      assert k !in ActiveRegions(s, p);
      st := EnterRegion(k);
    }
  }

  /** No reachable state is stuck: until every provider has merged, some goroutine can move. */
  lemma Progress(vms: seq<Vm>, g: Groups, s: State, steps: seq<Step>, t: State) returns (st: Step)
    requires IsGrouping(g, vms) && Initial(s, vms, g) && IsRun(s, steps, t) && !Final(t)
    ensures Enabled(t, st)
  {
    ReachableInv(vms, g, s, steps, t);
    var p :| p in t.providers && !t.providers[p].merged;
    st := ProviderProgress(t, p);
  }

  /** Every run is finite, and the complete runs are exactly those of the full length. */
  lemma Termination(vms: seq<Vm>, g: Groups, s: State, steps: seq<Step>, t: State)
    requires IsGrouping(g, vms) && Initial(s, vms, g) && IsRun(s, steps, t)
    ensures |steps| <= StepsLeft(s)
    ensures |steps| == StepsLeft(s) <==> Final(t)
  {
    ReachableInv(vms, g, s, steps, t);
    if Final(t) {
      NothingLeft(t);
    } else {
      var st := Progress(vms, g, s, steps, t);
      StepCounts(t, st);
    }
  }

  lemma NothingLeft(t: State)
    requires Inv(t) && Final(t)
    ensures StepsLeft(t) == 0
  {
    AllFinished(t);
    assert TasksBefore(t, {Waiting}) == TasksBefore(t, {Waiting, Running}) == TasksBefore(t, {Waiting, Running, Returned}) == {};
    assert RegionsBefore(t, {Queued}) == RegionsBefore(t, {Queued, Active}) == RegionsBefore(t, {Queued, Active, Merged}) == {};
    assert ProvidersBefore(t) == {};
  }

  lemma AllFinished(t: State)
    requires Inv(t) && Final(t)
    ensures forall k :: k in t.regions ==> t.regions[k].phase == Released
    ensures forall i :: 0 <= i < |t.tasks| ==> t.tasks[i].phase == Done
  {
    forall i | 0 <= i < |t.tasks| ensures t.tasks[i].phase == Done {
      assert HasMerged(t, KeyOf(t.tasks[i].vm));
    }
  }

  // ---------- the outcome ----------

  function Indices(n: nat): (r: set<nat>)
    ensures forall i :: i in r <==> 0 <= i < n
    ensures |r| == n
  {
    if n == 0 then {} else Indices(n - 1) + {n - 1}
  }

  lemma {:induction false} ListsCount(xs: seq<nat>, s: set<nat>)
    requires Lists(xs, s)
    ensures |xs| == |s|
  {
    if xs == [] {
      assert s == {};
    } else {
      var x := xs[|xs| - 1];
      forall y | y in s - {x} ensures y in xs[..|xs| - 1] {
        assert y in xs;
      }
      ListsCount(xs[..|xs| - 1], s - {x});
    }
  }

  lemma FinalLedgers(t: State)
    requires Inv(t) && Final(t)
    ensures Lists(t.calls, Indices(|t.tasks|)) && Lists(t.errors, Failed(t)) && Failed(t) <= Indices(|t.tasks|)
  {
    AllFinished(t);
    assert Called(t) == Indices(|t.tasks|);
    assert FailedAndReported(t) == Failed(t);
  }

  lemma ResultMeaning(t: State)
    requires Lists(t.errors, Failed(t))
    ensures Result(t).Some? <==> |t.tasks| > 0 && Failed(t) == Indices(|t.tasks|)
    ensures Result(t).Some? ==> Result(t).value in Failed(t)
  {
    ListsCount(t.errors, Failed(t));
    SubsetCardinality(Failed(t), Indices(|t.tasks|));
    assert |t.errors| > 0 ==> t.errors[0] in t.errors;
  }

  /** A complete run issues the VM operation exactly once for every VM of the list, collects
      exactly the failures, and returns an error if and only if the list is non-empty and all
      of it failed. */
  lemma Outcome(vms: seq<Vm>, g: Groups, s: State, steps: seq<Step>, t: State)
    requires IsGrouping(g, vms) && Initial(s, vms, g) && IsRun(s, steps, t) && Final(t)
    ensures Lists(t.calls, Indices(|vms|))
    ensures Lists(t.errors, Failed(t))
    ensures Result(t).Some? <==> vms != [] && Failed(t) == Indices(|vms|)
    ensures Result(t).Some? ==> Result(t).value in Failed(t)
  {
    ReachableInv(vms, g, s, steps, t);
    FinalLedgers(t);
    ResultMeaning(t);
  }
}
