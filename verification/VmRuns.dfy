/** Runs of the VM record store: creations, fetches and control calls of any
    number of callers, interleaved between their writes. */
module VmRuns {
  import opened VmLifecycle

  /** A control call between its first write and its last, with the copy of the record it still holds. */
  datatype Control = Control(id: string, copy: Vm)

  /** A creation between its writes: before the provider has answered; with the VM spawned; with its status fetched,
      or not; with its record complete and only the labels to come. It always writes its own copy. */
  datatype Stage = Requesting | Spawned | Fetched(failed: bool) | Stored

  datatype Creation = Creation(id: string, copy: Vm, stage: Stage)

  datatype Sys = Sys(records: Records, controls: seq<Control>, creations: seq<Creation>)

  /** What a creation does next. */
  datatype Progress =
    | Fails(ok: bool)
    | Spawns(endpoint: Endpoint, ok: bool)
    | Fetches(a: Answers, ip: IpAnswer, ok: bool)
    | Stores(ok: bool)
    | LabelFails(ok: bool)
    | Ends

  datatype Step =
    | Register(id: string)
    | Advance(j: nat, m: Progress)
    | Fetch(id: string, a: Answers, ip: IpAnswer, ok: bool)
    | Open(id: string, action: Action, ok: bool)
    | Close(j: nat, ip: IpAnswer, ok: bool)
    | Drop(j: nat)
    | Delete(id: string)

  const NEW_VM := Vm(Absent, Creating, Create, Running, Endpoint("", ""))
  const NO_RECORDS := Sys(map[], [], [])

  predicate CanAdvance(c: Creation, m: Progress) {
    match m
    case Fails(_) => c.stage == Requesting
    case Spawns(_, _) => c.stage == Requesting
    case Fetches(_, _, _) => c.stage == Spawned
    case Stores(_) => c.stage.Fetched?
    case LabelFails(_) => c.stage == Stored
    case Ends => true
  }

  predicate Enabled(s: Sys, st: Step) {
    match st
    case Register(id) => id !in s.records
    case Advance(j, m) => j < |s.creations| && CanAdvance(s.creations[j], m)
    case Fetch(id, _, _, _) => true
    case Open(id, action, _) => id in s.records && Opens(s.records[id], action)
    case Close(j, _, _) => j < |s.controls| && s.controls[j].copy.action != Terminate
    case Drop(j) => j < |s.controls|
    case Delete(id) => id in s.records
  }

  predicate FetchFails(rs: Records, id: string, a: Answers, ip: IpAnswer) {
    id !in rs || FetchReply(rs[id], a, ip).FetchError?
  }

  /** The copy of a creation after it has fetched the status: complete, with what it heard. */
  function Completed(copy: Vm, rs: Records, id: string, a: Answers, ip: IpAnswer): Vm {
    copy.(action := NoAction, target := NoTarget,
          status := if FetchFails(rs, id, a, ip) then Failed else FetchReply(rs[id], a, ip).status)
  }

  /** What a creation writes, if it writes. */
  function Written(copy: Vm, m: Progress): Vm {
    match m
    case Fails(_) => copy.(status := Failed)
    case Spawns(endpoint, _) => copy.(resource := Named, endpoint := endpoint)
    case LabelFails(_) => copy.(status := Failed)
    case _ => copy
  }

  predicate Writes(m: Progress) {
    (m.Fails? || m.Spawns? || m.Stores? || m.LabelFails?) && m.ok
  }

  function Without<T>(s: seq<T>, j: nat): seq<T>
    requires j < |s|
  {
    s[..j] + s[j + 1..]
  }

  /** The creations after one of them has taken a step. */
  function CreationsAfter(s: Sys, j: nat, m: Progress): seq<Creation>
    requires j < |s.creations|
  {
    var c := s.creations[j];
    match m
    case Spawns(_, _) => s.creations[j := Creation(c.id, Written(c.copy, m), Spawned)]
    case Fetches(a, ip, _) =>
      s.creations[j := Creation(c.id, Completed(c.copy, s.records, c.id, a, ip), Fetched(FetchFails(s.records, c.id, a, ip)))]
    case Stores(_) => if c.stage == Fetched(true) then Without(s.creations, j) else s.creations[j := c.(stage := Stored)]
    case _ => Without(s.creations, j)
  }

  function RecordsAfter(rs: Records, c: Creation, m: Progress): Records {
    match m
    case Fetches(a, ip, ok) => FetchStore(rs, c.id, a, ip, ok)
    case _ => Put(rs, c.id, Written(c.copy, m), Writes(m))
  }

  function Next(s: Sys, st: Step): Sys
    requires Enabled(s, st)
  {
    match st
    case Register(id) => s.(records := s.records[id := NEW_VM], creations := s.creations + [Creation(id, NEW_VM, Requesting)])
    case Advance(j, m) => s.(records := RecordsAfter(s.records, s.creations[j], m), creations := CreationsAfter(s, j, m))
    case Fetch(id, a, ip, ok) => s.(records := FetchStore(s.records, id, a, ip, ok))
    case Open(id, action, ok) =>
      var copy := Opened(s.records[id], action);
      s.(records := Put(s.records, id, copy, ok), controls := s.controls + [Control(id, copy)])
    case Close(j, ip, ok) =>
      s.(records := CloseStore(s.records, s.controls[j].id, s.controls[j].copy, ip, ok), controls := Without(s.controls, j))
    case Drop(j) => s.(controls := Without(s.controls, j))
    case Delete(id) => s.(records := s.records - {id})
  }

  // ---------- the invariant: target pairing ----------

  ghost predicate Paired(vm: Vm) {
    vm.action != UnknownAction && vm.target == TargetOf(vm.action)
  }

  ghost predicate InTransit(c: Control) {
    Paired(c.copy) && IsControl(c.copy.action) && c.copy.status == TransitionOf(c.copy.action)
  }

  /** A creation carries the action Create until it has fetched the status, and none after. */
  ghost predicate InCreation(c: Creation) {
    && Paired(c.copy)
    && (if c.stage == Requesting || c.stage == Spawned then c.copy.action == Create && c.copy.status == Creating
        else c.copy.action == NoAction)
  }

  ghost predicate AllPaired(rs: Records) {
    forall id :: id in rs ==> Paired(rs[id])
  }

  ghost predicate Inv(s: Sys) {
    && AllPaired(s.records)
    && (forall j :: 0 <= j < |s.controls| ==> InTransit(s.controls[j]))
    && (forall j :: 0 <= j < |s.creations| ==> InCreation(s.creations[j]))
  }

  lemma FetchPairs(vm: Vm, a: Answers, ip: IpAnswer)
    requires Paired(vm)
    ensures Paired(FetchRecord(vm, a, ip))
  {
  }

  lemma FetchStorePairs(rs: Records, id: string, a: Answers, ip: IpAnswer, ok: bool)
    requires AllPaired(rs)
    ensures AllPaired(FetchStore(rs, id, a, ip, ok))
  {
    if id in rs { FetchPairs(rs[id], a, ip); }
  }

  lemma WrittenPaired(c: Creation, m: Progress)
    requires InCreation(c) && CanAdvance(c, m)
    ensures Paired(Written(c.copy, m)) && (m.Spawns? ==> InCreation(Creation(c.id, Written(c.copy, m), Spawned)))
  {
  }

  lemma CompletedPaired(c: Creation, rs: Records, a: Answers, ip: IpAnswer)
    requires InCreation(c)
    ensures InCreation(Creation(c.id, Completed(c.copy, rs, c.id, a, ip), Fetched(FetchFails(rs, c.id, a, ip))))
  {
  }

  lemma RecordsKeep(rs: Records, c: Creation, m: Progress)
    requires AllPaired(rs) && InCreation(c) && CanAdvance(c, m)
    ensures AllPaired(RecordsAfter(rs, c, m))
  {
    if m.Fetches? { FetchStorePairs(rs, c.id, m.a, m.ip, m.ok); } else { WrittenPaired(c, m); }
  }

  lemma CreationKeeps(s: Sys, st: Step)
    requires Inv(s) && Enabled(s, st) && st.Advance?
    ensures Inv(Next(s, st))
  {
    var c := s.creations[st.j];
    RecordsKeep(s.records, c, st.m);
    WrittenPaired(c, st.m);
    if st.m.Fetches? { CompletedPaired(c, s.records, st.m.a, st.m.ip); }
  }

  lemma CallKeeps(s: Sys, st: Step)
    requires Inv(s) && Enabled(s, st) && !st.Advance?
    ensures Inv(Next(s, st))
  {
    if st.Fetch? { FetchStorePairs(s.records, st.id, st.a, st.ip, st.ok); }
  }

  /** Every write leaves a record whose action carries its own target. */
  lemma StepKeeps(s: Sys, st: Step)
    requires Inv(s) && Enabled(s, st)
    ensures Inv(Next(s, st))
  {
    if st.Advance? { CreationKeeps(s, st); } else { CallKeeps(s, st); }
  }

  ghost predicate IsRun(s: Sys, steps: seq<Step>, t: Sys)
    decreases |steps|
  {
    if steps == [] then t == s
    else Enabled(s, steps[0]) && IsRun(Next(s, steps[0]), steps[1..], t)
  }

  lemma {:induction false} RunKeeps(s: Sys, steps: seq<Step>, t: Sys)
    requires Inv(s) && IsRun(s, steps, t)
    ensures Inv(t)
    decreases |steps|
  {
    if steps != [] {
      StepKeeps(s, steps[0]);
      RunKeeps(Next(s, steps[0]), steps[1..], t);
    }
  }

  /** The copy of the record that a control call or a creation still under way may write back. */
  ghost predicate IsCopy(s: Sys, vm: Vm) {
    || (exists j :: 0 <= j < |s.controls| && s.controls[j].copy == vm)
    || (exists j :: 0 <= j < |s.creations| && s.creations[j].copy == vm)
  }

  /** From the empty store, every reachable record, and every copy under way, pairs its action with that action's own
      target. */
  lemma TargetPairing(steps: seq<Step>, t: Sys, vm: Vm)
    requires IsRun(NO_RECORDS, steps, t) && ((exists id :: id in t.records && t.records[id] == vm) || IsCopy(t, vm))
    ensures vm.action != UnknownAction && vm.target == TargetOf(vm.action)
  {
    RunKeeps(NO_RECORDS, steps, t);
    if j :| 0 <= j < |t.controls| && t.controls[j].copy == vm {
      assert InTransit(t.controls[j]);
    } else if j :| 0 <= j < |t.creations| && t.creations[j].copy == vm {
      assert InCreation(t.creations[j]);
    }
    assert Paired(vm);
  }

  // ---------- terminated records ----------

  predicate IsTerminated(s: Sys, id: string) {
    id in s.records && s.records[id].status == Terminated
  }

  /** The last write of a control call whose address has changed meanwhile. */
  predicate StaleClose(s: Sys, st: Step, id: string) {
    && st.Close? && st.ok && st.j < |s.controls| && s.controls[st.j].id == id && id in s.records
    && s.records[id].resource != Absent && st.ip.Current? && st.ip.endpoint != s.controls[st.j].copy.endpoint
  }

  /** A creation of this VM writes its own copy. */
  predicate CreationWrites(s: Sys, st: Step, id: string) {
    st.Advance? && Writes(st.m) && st.j < |s.creations| && s.creations[st.j].id == id && id in s.records
  }

  predicate StaleWrite(s: Sys, st: Step, id: string) {
    StaleClose(s, st, id) || (CreationWrites(s, st, id) && Written(s.creations[st.j].copy, st.m).status != Terminated)
  }

  lemma TerminatedIfCreation(s: Sys, st: Step, id: string)
    requires Inv(s) && Enabled(s, st) && IsTerminated(s, id) && st.Advance?
    ensures id in Next(s, st).records && (!IsTerminated(Next(s, st), id) <==> StaleWrite(s, st, id))
  {
  }

  lemma TerminatedIfCall(s: Sys, st: Step, id: string)
    requires Inv(s) && Enabled(s, st) && IsTerminated(s, id) && !st.Advance?
    ensures id in Next(s, st).records && !IsTerminated(Next(s, st), id) <==> StaleWrite(s, st, id)
  {
    if st.Close? {
      assert InTransit(s.controls[st.j]);
    }
  }

  /** In one step a terminated record stays terminated or is deleted, unless a control call ends by writing back its
      stale copy, or a creation of the VM still under way writes its own; and then it always does lose the status. */
  lemma TerminatedUnlessStale(s: Sys, st: Step, id: string)
    requires Inv(s) && Enabled(s, st) && IsTerminated(s, id)
    ensures id in Next(s, st).records && !IsTerminated(Next(s, st), id) <==> StaleWrite(s, st, id)
  {
    if st.Advance? { TerminatedIfCreation(s, st, id); } else { TerminatedIfCall(s, st, id); }
  }

  ghost predicate RunWithoutStaleWrite(s: Sys, steps: seq<Step>, t: Sys, id: string)
    decreases |steps|
  {
    if steps == [] then t == s
    else Enabled(s, steps[0]) && !StaleWrite(s, steps[0], id) && steps[0] != Delete(id)
         && RunWithoutStaleWrite(Next(s, steps[0]), steps[1..], t, id)
  }

  /** Terminated is absorbing over every run without such writes, whatever the provider answers and whoever else
      calls. */
  lemma {:induction false} TerminatedIsAbsorbing(s: Sys, steps: seq<Step>, t: Sys, id: string)
    requires Inv(s) && IsTerminated(s, id) && RunWithoutStaleWrite(s, steps, t, id)
    ensures IsTerminated(t, id)
    decreases |steps|
  {
    if steps != [] {
      TerminatedUnlessStale(s, steps[0], id);
      DeletedOnlyByDelete(s, steps[0], id);
      StepKeeps(s, steps[0]);
      TerminatedIsAbsorbing(Next(s, steps[0]), steps[1..], t, id);
    }
  }

  lemma DeletedOnlyByDelete(s: Sys, st: Step, id: string)
    requires Enabled(s, st) && id in s.records
    ensures id in Next(s, st).records <==> st != Delete(id)
  {
  }

  /** A single call is enough for the overwrite: the provider reports a suspended VM as
      terminated, and by the time the call looks for its address that has changed. */
  lemma TerminatedOverwritten()
    ensures var vm := Vm(Named, Running, NoAction, NoTarget, Endpoint("10.0.0.1", "22"));
            var heard := Answers(Native(Terminated), Blank);
            var e := Environment(true, true, heard, IpError, true, Current(Endpoint("", "")), true);
            var rs := map["vm-1" := vm];
            var afterOpen := Put(rs, "vm-1", Opened(vm, Suspend), true);
            && FetchStore(afterOpen, "vm-1", heard, IpError, true)["vm-1"].status == Terminated
            && ControlStore(rs, "vm-1", Suspend, e)["vm-1"].status == Suspending
  {
  }

  // ---------- completed records ----------

  predicate IsCompleted(s: Sys, id: string) {
    id in s.records && s.records[id].action == NoAction
  }

  /** A step that puts an action into the record: a new control call, one that ends by writing back its stale copy, or
      a creation that has not fetched the status yet. */
  predicate Reopens(s: Sys, st: Step, id: string) {
    || (st.Open? && st.id == id && st.ok)
    || StaleClose(s, st, id)
    || (CreationWrites(s, st, id) && (st.m.Fails? || st.m.Spawns?))
  }

  lemma CompletedIfCreation(s: Sys, st: Step, id: string)
    requires Inv(s) && Enabled(s, st) && IsCompleted(s, id) && st.Advance?
    ensures id in Next(s, st).records && (!IsCompleted(Next(s, st), id) <==> Reopens(s, st, id))
  {
    assert InCreation(s.creations[st.j]);
  }

  lemma CompletedIfCall(s: Sys, st: Step, id: string)
    requires Inv(s) && Enabled(s, st) && IsCompleted(s, id) && !st.Advance?
    ensures id in Next(s, st).records && !IsCompleted(Next(s, st), id) <==> Reopens(s, st, id)
  {
    assert Paired(s.records[id]);
    if st.Close? { assert InTransit(s.controls[st.j]); }
  }

  /** In one step a completed record stays completed or is deleted, unless the step is one of these; and then it
      always is open again. No fetch reopens it. */
  lemma CompletedUnlessReopened(s: Sys, st: Step, id: string)
    requires Inv(s) && Enabled(s, st) && IsCompleted(s, id)
    ensures id in Next(s, st).records && !IsCompleted(Next(s, st), id) <==> Reopens(s, st, id)
  {
    if st.Advance? { CompletedIfCreation(s, st, id); } else { CompletedIfCall(s, st, id); }
  }

  // ---------- completion ----------

  /** A fetch closes an open action other than a termination exactly when the provider reports the action's own target,
      the address can be read, and the VM exists, is not terminated and did not fail to be created. */
  lemma ClosesIffTargetReached(vm: Vm, a: Answers, ip: IpAnswer)
    requires Paired(vm) && vm.action !in {NoAction, Terminate}
    ensures FetchRecord(vm, a, ip).action == NoAction <==>
            && vm.resource != Absent && ip.Current? && vm.status != Terminated
            && !(vm.action == Create && vm.status == Failed) && Polled(a) == TargetOf(vm.action)
    ensures FetchRecord(vm, a, ip).action != NoAction ==> FetchRecord(vm, a, ip).action == vm.action
  {
  }

  /** A termination is never closed: the record keeps asking for Terminated until it gets there. */
  lemma TerminationStaysOpen(vm: Vm, a: Answers, ip: IpAnswer)
    requires Paired(vm) && vm.action == Terminate
    ensures FetchRecord(vm, a, ip).action == Terminate
    ensures vm.resource != Absent && Polled(a) == Undefined ==> FetchRecord(vm, a, ip).status == Terminated
  {
  }

  ghost predicate OnlyFetches(s: Sys, steps: seq<Step>, t: Sys)
    decreases |steps|
  {
    if steps == [] then t == s
    else steps[0].Fetch? && OnlyFetches(Next(s, steps[0]), steps[1..], t)
  }

  /** A failed creation stays failed under any number of fetches with any answers. */
  lemma {:induction false} FailedCreateStaysFailed(s: Sys, steps: seq<Step>, t: Sys, id: string)
    requires id in s.records && s.records[id].status == Failed && s.records[id].action in {Create, NoAction}
    requires Paired(s.records[id]) && OnlyFetches(s, steps, t)
    ensures id in t.records && t.records[id] == s.records[id]
    decreases |steps|
  {
    if steps != [] {
      FailedCreateStaysFailed(Next(s, steps[0]), steps[1..], t, id);
    }
  }

  // ---------- a provider that lags behind ----------

  /** What a provider may report before it has got to the action, silence included; a reboot goes through several. */
  predicate LagsBehind(action: Action, polled: Status) {
    match action
    case Suspend => polled in {Undefined, Running, Resuming, Suspending}
    case Resume => polled in {Undefined, Suspended, Creating, Resuming}
    case Reboot => polled in {Undefined, Suspending, Suspended, Creating, Resuming, Rebooting}
    case Create => polled in {Undefined, Creating}
    case Terminate => polled in {Suspending, Terminating}
    case _ => false
  }

  /** Fetches only, and those of `id` with late answers. */
  ghost predicate OnlyLateFetches(s: Sys, steps: seq<Step>, t: Sys, id: string, action: Action)
    decreases |steps|
  {
    if steps == [] then t == s
    else steps[0].Fetch? && (steps[0].id == id ==> LagsBehind(action, Polled(steps[0].a)))
         && OnlyLateFetches(Next(s, steps[0]), steps[1..], t, id, action)
  }

  /** Until the provider has got to it, an action stays as the control call or the creation left it, in transit, under
      any number of fetches. */
  lemma {:induction false} TransitIsKept(s: Sys, steps: seq<Step>, t: Sys, id: string, vm: Vm, action: Action)
    requires id in s.records && s.records[id] == Opened(vm, action)
    requires OnlyLateFetches(s, steps, t, id, action)
    ensures id in t.records && t.records[id] == s.records[id]
    decreases |steps|
  {
    if steps != [] {
      TransitIsKept(Next(s, steps[0]), steps[1..], t, id, vm, action);
    }
  }

  /** An open termination is stored as terminated by a fetch if and only if the write succeeds and the provider
      reports it so, or nothing. */
  lemma TerminatesIff(s: Sys, st: Step)
    requires Inv(s) && st.Fetch? && st.id in s.records
    requires var vm := s.records[st.id]; vm.action == Terminate && vm.status != Terminated && vm.resource != Absent
    ensures IsTerminated(Next(s, st), st.id) <==> st.ok && Polled(st.a) in {Undefined, Terminated}
  {
    assert Paired(s.records[st.id]);
  }
}
