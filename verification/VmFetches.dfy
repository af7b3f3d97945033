/** What one fetch and one control call make of a record, in terms of what the provider says. */
module VmFetches {
  import opened VmLifecycle
  import opened VmRuns

  // ---------- what is believed ----------

  /** A status is believed if and only if it is heard, and is one a provider can report; the second answer is heard
      only if the first was blank. */
  lemma PolledIff(a: Answers, s: Status)
    ensures Polled(a) == s && s != Undefined <==>
            (a.first == Native(s) || (a.first == Blank && a.second == Native(s))) && s !in {Failed, Undefined, NoTarget, Other}
  {
  }

  // ---------- a fetch of an open action ----------

  /** Open and not at its end: the VM exists, is not terminated and did not fail to be created. */
  ghost predicate IsOpen(vm: Vm) {
    && Paired(vm) && vm.action != NoAction && vm.resource != Absent && vm.status != Terminated
    && !(vm.action == Create && vm.status == Failed)
  }

  /** While the provider lags behind, the record is in transit; at the target it is closed with the current address, or
      left as it was if there is none; a termination is over with the report or with silence; and any other report
      is stored as it is, with the action open. */
  lemma OpenActionFetched(vm: Vm, a: Answers, ip: IpAnswer)
    requires IsOpen(vm)
    ensures var r, heard := FetchRecord(vm, a, ip), Polled(a);
            if LagsBehind(vm.action, heard) then r == vm.(status := TransitionOf(vm.action))
            else if vm.action == Terminate && heard in {Undefined, Terminated} then r == vm.(status := Terminated)
            else if heard == vm.target then
              r == if ip.IpError? then vm
                   else Vm(vm.resource, heard, NoAction, NoTarget, ip.endpoint)
            else r == vm.(status := heard)
  {
  }

  /** A record without an action takes the provider's word, unless it is terminated, failed or suspended. */
  lemma CompletedFetched(vm: Vm, a: Answers, ip: IpAnswer)
    requires Paired(vm) && vm.action == NoAction && vm.resource != Absent
    ensures FetchRecord(vm, a, ip) == if vm.status in {Terminated, Failed, Suspended} then vm else vm.(status := Polled(a))
  {
  }

  /** A VM that does not exist, one that is terminated, and a failed creation stay as they are. */
  lemma OverFetched(vm: Vm, a: Answers, ip: IpAnswer)
    requires Paired(vm) && (vm.resource == Absent || vm.status == Terminated || (vm.action == Create && vm.status == Failed))
    ensures FetchRecord(vm, a, ip) == vm
  {
  }

  /** The reply is what is then on record, except that a creation that has not reached the provider is reported as
      creating; it is an error if and only if the target is reached and the address cannot be read. */
  lemma ReplyIsRecord(vm: Vm, a: Answers, ip: IpAnswer)
    requires Paired(vm)
    ensures var r := FetchRecord(vm, a, ip);
            FetchReply(vm, a, ip) ==
            if IsOpen(vm) && vm.action != Terminate && Polled(a) == vm.target && ip.IpError? then FetchError
            else if vm.resource == Absent && vm.action == Create && vm.status !in {Failed, Terminated} then
              Reply(Creating, Create, Running)
            else Reply(r.status, r.action, r.target)
  {
  }

  // ---------- a control call ----------

  /** What each action leads to, and what it is on the way. */
  lemma ControlOpens(vm: Vm)
    ensures Opened(vm, Terminate) == vm.(status := Terminating, action := Terminate, target := Terminated)
    ensures Opened(vm, Suspend) == vm.(status := Suspending, action := Suspend, target := Suspended)
    ensures Opened(vm, Resume) == vm.(status := Resuming, action := Resume, target := Running)
    ensures Opened(vm, Reboot) == vm.(status := Rebooting, action := Reboot, target := Running)
    ensures Opened(vm, Create) == vm.(status := Creating, action := Create, target := Running)
  {
  }

  /** Which control calls go through to the provider: those for a named VM that is not terminated, unless it is where
      the action leads; a running VM can be rebooted. */
  lemma OpensIff(vm: Vm, action: Action)
    ensures Opens(vm, action) <==>
            && vm.resource == Named && vm.status != Terminated
            && (|| action == Terminate || action == Reboot || (action == Suspend && vm.status != Suspended)
                || (action == Resume && vm.status != Running))
  {
  }

  /** A call that goes through holds on to the copy it wrote, or meant to write, until it closes or drops it. */
  lemma CallHolds(s: Sys, id: string, action: Action, ok: bool)
    requires Enabled(s, Open(id, action, ok))
    ensures var t := Next(s, Open(id, action, ok));
            && t.controls == s.controls + [Control(id, Opened(s.records[id], action))] && t.creations == s.creations
            && t.records == if ok then s.records[id := Opened(s.records[id], action)] else s.records
    ensures forall j :: 0 <= j < |s.controls| ==>
              Next(s, Drop(j)) == s.(controls := s.controls[..j] + s.controls[j + 1..])
  {
  }

  /** Only a suspension, resumption or reboot ends with a write of its copy, and only once. */
  lemma ClosesOnce(s: Sys, st: Step)
    requires Inv(s) && Enabled(s, st) && st.Close?
    ensures s.controls[st.j].copy.action in {Suspend, Resume, Reboot}
    ensures Next(s, st).controls == s.controls[..st.j] + s.controls[st.j + 1..]
  {
    assert InTransit(s.controls[st.j]);
  }

  /** The store after a control call: unchanged if the call does not go through; in transit if the provider's call
      fails; then as fetched; and for all but a termination last the copy, if the address is another one now. */
  lemma CallIs(rs: Records, id: string, action: Action, e: Environment)
    requires id in rs && e.openPut && e.fetchPut && e.closePut
    ensures var t := ControlStore(rs, id, action, e);
            t.Keys == rs.Keys && (forall other :: other in rs && other != id ==> t[other] == rs[other])
    ensures !Opens(rs[id], action) ==> ControlStore(rs, id, action, e) == rs
    ensures Opens(rs[id], action) ==>
              var copy, last := Opened(rs[id], action), ControlStore(rs, id, action, e)[id];
              && (!e.httpOk ==> last == copy)
              && (e.httpOk && (action == Terminate || e.closeIp.IpError?) ==> last == FetchRecord(copy, e.answers, e.fetchIp))
              && (e.httpOk && action != Terminate && e.closeIp.Current? ==>
                    last == if e.closeIp.endpoint == copy.endpoint then FetchRecord(copy, e.answers, e.fetchIp)
                            else copy.(endpoint := e.closeIp.endpoint))
  {
  }

  // ---------- a creation ----------

  lemma RunOf(s: Sys, st: Step, steps: seq<Step>, t: Sys)
    requires Enabled(s, st) && IsRun(Next(s, st), steps, t)
    ensures IsRun(s, [st] + steps, t)
  {
    assert ([st] + steps)[1..] == steps;
  }

  /** The steps of a creation that goes well: registered, spawned, its status fetched, its record stored. */
  function Creates(id: string, endpoint: Endpoint, a: Answers, ip: IpAnswer): seq<Step> {
    [Register(id)] + [Advance(0, Spawns(endpoint, true))] + [Advance(0, Fetches(a, ip, true))] + [Advance(0, Stores(true))]
  }

  /** The store once the VM is spawned. */
  function Spawning(id: string, endpoint: Endpoint): Sys {
    var vm := Vm(Named, Creating, Create, Running, endpoint);
    Sys(map[id := vm], [], [Creation(id, vm, Spawned)])
  }

  lemma SpawnedSoon(id: string, endpoint: Endpoint)
    ensures var m := Next(NO_RECORDS, Register(id));
            Enabled(m, Advance(0, Spawns(endpoint, true)))
            && Next(m, Advance(0, Spawns(endpoint, true))) == Spawning(id, endpoint)
  {
    var m := Next(NO_RECORDS, Register(id));
    assert m.creations == [Creation(id, NEW_VM, Requesting)];
  }

  lemma StoredSoon(id: string, endpoint: Endpoint, a: Answers, ip: IpAnswer) returns (m: Sys, t: Sys)
    ensures m == Next(Spawning(id, endpoint), Advance(0, Fetches(a, ip, true))) && Enabled(m, Advance(0, Stores(true)))
    ensures t == Next(m, Advance(0, Stores(true))) && t.records.Keys == {id}
    ensures t.records[id] == Vm(Named, if Polled(a) == Running && ip.IpError? then Failed
                                       else if Polled(a) == Undefined then Creating else Polled(a),
                                NoAction, NoTarget, endpoint)
  {
    m := Next(Spawning(id, endpoint), Advance(0, Fetches(a, ip, true)));
    t := Next(m, Advance(0, Stores(true)));
  }

  /** Its record is complete with the status that was heard, or creating if nothing was; it is failed only if the VM runs
      and its address cannot be read. */
  lemma CreationEnds(id: string, endpoint: Endpoint, a: Answers, ip: IpAnswer) returns (t: Sys)
    ensures IsRun(NO_RECORDS, Creates(id, endpoint, a, ip), t) && t.records.Keys == {id}
    ensures t.records[id] == Vm(Named, if Polled(a) == Running && ip.IpError? then Failed
                                       else if Polled(a) == Undefined then Creating else Polled(a),
                                NoAction, NoTarget, endpoint)
  {
    var spawns, fetches, stores := Advance(0, Spawns(endpoint, true)), Advance(0, Fetches(a, ip, true)), Advance(0, Stores(true));
    SpawnedSoon(id, endpoint);
    var m, end := StoredSoon(id, endpoint, a, ip);
    t := end;
    RunOf(m, stores, [], t);
    RunOf(Spawning(id, endpoint), fetches, [stores], t);
    RunOf(Next(NO_RECORDS, Register(id)), spawns, [fetches] + [stores], t);
    RunOf(NO_RECORDS, Register(id), [spawns] + ([fetches] + [stores]), t);
    assert Creates(id, endpoint, a, ip) == [Register(id)] + ([spawns] + ([fetches] + [stores]));
  }

  /** Once the record is stored, only the labels can still fail; then the record is failed after all. */
  lemma LabelsFail(s: Sys, j: nat, ok: bool)
    requires j < |s.creations| && s.creations[j].stage == Fetched(false) && s.creations[j].id in s.records
    ensures Enabled(s, Advance(j, Stores(ok)))
    ensures var m := Next(s, Advance(j, Stores(ok)));
            && m.creations == s.creations[j := s.creations[j].(stage := Stored)]
            && Enabled(m, Advance(j, LabelFails(true)))
            && Next(m, Advance(j, LabelFails(true))).records[s.creations[j].id] == s.creations[j].copy.(status := Failed)
            && Next(m, Advance(j, LabelFails(true))).creations == s.creations[..j] + s.creations[j + 1..]
  {
    assert s.creations[j := s.creations[j].(stage := Stored)][..j] == s.creations[..j];
    assert s.creations[j := s.creations[j].(stage := Stored)][j + 1..] == s.creations[j + 1..];
  }

  /** A creation that could not fetch the status stores its failed record and is over. */
  lemma FetchFailed(s: Sys, j: nat)
    requires j < |s.creations| && s.creations[j].stage == Fetched(true) && s.creations[j].id in s.records
    ensures Enabled(s, Advance(j, Stores(true)))
    ensures Next(s, Advance(j, Stores(true))).creations == s.creations[..j] + s.creations[j + 1..]
    ensures Next(s, Advance(j, Stores(true))).records[s.creations[j].id] == s.creations[j].copy
  {
  }

  /** A creation that fails at the provider, and one whose labels cannot be stored, write a failed record. */
  lemma CreationFails(copy: Vm, ok: bool)
    ensures Written(copy, Fails(ok)) == Written(copy, LabelFails(ok)) == copy.(status := Failed)
  {
  }

  /** What a creation can do next, at each of its stages; it can end at any. */
  lemma CreationWaysOn(c: Creation, m: Progress)
    ensures CanAdvance(c, m) <==>
            || m.Ends?
            || match c.stage
               case Requesting => m.Fails? || m.Spawns?
               case Spawned => m.Fetches?
               case Fetched(_) => m.Stores?
               case Stored => m.LabelFails?
  {
  }
}
