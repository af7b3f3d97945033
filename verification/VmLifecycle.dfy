/** The stored VM record and the calls that rewrite it: `FetchVmStatus`,
    `UpdateVmInfo` and `UpdateVmPublicIp` of src/core/infra/manageInfo.go,
    `ControlVmAsync` of src/core/infra/control.go, and the record writes of
    `CreateVm` in src/core/infra/provisioning.go. Answers of the cloud provider
    and failed writes are parameters. */
module VmLifecycle {
  /** `NoTarget` is the target "None" of a completed action; `Other` any string
      that is not a status of the system. */
  datatype Status =
    | Creating | Running | Suspending | Suspended | Resuming | Rebooting | Terminating | Terminated
    | Failed | Undefined | NoTarget | Other

  datatype Action = Create | Terminate | Suspend | Resume | Reboot | NoAction | UnknownAction

  /** The name of the VM at the provider: absent until it is created there. */
  datatype Resource = Absent | Malformed | Named

  datatype Endpoint = Endpoint(ip: string, port: string)

  datatype Vm = Vm(resource: Resource, status: Status, action: Action, target: Status, endpoint: Endpoint)

  // ---------- answers of the provider ----------

  datatype Answer = HttpError | Blank | Native(status: Status)

  /** The status request is repeated once if the first answer is blank. */
  datatype Answers = Answers(first: Answer, second: Answer)

  datatype IpAnswer = IpError | Current(endpoint: Endpoint)

  predicate IsNative(s: Status) {
    s in {Creating, Running, Suspending, Suspended, Resuming, Rebooting, Terminating, Terminated}
  }

  function Heard(a: Answers): Answer {
    if a.first.Blank? then a.second else a.first
  }

  /** What is believed of the answers: a native status, or Undefined. */
  function Polled(a: Answers): (s: Status)
    ensures IsNative(s) || s == Undefined
  {
    if Heard(a).Native? && IsNative(Heard(a).status) then Heard(a).status else Undefined
  }

  // ---------- fetching: what it means ----------

  /** The provider's word, corrected in the light of the action under way. */
  function Corrected(vm: Vm, polled: Status): Status {
    if vm.status == Terminated then Terminated
    else match vm.action
      case Create => if vm.status == Failed then Failed else if polled == Undefined then Creating else polled
      case Terminate => if polled == Undefined then Terminated else if polled == Suspending then Terminating else polled
      case Resume => if polled in {Undefined, Creating, Suspended} then Resuming else polled
      case Suspend => if polled in {Undefined, Running, Resuming} then Suspending else polled
      case Reboot => if polled in {Undefined, Suspending, Suspended, Creating, Resuming} then Rebooting else polled
      case _ => polled
  }

  /** Settled records are answered from the store. */
  predicate IsSettled(vm: Vm) {
    || (vm.status in {Terminated, Failed, Suspended} && vm.action == NoAction)
    || (vm.resource == Absent && vm.action != Create)
  }

  /** The status a fetch reads for the record. */
  function Read(vm: Vm, a: Answers): Status {
    Corrected(vm, if vm.status != Terminated && vm.resource != Absent then Polled(a) else Undefined)
  }

  /** The fetch finds a non-terminate action completed, and so asks for the current address. */
  predicate Completes(vm: Vm, a: Answers) {
    !IsSettled(vm) && Read(vm, a) == vm.target && vm.target != Terminated
  }

  function AddressOf(vm: Vm, ip: IpAnswer): IpAnswer {
    if vm.resource == Absent then IpError else ip
  }

  datatype Reply = FetchError | Reply(status: Status, action: Action, target: Status)

  function FetchReply(vm: Vm, a: Answers, ip: IpAnswer): Reply {
    if IsSettled(vm) then Reply(vm.status, vm.action, vm.target)
    else if Completes(vm, a) then
      if AddressOf(vm, ip).IpError? then FetchError else Reply(Read(vm, a), NoAction, NoTarget)
    else if Read(vm, a) == vm.target then Reply(Terminated, Terminate, Terminated)
    else Reply(Read(vm, a), vm.action, vm.target)
  }

  /** The record after a fetch whose write succeeds. */
  function FetchRecord(vm: Vm, a: Answers, ip: IpAnswer): Vm {
    if IsSettled(vm) || vm.resource == Absent || vm.status == Terminated then vm
    else match FetchReply(vm, a, ip)
      case FetchError => vm
      case Reply(status, action, target) =>
        vm.(status := status, action := action, target := target,
            endpoint := if Completes(vm, a) then ip.endpoint else vm.endpoint)
  }

  // ---------- controlling: what it means ----------

  function TargetOf(action: Action): Status {
    match action
    case Terminate => Terminated
    case Suspend => Suspended
    case Create => Running
    case Resume => Running
    case Reboot => Running
    case NoAction => NoTarget
    case UnknownAction => Other
  }

  function TransitionOf(action: Action): Status {
    match action
    case Terminate => Terminating
    case Suspend => Suspending
    case Resume => Resuming
    case Reboot => Rebooting
    case Create => Creating
    case _ => Other
  }

  predicate IsControl(action: Action) {
    action in {Terminate, Suspend, Resume, Reboot}
  }

  /** A control request reaches the provider: the record is not terminated, is properly
      named, and is not already where the action leads (a reboot goes ahead anyway). */
  predicate Opens(vm: Vm, action: Action) {
    && vm.status != Terminated && vm.resource == Named && IsControl(action)
    && (vm.status != TargetOf(action) || action == Reboot)
  }

  /** The record as the control request leaves it before calling the provider. */
  function Opened(vm: Vm, action: Action): Vm {
    vm.(status := TransitionOf(action), action := action, target := TargetOf(action))
  }

  // ---------- the store ----------

  type Records = map<string, Vm>

  /** `UpdateVmInfo`: only an existing key is rewritten, and the write may fail. */
  function Put(rs: Records, id: string, vm: Vm, ok: bool): Records {
    if ok && id in rs then rs[id := vm] else rs
  }

  function FetchStore(rs: Records, id: string, a: Answers, ip: IpAnswer, ok: bool): Records {
    if id in rs then Put(rs, id, FetchRecord(rs[id], a, ip), ok) else rs
  }

  /** `UpdateVmPublicIp`: rewrites the whole record from the copy it was given. */
  function CloseStore(rs: Records, id: string, copy: Vm, ip: IpAnswer, ok: bool): Records {
    if id !in rs || AddressOf(rs[id], ip).IpError? || ip.endpoint == copy.endpoint then rs
    else Put(rs, id, copy.(endpoint := ip.endpoint), ok)
  }

  /** What the provider and the store answer during one control call. */
  datatype Environment = Environment(openPut: bool, httpOk: bool, answers: Answers, fetchIp: IpAnswer, fetchPut: bool,
                                     closeIp: IpAnswer, closePut: bool)

  function ControlStore(rs: Records, id: string, action: Action, e: Environment): Records {
    if id !in rs || !Opens(rs[id], action) then rs
    else
      var copy := Opened(rs[id], action);
      var afterOpen := Put(rs, id, copy, e.openPut);
      if !e.httpOk then afterOpen
      else
        var afterFetch := FetchStore(afterOpen, id, e.answers, e.fetchIp, e.fetchPut);
        if action == Terminate then afterFetch else CloseStore(afterFetch, id, copy, e.closeIp, e.closePut)
  }

  class VmStore {
    var records: Records

    constructor ()
      ensures records == map[]
    {
      records := map[];
    }

    method UpdateVmInfo(id: string, vm: Vm, ok: bool)
      modifies this
      ensures records == Put(old(records), id, vm, ok)
    {
      if id !in records {
        return;
      }
      if records[id] != vm && ok {
        records := records[id := vm];
      }
    }

    /** The request loop of `FetchVmStatus`. */
    method Poll(a: Answers) returns (status: Status)
      ensures status == Polled(a)
    {
      status := Other;
      for attempt := 0 to 2
        invariant attempt >= 1 ==> a.first.Blank?
        invariant attempt == 2 ==> a.second.Blank?
      {
        var answer := if attempt == 0 then a.first else a.second;
        if answer.HttpError? {
          return Undefined;
        }
        if answer.Native? {
          return if IsNative(answer.status) then answer.status else Undefined;
        }
      }
      return Undefined;
    }

    /** The corrections in the light of the action under way, in their order. */
    method CorrectStatus(vm: Vm, polled: Status) returns (status: Status)
      requires IsNative(polled) || polled == Undefined
      ensures status == Corrected(vm, polled)
    {
      status := polled;
      if vm.action == Create {
        if status == Undefined { status := Creating; }
        if vm.status == Failed { status := Failed; }
      }
      if vm.action == Terminate {
        if status == Undefined { status := Terminated; }
        if status == Suspending { status := Terminating; }
      }
      if vm.action == Resume {
        if status == Undefined { status := Resuming; }
        if status == Creating { status := Resuming; }
        if status == Suspended { status := Resuming; }
      }
      if vm.action == Suspend {
        if status == Undefined { status := Suspending; }
        if status == Running { status := Suspending; }
        if status == Resuming { status := Suspending; }
      }
      if vm.action == Reboot {
        if status == Undefined { status := Rebooting; }
        if status == Suspending || status == Suspended || status == Creating || status == Resuming { status := Rebooting; }
      }
      if vm.status == Terminated {
        status := Terminated;
      }
    }

    method FetchVmStatus(id: string, a: Answers, ip: IpAnswer, ok: bool) returns (reply: Reply)
      modifies this
      ensures records == FetchStore(old(records), id, a, ip, ok)
      ensures reply == if id in old(records) then FetchReply(old(records)[id], a, ip) else FetchError
    {
      if id !in records {
        return FetchError;
      }
      var vm := records[id];
      var shouldSkip := vm.status in {Terminated, Failed, Suspended} && vm.action == NoAction;
      if vm.resource == Absent && vm.action != Create {
        shouldSkip := true;
      }
      if shouldSkip {
        return Reply(vm.status, vm.action, vm.target);
      }
      var status := Undefined;
      if vm.status != Terminated && vm.resource != Absent {
        status := Poll(a);
      }
      status := CorrectStatus(vm, status);
      reply := Reply(status, vm.action, vm.target);
      var endpoint := vm.endpoint;
      if reply.target == reply.status {
        if reply.target != Terminated {
          reply := Reply(status, NoAction, NoTarget);
          if AddressOf(vm, ip).IpError? {
            return FetchError;
          }
          endpoint := ip.endpoint;
        } else {
          reply := Reply(Terminated, Terminate, Terminated);
        }
      }
      if vm.status != Terminated && vm.resource != Absent {
        UpdateVmInfo(id, Vm(vm.resource, reply.status, reply.action, reply.target, endpoint), ok);
      }
    }

    method UpdateVmPublicIp(id: string, copy: Vm, ip: IpAnswer, ok: bool)
      modifies this
      ensures records == CloseStore(old(records), id, copy, ip, ok)
    {
      if id !in records || AddressOf(records[id], ip).IpError? {
        return;
      }
      if copy.endpoint != ip.endpoint {
        UpdateVmInfo(id, copy.(endpoint := ip.endpoint), ok);
      }
    }

    method ControlVmAsync(id: string, action: Action, e: Environment) returns (failed: bool)
      modifies this
      ensures records == ControlStore(old(records), id, action, e)
      ensures failed <==> id !in old(records)
                          || (old(records)[id].status != Terminated
                              && (old(records)[id].resource != Named || !IsControl(action)
                                  || (Opens(old(records)[id], action) && !e.httpOk)))
    {
      if id !in records {
        return true;
      }
      var temp := records[id];
      if temp.status == Terminated {
        return false;
      }
      if temp.resource != Named {
        return true;
      }
      var before := temp.status;
      if action == Terminate {
        temp := temp.(action := Terminate, target := Terminated, status := Terminating);
      } else if action == Reboot {
        temp := temp.(action := Reboot, target := Running, status := Rebooting);
      } else if action == Suspend {
        temp := temp.(action := Suspend, target := Suspended, status := Suspending);
      } else if action == Resume {
        temp := temp.(action := Resume, target := Running, status := Resuming);
      } else {
        return true;
      }
      if before == temp.target && action != Reboot {
        return false;
      }
      UpdateVmInfo(id, temp, e.openPut);
      if !e.httpOk {
        return true;
      }
      var _ := FetchVmStatus(id, e.answers, e.fetchIp, e.fetchPut);
      if action != Terminate {
        UpdateVmPublicIp(id, temp, e.closeIp, e.closePut);
      }
      return false;
    }
  }
}
