/** The status of an MCI as an aggregate of its VM statuses (manageInfo.go), and
    the gate that reads it before a control action (control.go). */
module MciStatus {
  import opened Text

  /** The statuses in the order of the counters. */
  function Name(k: nat): string
    requires k < 10
  {
    if k == 0 then "Failed" else if k == 1 then "Suspended" else if k == 2 then "Running"
    else if k == 3 then "Terminated" else if k == 4 then "Creating" else if k == 5 then "Suspending"
    else if k == 6 then "Resuming" else if k == 7 then "Rebooting" else if k == 8 then "Terminating"
    else "Undefined"
  }

  datatype VmStatus = VmStatus(status: string, targetStatus: string)

  /** The stored MCI object; `total` is its last reported VM count. */
  datatype Mci = Mci(status: string, targetAction: string, targetStatus: string, total: int, vmCount: nat)

  datatype Report = Report(status: string, targetAction: string, targetStatus: string, total: int, counts: seq<nat>)

  predicate Has(s: string, w: string)
    ensures Has(s, w) <==> Contains(s, w)
  {
    Index(s, w) != -1
  }

  // ---------- counting ----------

  /** The counter a VM status falls under. */
  function Slot(status: string): (k: nat)
    ensures k < 10 && (k < 9 ==> Name(k) == status) && (k == 9 ==> forall j :: 0 <= j < 9 ==> Name(j) != status)
  {
    if status == "Failed" then 0 else if status == "Suspended" then 1 else if status == "Running" then 2
    else if status == "Terminated" then 3 else if status == "Creating" then 4 else if status == "Suspending" then 5
    else if status == "Resuming" then 6 else if status == "Rebooting" then 7 else if status == "Terminating" then 8
    else 9
  }

  function Count(vms: seq<VmStatus>, k: nat): (n: nat)
    ensures n <= |vms|
  {
    if vms == [] then 0
    else Count(vms[..|vms| - 1], k) + if Slot(vms[|vms| - 1].status) == k then 1 else 0
  }

  function Counts(vms: seq<VmStatus>): (c: seq<nat>)
    ensures |c| == 10 && forall k :: 0 <= k < 10 ==> c[k] == Count(vms, k)
  {
    seq(10, k requires 0 <= k < 10 => Count(vms, k))
  }

  function Sum(c: seq<nat>): nat {
    if c == [] then 0 else Sum(c[..|c| - 1]) + c[|c| - 1]
  }

  lemma {:induction false} SumAt(c: seq<nat>, k: nat)
    requires k < |c|
    ensures Sum(c[k := c[k] + 1]) == Sum(c) + 1 && c[k] <= Sum(c)
  {
    var d := c[k := c[k] + 1];
    if k == |c| - 1 {
      assert d[..k] == c[..k];
    } else {
      SumAt(c[..|c| - 1], k);
      assert d[..|c| - 1] == c[..|c| - 1][k := c[k] + 1];
    }
  }

  lemma {:induction false} SumZero(c: seq<nat>)
    requires forall i :: 0 <= i < |c| ==> c[i] == 0
    ensures Sum(c) == 0
  {
    if c != [] { SumZero(c[..|c| - 1]); }
  }

  lemma {:induction false} CountersSum(vms: seq<VmStatus>)
    ensures Sum(Counts(vms)) == |vms|
  {
    if vms == [] {
      SumZero(Counts(vms));
    } else {
      var init, k := vms[..|vms| - 1], Slot(vms[|vms| - 1].status);
      CountersSum(init);
      SumAt(Counts(init), k);
      assert Counts(vms) == Counts(init)[k := Counts(init)[k] + 1];
    }
  }

  /** The first of the largest counters. */
  ghost predicate IsDominant(c: seq<nat>, k: nat) {
    k < |c| && (forall i :: 0 <= i < |c| ==> c[i] <= c[k]) && (forall i :: 0 <= i < k ==> c[i] < c[k])
  }

  lemma DominantIsUnique(c: seq<nat>, j: nat, k: nat)
    requires IsDominant(c, j) && IsDominant(c, k)
    ensures j == k
  {
    assert c[j] <= c[k] && c[k] <= c[j];
  }

  method CountStatuses(vms: seq<VmStatus>) returns (statusFlag: array<nat>)
    ensures fresh(statusFlag) && statusFlag[..] == Counts(vms)
  {
    statusFlag := new nat[10](_ => 0);
    assert vms[..0] == [];
    for i := 0 to |vms|
      invariant statusFlag[..] == Counts(vms[..i])
    {
      var k := Slot(vms[i].status);
      assert vms[..i + 1][..i] == vms[..i];
      assert Counts(vms[..i + 1]) == Counts(vms[..i])[k := Counts(vms[..i])[k] + 1];
      statusFlag[k] := statusFlag[k] + 1;
    }
    assert vms[..|vms|] == vms;
  }

  method FirstMax(c: seq<nat>) returns (tmpMax: nat, tmpMaxIndex: nat)
    requires |c| > 0
    ensures IsDominant(c, tmpMaxIndex) && tmpMax == c[tmpMaxIndex]
  {
    tmpMax, tmpMaxIndex := 0, 0;
    for i := 0 to |c|
      invariant tmpMaxIndex < |c| && (tmpMaxIndex < i || (i == tmpMaxIndex == 0 && tmpMax == 0))
      invariant i > 0 ==> tmpMax == c[tmpMaxIndex]
      invariant forall j :: 0 <= j < i ==> c[j] <= tmpMax
      invariant forall j :: 0 <= j < tmpMaxIndex ==> c[j] < tmpMax
    {
      if c[i] > tmpMax {
        tmpMax, tmpMaxIndex := c[i], i;
      }
    }
  }

  // ---------- the report ----------

  function Max(a: int, b: int): int { if a < b then b else a }

  predicate IsCreating(mci: Mci) {
    Has(mci.status, "Creating") || Has(mci.targetAction, "Create") || Has(mci.targetStatus, "Running")
  }

  /** The action is complete as far as this VM is concerned, or cannot proceed. */
  predicate IsSettled(action: string, vm: VmStatus) {
    if action == "Create" then vm.status !in {"Creating", "Undefined", ""}
    else if action == "Terminate" then vm.status in {"Terminated", "Failed", "Undefined", ""}
    else if action == "Suspend" then vm.status in {"Suspended", "Failed", "Terminated", "Undefined", ""}
    else if action == "Resume" || action == "Reboot" then
      vm.status in {"Running", "Failed", "Terminated", "Undefined", ""}
    else vm.targetStatus == "None" || vm.status == "Terminated"
  }

  /** The VM statuses that are aggregated: those fetched, or else those stored. */
  function Reported(fetched: seq<VmStatus>, stored: seq<VmStatus>): seq<VmStatus> {
    if fetched == [] then stored else fetched
  }

  /** The stored statuses count only if none were fetched. */
  lemma FetchedFirst(fetched: seq<VmStatus>, stored: seq<VmStatus>)
    ensures fetched != [] ==> Reported(fetched, stored) == fetched
    ensures Reported([], stored) == stored
  {
  }

  function Proportion(count: nat, running: nat, total: int): string {
    ":" + (Itoa(count) + " (R:" + Itoa(running) + "/" + Itoa(total) + ")")
  }

  function Label(dominant: nat, count: nat, running: nat, total: int): string
    requires dominant < 10
  {
    (if count < total then "Partial-" else "") + Name(dominant) + Proportion(count, running, total)
  }

  ghost predicate Completes(mci: Mci, vms: seq<VmStatus>) {
    mci.targetAction !in {"None", ""} && forall i :: 0 <= i < |vms| ==> IsSettled(mci.targetAction, vms[i])
  }

  ghost predicate AllFailed(vms: seq<VmStatus>) {
    forall i :: 0 <= i < |vms| ==> vms[i].status in {"Failed", "Terminated"}
  }

  /** An MCI whose creation ended with nothing but failures reports a bare "Failed". */
  ghost predicate FailedCreation(mci: Mci, vms: seq<VmStatus>) {
    mci.targetAction == "Create" && Completes(mci, vms) && AllFailed(vms)
  }

  /** What `Aggregate` reports for these VM statuses: the label of the dominant counter, or the override. */
  ghost predicate IsReport(mci: Mci, vms: seq<VmStatus>, k: nat, total: nat, status: string) {
    && IsDominant(Counts(vms), k) && Count(vms, k) <= total
    && status == if FailedCreation(mci, vms) then "Failed" else Label(k, Count(vms, k), Count(vms, 2), total)
  }

  // ---------- completion ----------

  /** The VMs of which nothing is known. */
  function Silent(vms: seq<VmStatus>): (n: nat)
    ensures n <= |vms|
  {
    if vms == [] then 0
    else Silent(vms[..|vms| - 1]) + if vms[|vms| - 1].status == "Undefined" || vms[|vms| - 1].status == "" then 1 else 0
  }

  /** The VMs that have reached the end of the action, failed, terminated or fallen silent. */
  function Done(action: string, vms: seq<VmStatus>): nat {
    Count(vms, 0) + Count(vms, 3) + Silent(vms)
    + if action == "Suspend" then Count(vms, 1) else if action == "Resume" || action == "Reboot" then Count(vms, 2) else 0
  }

  /** No VM is pending for the action, by the counters: when an MCI is created, none is in creation, or silent;
      otherwise all are done. An action of another name waits for every VM's own target, or its termination. */
  ghost predicate NonePending(action: string, vms: seq<VmStatus>) {
    if action == "None" || action == "" then false
    else if action == "Create" then Count(vms, 4) == 0 && Silent(vms) == 0
    else if action in {"Terminate", "Suspend", "Resume", "Reboot"} then Done(action, vms) == |vms|
    else forall vm :: vm in vms ==> vm.targetStatus == "None" || vm.status == "Terminated"
  }

  ghost predicate AllSettled(action: string, vms: seq<VmStatus>) {
    forall i :: 0 <= i < |vms| ==> IsSettled(action, vms[i])
  }

  lemma DoneNext(action: string, vms: seq<VmStatus>)
    requires action in {"Terminate", "Suspend", "Resume", "Reboot"} && vms != []
    ensures Done(action, vms) == Done(action, vms[..|vms| - 1]) + if IsSettled(action, vms[|vms| - 1]) then 1 else 0
  {
  }

  lemma {:induction false} AllDoneIff(action: string, vms: seq<VmStatus>)
    requires action in {"Terminate", "Suspend", "Resume", "Reboot"}
    ensures Done(action, vms) <= |vms| && (AllSettled(action, vms) <==> Done(action, vms) == |vms|)
  {
    if vms != [] {
      AllDoneIff(action, vms[..|vms| - 1]);
      DoneNext(action, vms);
      SettledNext(action, vms);
    }
  }

  lemma SettledNext(action: string, vms: seq<VmStatus>)
    requires vms != []
    ensures AllSettled(action, vms) <==> AllSettled(action, vms[..|vms| - 1]) && IsSettled(action, vms[|vms| - 1])
  {
  }

  lemma {:induction false} AllCreatedIff(vms: seq<VmStatus>)
    ensures AllSettled("Create", vms) <==> Count(vms, 4) == 0 && Silent(vms) == 0
  {
    if vms != [] {
      AllCreatedIff(vms[..|vms| - 1]);
      SettledNext("Create", vms);
    }
  }

  lemma SettledIff(action: string, vms: seq<VmStatus>)
    requires action != "None" && action != ""
    ensures AllSettled(action, vms) <==> NonePending(action, vms)
  {
    if action == "Create" {
      AllCreatedIff(vms);
    } else if action in {"Terminate", "Suspend", "Resume", "Reboot"} {
      AllDoneIff(action, vms);
    } else {
      forall vm | vm in vms ensures AllSettled(action, vms) ==> IsSettled(action, vm) {
        var i :| 0 <= i < |vms| && vms[i] == vm;
      }
    }
  }

  lemma CompletesIff(mci: Mci, vms: seq<VmStatus>)
    ensures Completes(mci, vms) <==> NonePending(mci.targetAction, vms)
  {
    if mci.targetAction !in {"None", ""} { SettledIff(mci.targetAction, vms); }
  }

  /** A completed action leaves no VM in its transitional status. */
  lemma NoneInTransit(mci: Mci, vms: seq<VmStatus>)
    requires Completes(mci, vms)
    ensures mci.targetAction == "Create" ==> Count(vms, 4) == 0
    ensures mci.targetAction == "Suspend" ==> Count(vms, 5) == 0
    ensures mci.targetAction == "Resume" ==> Count(vms, 6) == 0
    ensures mci.targetAction == "Reboot" ==> Count(vms, 7) == 0
    ensures mci.targetAction == "Terminate" ==> Count(vms, 8) == 0
  {
    CompletesIff(mci, vms);
    InTransitPending(vms);
  }

  lemma {:induction false} InTransitPending(vms: seq<VmStatus>)
    ensures Count(vms, 0) + Count(vms, 1) + Count(vms, 2) + Count(vms, 3) + Silent(vms)
            + Count(vms, 5) + Count(vms, 6) + Count(vms, 7) + Count(vms, 8) <= |vms|
  {
    if vms != [] { InTransitPending(vms[..|vms| - 1]); }
  }

  /** The VM count of the report, in its three modes. */
  function VmTotal(mci: Mci, vmIds: nat, statuses: nat, stored: nat, tmpMax: nat): (n: int)
    requires tmpMax <= statuses
    ensures statuses <= n && tmpMax <= n
    ensures IsCreating(mci) ==> n >= mci.total && n >= mci.vmCount && n >= vmIds
    ensures !IsCreating(mci) && tmpMax < statuses ==> n == statuses
  {
    if IsCreating(mci) then
      var n := Max(vmIds, statuses);
      var m := if n < mci.total && mci.total > 0 then mci.total else n;
      Max(m, mci.vmCount)
    else if tmpMax == statuses && tmpMax > 0 then
      Max(Max(Max(stored, vmIds), mci.vmCount), tmpMax)
    else statuses
  }

  /** Which of the counts it is: while the MCI is being created the largest of the four, the earlier total among them;
      with all VMs in one status the largest of the four without it; and else the number of statuses. */
  lemma VmTotalIs(mci: Mci, vmIds: nat, statuses: nat, stored: nat, tmpMax: nat)
    requires tmpMax <= statuses
    ensures var n := VmTotal(mci, vmIds, statuses, stored, tmpMax);
            if Contains(mci.status, "Creating") || Contains(mci.targetAction, "Create") || Contains(mci.targetStatus, "Running")
            then IsLargest(n, [vmIds, statuses, mci.total, mci.vmCount])
            else if tmpMax == statuses && statuses > 0 then IsLargest(n, [stored, vmIds, mci.vmCount, tmpMax])
            else n == statuses
  {
    assert [vmIds, statuses, mci.total, mci.vmCount][..] == [vmIds, statuses, mci.total, mci.vmCount];
  }

  ghost predicate IsLargest(n: int, counts: seq<int>) {
    n in counts && forall i :: 0 <= i < |counts| ==> counts[i] <= n
  }

  /** The names of the ten counters, and two labels in full. */
  lemma LabelTexts()
    ensures forall k :: 0 <= k < 10 ==> Name(k) == ["Failed", "Suspended", "Running", "Terminated", "Creating",
                                                    "Suspending", "Resuming", "Rebooting", "Terminating", "Undefined"][k]
    ensures Label(2, 3, 3, 5) == "Partial-Running:3 (R:3/5)" && Label(1, 4, 0, 4) == "Suspended:4 (R:0/4)"
  {
    assert Itoa(0) == "0" && Itoa(3) == "3" && Itoa(4) == "4" && Itoa(5) == "5";
  }

  method StatusText(tmpMax: nat, tmpMaxIndex: nat, running: nat, numVm: int) returns (status: string)
    requires tmpMaxIndex < 10
    ensures tmpMax <= numVm ==> status == Label(tmpMaxIndex, tmpMax, running, numVm)
  {
    var proportion := Proportion(tmpMax, running, numVm);
    var name := Name(tmpMaxIndex);
    if tmpMax == numVm {
      status := name + proportion;
      assert "" + name == name;
    } else if tmpMax < numVm {
      status := "Partial-" + name + proportion;
    } else {
      status := Name(9) + proportion;
    }
  }

  /** `GetMciStatus` for an MCI with VMs; `vmIds` is the length of the VM list. The three-way choice of
      `StatusText` never falls through to "Undefined". */
  method Aggregate(mci: Mci, vmIds: nat, fetched: seq<VmStatus>, stored: seq<VmStatus>) returns (r: Report, ghost k: nat)
    requires vmIds > 0
    ensures var vms := Reported(fetched, stored);
            && r.counts == Counts(vms) && |vms| <= r.total && (forall i :: 0 <= i < 10 ==> r.counts[i] <= r.total)
            && IsReport(mci, vms, k, r.total, r.status)
    ensures IsCreating(mci) ==> r.total >= mci.total && r.total >= mci.vmCount && r.total >= vmIds
    ensures !IsCreating(mci) && r.counts[k] < |Reported(fetched, stored)| ==> r.total == |Reported(fetched, stored)|
    ensures if NonePending(mci.targetAction, Reported(fetched, stored)) then r.targetAction == "None" && r.targetStatus == "None"
            else r.targetAction == mci.targetAction && r.targetStatus == mci.targetStatus
  {
    CompletesIff(mci, Reported(fetched, stored));
    var vms := if |fetched| == 0 && |stored| > 0 then stored else fetched;
    var statusFlag := CountStatuses(vms);
    var counts := statusFlag[..];
    var tmpMax, tmpMaxIndex := FirstMax(counts);
    k := tmpMaxIndex;
    assert tmpMax == Count(vms, k);
    var numVm := VmTotal(mci, vmIds, |vms|, |stored|, tmpMax);
    var status := StatusText(tmpMax, tmpMaxIndex, counts[2], numVm);
    r := Report(status, mci.targetAction, mci.targetStatus, numVm, counts);
    if mci.targetAction != "None" && mci.targetAction != "" {
      var isDone := CheckDone(mci.targetAction, vms);
      if isDone {
        var allVmsFailed := CheckAllFailed(vms);
        r := r.(targetAction := "None", targetStatus := "None");
        if allVmsFailed && mci.targetAction == "Create" {
          r := r.(status := "Failed");
        }
      }
    }
  }

  method CheckDone(action: string, vms: seq<VmStatus>) returns (isDone: bool)
    ensures isDone <==> forall i :: 0 <= i < |vms| ==> IsSettled(action, vms[i])
  {
    isDone := true;
    for i := 0 to |vms|
      invariant isDone <==> forall j :: 0 <= j < i ==> IsSettled(action, vms[j])
    {
      if !IsSettled(action, vms[i]) {
        isDone := false;
      }
    }
  }

  method CheckAllFailed(vms: seq<VmStatus>) returns (all: bool)
    ensures all <==> AllFailed(vms)
  {
    for i := 0 to |vms|
      invariant forall j :: 0 <= j < i ==> vms[j].status in {"Failed", "Terminated"}
    {
      if vms[i].status != "Failed" && vms[i].status != "Terminated" {
        return false;
      }
    }
    return true;
  }

  // ---------- the gate ----------

  predicate IsTransitional(status: string) {
    status == "Creating" || status == "Terminating" || status == "Resuming" || status == "Suspending"
    || status == "Rebooting"
  }

  predicate Mentions(status: string) {
    Has(status, "Creating") || Has(status, "Terminating") || Has(status, "Resuming") || Has(status, "Suspending")
    || Has(status, "Rebooting")
  }

  function Target(action: string): (t: string)
    ensures t != "" <==> IsAction(action)
  {
    if EqualFold(action, "Terminate") then "Terminated"
    else if EqualFold(action, "Reboot") then "Running"
    else if EqualFold(action, "Suspend") then "Suspended"
    else if EqualFold(action, "Resume") then "Running"
    else ""
  }

  predicate IsAction(action: string) {
    || EqualFold(action, "Terminate") || EqualFold(action, "Reboot") || EqualFold(action, "Suspend")
    || EqualFold(action, "Resume")
  }

  /** `CheckAllowedTransition` for a single VM. */
  predicate AllowedForVm(status: string, action: string) {
    if !IsAction(action) then false
    else if EqualFold(status, Target(action)) && !EqualFold(action, "Reboot") then false
    else if EqualFold(status, "Terminated") then false
    else if EqualFold(status, "Creating") || EqualFold(status, "Terminating") || EqualFold(status, "Resuming")
      || EqualFold(status, "Suspending") || EqualFold(status, "Rebooting") then false
    else if EqualFold(status, "Suspended") then EqualFold(action, "Resume") || EqualFold(action, "Terminate")
    else true
  }

  /** `CheckAllowedTransition` for a whole MCI. */
  predicate AllowedForMci(status: string, action: string) {
    if !IsAction(action) then false
    else if EqualFold(status, Target(action)) then false
    else if EqualFold(status, "Terminated") then false
    else if Mentions(status) then false
    else if EqualFold(status, "Suspended") then EqualFold(action, "Resume") || EqualFold(action, "Terminate")
    else true
  }

  ghost predicate InTransit(status: string) {
    || EqualFold(status, "Creating") || EqualFold(status, "Terminating") || EqualFold(status, "Resuming")
    || EqualFold(status, "Suspending") || EqualFold(status, "Rebooting")
  }

  /** The four actions are different words, whatever their case. */
  lemma ActionsDiffer(action: string)
    ensures EqualFold(action, "Terminate") ==> !EqualFold(action, "Reboot") && !EqualFold(action, "Suspend") && !EqualFold(action, "Resume")
    ensures EqualFold(action, "Reboot") ==> !EqualFold(action, "Suspend") && !EqualFold(action, "Resume")
    ensures EqualFold(action, "Suspend") ==> !EqualFold(action, "Resume")
  {
    assert |Lower("Terminate")| == 9 && |Lower("Suspend")| == 7 && |Lower("Reboot")| == |Lower("Resume")| == 6;
    assert Lower("Reboot")[2] == 'b' && Lower("Resume")[2] == 's';
  }

  /** What a VM in each status accepts: nothing in transit or terminated; no suspension or reboot while suspended; no
      resumption while running. A reboot of a running VM is accepted. */
  lemma GateOfVm(status: string, action: string)
    ensures AllowedForVm(status, action) <==>
            && !InTransit(status) && !EqualFold(status, "Terminated")
            && (|| EqualFold(action, "Terminate")
                || (EqualFold(action, "Suspend") && !EqualFold(status, "Suspended"))
                || (EqualFold(action, "Resume") && !EqualFold(status, "Running"))
                || (EqualFold(action, "Reboot") && !EqualFold(status, "Suspended")))
  {
    ActionsDiffer(action);
  }

  /** The same of a whole MCI, where a status in transit is one that mentions it, and a bare "Running" does not even
      accept a reboot. */
  lemma GateOfMci(status: string, action: string)
    ensures AllowedForMci(status, action) <==>
            && !Contains(status, "Creating") && !Contains(status, "Terminating") && !Contains(status, "Resuming")
            && !Contains(status, "Suspending") && !Contains(status, "Rebooting") && !EqualFold(status, "Terminated")
            && (|| EqualFold(action, "Terminate")
                || (EqualFold(action, "Suspend") && !EqualFold(status, "Suspended"))
                || (EqualFold(action, "Resume") && !EqualFold(status, "Running"))
                || (EqualFold(action, "Reboot") && !EqualFold(status, "Suspended") && !EqualFold(status, "Running")))
  {
    ActionsDiffer(action);
  }

  // ---------- words inside labels ----------

  lemma LettersAt(s: string, w: string, k: int)
    requires OccursAt(s, w, k)
    ensures forall i :: 0 <= i < |w| ==> w[i] == s[k + i]
  {
    forall i | 0 <= i < |w| ensures w[i] == s[k + i] {
      assert s[k..k + |w|][i] == s[k + i];
    }
  }

  lemma LetterOf(s: string, w: string, k: int, m: int)
    requires OccursAt(s, w, k) && k <= m < k + |w|
    ensures s[m] in w
  {
    LettersAt(s, w, k);
    assert w[m - k] == s[k + (m - k)];
  }

  lemma SliceRight(front: string, back: string, i: nat, j: nat)
    requires i <= j <= |back|
    ensures (front + back)[|front| + i..|front| + j] == back[i..j]
  {
    var all, n := front + back, |front|;
    assert |all[n + i..n + j]| == |back[i..j]|;
    assert forall k :: 0 <= k < j - i ==> all[n + i..n + j][k] == back[i..j][k];
  }

  lemma SliceLeft(front: string, back: string, i: nat, j: nat)
    requires i <= j <= |front|
    ensures (front + back)[i..j] == front[i..j]
  {
    assert forall k :: 0 <= k < j - i ==> (front + back)[i..j][k] == front[i..j][k];
  }

  lemma OccursEither(a: string, c: char, b: string, w: string)
    requires c !in w && w != ""
    ensures Contains(a + [c] + b, w) <==> Contains(a, w) || Contains(b, w)
  {
    var s, n := a + [c] + b, |a| + 1;
    assert s == a + ([c] + b);
    forall k | OccursAt(a, w, k) ensures OccursAt(s, w, k) { SliceLeft(a, [c] + b, k, k + |w|); }
    forall k | OccursAt(b, w, k) ensures OccursAt(s, w, n + k) { SliceRight(a + [c], b, k, k + |w|); }
    forall k | OccursAt(s, w, k) ensures OccursAt(a, w, k) || OccursAt(b, w, k - n) {
      if k + |w| <= |a| {
        SliceLeft(a, [c] + b, k, k + |w|);
      } else if k > |a| {
        SliceRight(a + [c], b, k - n, k - n + |w|);
      } else {
        LetterOf(s, w, k, |a|);
      }
    }
  }

  lemma NeedsItsLetters(s: string, w: string, c: char)
    requires c in w && c !in s
    ensures !Contains(s, w)
  {
    forall k | OccursAt(s, w, k) ensures false {
      LettersAt(s, w, k);
    }
  }

  /** One capital, then small letters. */
  predicate IsWord(s: string) {
    |s| > 0 && 'A' <= s[0] <= 'Z' && forall i :: 1 <= i < |s| ==> 'a' <= s[i] <= 'z'
  }

  /** Inside a word, another word can only stand at the start. */
  lemma OnlyAtTheStart(s: string, w: string)
    requires IsWord(s) && IsWord(w)
    ensures Contains(s, w) <==> w <= s
  {
    if w <= s {
      assert OccursAt(s, w, 0);
    }
    forall k | OccursAt(s, w, k) ensures k == 0 {
      LettersAt(s, w, k);
      assert w[0] == s[k + 0];
    }
  }

  lemma NamesAreWords(k: nat)
    requires k < 10
    ensures IsWord(Name(k))
  {
  }

  lemma TransitionalWord(w: string)
    requires IsTransitional(w)
    ensures 'g' in w && ':' !in w && '-' !in w && IsWord(w)
  {
    assert w[|w| - 1] == 'g';
  }

  lemma TransitionalSlots(k: nat)
    requires k < 10
    ensures IsTransitional(Name(k)) <==> 4 <= k <= 8
  {
    assert k < 4 ==> Name(k)[|Name(k)| - 1] == 'd' || Name(k)[1] == 'u';
    assert k == 9 ==> Name(k)[0] == 'U';
  }

  lemma PrefixIsEqual(k: nat, w: string)
    requires k < 10 && IsTransitional(w) && w <= Name(k)
    ensures Name(k) == w
  {
    assert Name(k)[0] == w[0] && Name(k)[2] == w[2];
  }

  lemma WordInName(dominant: nat, w: string)
    requires dominant < 10 && IsTransitional(w)
    ensures Contains(Name(dominant), w) <==> Name(dominant) == w
  {
    NamesAreWords(dominant);
    TransitionalWord(w);
    OnlyAtTheStart(Name(dominant), w);
    if w <= Name(dominant) { PrefixIsEqual(dominant, w); }
  }

  lemma NoLettersInCounts(count: nat, running: nat, total: nat)
    ensures 'g' !in Itoa(count) + " (R:" + Itoa(running) + "/" + Itoa(total) + ")"
  {
    NoLetter(count);
    NoLetter(running);
    NoLetter(total);
  }

  lemma NoLetter(n: nat)
    ensures 'g' !in Itoa(n)
  {
    forall i | 0 <= i < |Itoa(n)| ensures Itoa(n)[i] != 'g' {
      assert IsDigit(Itoa(n)[i]);
    }
  }

  /** A transitional word occurs in a label exactly if it is the dominant status. */
  lemma WordInLabel(dominant: nat, count: nat, running: nat, total: nat, w: string)
    requires dominant < 10 && IsTransitional(w)
    ensures Contains(Label(dominant, count, running, total), w) <==> Name(dominant) == w
  {
    var name, numbers := Name(dominant), Itoa(count) + " (R:" + Itoa(running) + "/" + Itoa(total) + ")";
    TransitionalWord(w);
    NoLettersInCounts(count, running, total);
    NeedsItsLetters(numbers, w, 'g');
    WordInName(dominant, w);
    WordInHead(name, numbers, w, count < total);
    assert Proportion(count, running, total) == ":" + numbers;
  }

  lemma WordInHead(name: string, numbers: string, w: string, partial: bool)
    requires 'g' in w && ':' !in w && '-' !in w && w != "" && !Contains(numbers, w)
    ensures Contains((if partial then "Partial-" else "") + name + (":" + numbers), w) <==> Contains(name, w)
  {
    if partial {
      var head := "Partial" + ['-'] + name;
      OccursEither(head, ':', numbers, w);
      NeedsItsLetters("Partial", w, 'g');
      OccursEither("Partial", '-', name, w);
      assert "Partial-" + name + (":" + numbers) == head + [':'] + numbers;
    } else {
      OccursEither(name, ':', numbers, w);
      assert "" + name + (":" + numbers) == name + [':'] + numbers;
    }
  }

  lemma ColonIsKept(s: string, t: string)
    requires ':' in s && ':' !in t
    ensures !EqualFold(s, t)
  {
    var i :| 0 <= i < |s| && s[i] == ':';
    assert Lower(s)[i] == ':';
    if |t| == |s| {
      assert Lower(t)[i] == LowerChar(t[i]) != ':';
    }
  }

  // ---------- main results ----------

  /** Nothing but failed and terminated VMs leaves no transitional status dominant. */
  lemma {:induction false} AllFailedCounts(vms: seq<VmStatus>, k: nat)
    requires AllFailed(vms) && k !in {0, 3}
    ensures Count(vms, k) == 0
  {
    if vms != [] { AllFailedCounts(vms[..|vms| - 1], k); }
  }

  lemma NeverEqual(mci: Mci, vms: seq<VmStatus>, k: nat, total: nat, status: string, target: string)
    requires IsReport(mci, vms, k, total, status) && target in {"Terminated", "Suspended", "Running"}
    ensures !EqualFold(status, target)
  {
    if FailedCreation(mci, vms) {
      assert |Lower(status)| == 6;
    } else {
      ColonIsKept(status, target);
    }
  }

  lemma LabelMentions(dominant: nat, count: nat, running: nat, total: nat)
    requires dominant < 10
    ensures Mentions(Label(dominant, count, running, total)) <==> IsTransitional(Name(dominant))
  {
    WordInLabel(dominant, count, running, total, "Creating");
    WordInLabel(dominant, count, running, total, "Terminating");
    WordInLabel(dominant, count, running, total, "Resuming");
    WordInLabel(dominant, count, running, total, "Suspending");
    WordInLabel(dominant, count, running, total, "Rebooting");
  }

  /** For a reported status, a valid action is refused if and only if the dominant status is transitional:
      the tests for equality with a status never fire. */
  lemma GateOfReport(mci: Mci, vms: seq<VmStatus>, k: nat, total: nat, status: string, action: string)
    requires IsReport(mci, vms, k, total, status)
    ensures AllowedForMci(status, action) <==> IsAction(action) && !IsTransitional(Name(k))
  {
    if IsAction(action) {
      NeverEqual(mci, vms, k, total, status, Target(action));
      NeverEqual(mci, vms, k, total, status, "Terminated");
      NeverEqual(mci, vms, k, total, status, "Suspended");
      if FailedCreation(mci, vms) {
        FailedIsNotTransitional(vms, k);
      } else {
        LabelMentions(k, Count(vms, k), Count(vms, 2), total);
      }
    }
  }

  lemma NothingWithoutG(s: string)
    requires 'g' !in s
    ensures !Mentions(s)
  {
    forall w | IsTransitional(w) ensures !Has(s, w) {
      TransitionalWord(w);
      NeedsItsLetters(s, w, 'g');
    }
  }

  lemma FailedIsNotTransitional(vms: seq<VmStatus>, k: nat)
    requires AllFailed(vms) && IsDominant(Counts(vms), k)
    ensures !IsTransitional(Name(k)) && !Mentions("Failed")
  {
    var c := Counts(vms);
    assert c[0] <= c[k];
    if k !in {0, 3} { AllFailedCounts(vms, k); }
    TransitionalSlots(k);
    NothingWithoutG("Failed");
  }

  lemma {:induction false} UniformCounts(vms: seq<VmStatus>, slot: nat)
    requires forall i :: 0 <= i < |vms| ==> Slot(vms[i].status) == slot
    ensures Count(vms, slot) == |vms| && forall k :: k != slot ==> Count(vms, k) == 0
  {
    if vms != [] { UniformCounts(vms[..|vms| - 1], slot); }
  }

  lemma RefusedForVm(action: string)
    requires action == "Suspend" || action == "Reboot"
    ensures IsAction(action) && !AllowedForVm("Suspended", action) && !AllowedForVm("Terminated", action)
  {
    assert Lower("Suspend") != Lower("Reboot") by {
      assert |Lower("Suspend")| != |Lower("Reboot")|;
    }
    assert |Lower(action)| < |Lower("Terminate")|;
    assert action == "Reboot" ==> Lower(action)[2] == 'b' && Lower("Resume")[2] == 's';
    assert action == "Suspend" ==> |Lower(action)| != |Lower("Resume")|;
  }

  /** The two gates disagree: when every VM is suspended, or every VM terminated, the gate of a VM refuses
      to suspend or reboot each of them, but the gate of the MCI lets the action through to all of them. */
  lemma GatesDisagree(mci: Mci, vms: seq<VmStatus>, k: nat, total: nat, status: string, slot: nat, action: string)
    requires vms != [] && (slot == 1 || slot == 3) && (action == "Suspend" || action == "Reboot")
    requires forall i :: 0 <= i < |vms| ==> Slot(vms[i].status) == slot
    requires IsReport(mci, vms, k, total, status)
    ensures AllowedForMci(status, action)
    ensures forall i :: 0 <= i < |vms| ==> !AllowedForVm(vms[i].status, action)
  {
    UniformCounts(vms, slot);
    TransitionalSlots(k);
    assert Counts(vms)[slot] <= Counts(vms)[k];
    GateOfReport(mci, vms, k, total, status, action);
    RefusedForVm(action);
  }

  /** "Partial-" is absent if and only if the dominant count is the total, and then all VMs are in that status. */
  lemma PartialIff(vms: seq<VmStatus>, k: nat, total: nat)
    requires IsDominant(Counts(vms), k) && Count(vms, k) <= total
    ensures HasPrefix(Label(k, Count(vms, k), Count(vms, 2), total), "Partial-") <==> Count(vms, k) != total
    ensures Count(vms, k) == total && |vms| <= total ==> forall i :: 0 <= i < |vms| ==> Slot(vms[i].status) == k
  {
    NamePrefix(k, Count(vms, k) < total, Proportion(Count(vms, k), Count(vms, 2), total));
    if Count(vms, k) == total && |vms| <= total { AllInOneSlot(vms, k); }
  }

  lemma NamePrefix(k: nat, partial: bool, rest: string)
    requires k < 10
    ensures HasPrefix((if partial then "Partial-" else "") + Name(k) + rest, "Partial-") <==> partial
  {
    NamesAreWords(k);
    var s := (if partial then "Partial-" else "") + Name(k) + rest;
    if partial {
      assert s == "Partial-" + (Name(k) + rest);
    } else {
      assert s == Name(k) + rest;
      assert s[0] == Name(k)[0] != 'P';
    }
  }

  lemma {:induction false} AllInOneSlot(vms: seq<VmStatus>, k: nat)
    requires Count(vms, k) == |vms|
    ensures forall i :: 0 <= i < |vms| ==> Slot(vms[i].status) == k
  {
    if vms != [] { AllInOneSlot(vms[..|vms| - 1], k); }
  }

  // ---------- the order of the statuses ----------

  lemma {:induction false} CountJoined(a: seq<VmStatus>, b: seq<VmStatus>, k: nat)
    ensures Count(a + b, k) == Count(a, k) + Count(b, k)
  {
    if b == [] {
      assert a + b == a;
    } else {
      CountJoined(a, b[..|b| - 1], k);
      assert (a + b)[..|a + b| - 1] == a + b[..|b| - 1];
    }
  }

  /** The first occurrence of a member, and what is left without it. */
  lemma TakeOut(vms: seq<VmStatus>, vm: VmStatus, k: nat) returns (rest: seq<VmStatus>)
    requires vm in vms
    ensures multiset(vms) == multiset(rest) + multiset{vm}
    ensures Count(vms, k) == Count(rest, k) + Count([vm], k)
  {
    var i :| 0 <= i < |vms| && vms[i] == vm;
    var a, b := vms[..i], vms[i + 1..];
    rest := a + b;
    assert vms == a + [vm] + b;
    CountJoined(a + [vm], b, k);
    CountJoined(a, [vm], k);
    CountJoined(a, b, k);
  }

  lemma {:induction false} CountPermuted(vms: seq<VmStatus>, shuffled: seq<VmStatus>, k: nat)
    requires multiset(vms) == multiset(shuffled)
    ensures Count(vms, k) == Count(shuffled, k)
    decreases |vms|
  {
    if vms == [] {
      assert |multiset(shuffled)| == |shuffled|;
    } else {
      var vm := vms[0];
      assert vm in multiset(vms);
      var rest := TakeOut(vms, vm, k);
      var others := TakeOut(shuffled, vm, k);
      assert multiset(rest) == multiset(vms) - multiset{vm} == multiset(others);
      assert |multiset(vms)| == |multiset(rest)| + 1;
      CountPermuted(rest, others, k);
    }
  }

  lemma SameMembers(vms: seq<VmStatus>, shuffled: seq<VmStatus>, mci: Mci)
    requires multiset(vms) == multiset(shuffled)
    ensures FailedCreation(mci, vms) <==> FailedCreation(mci, shuffled)
  {
    assert forall vm :: vm in vms <==> vm in multiset(vms);
    assert forall vm :: vm in shuffled <==> vm in multiset(shuffled);
    assert AllFailed(vms) <==> forall vm :: vm in vms ==> vm.status in {"Failed", "Terminated"};
    assert AllFailed(shuffled) <==> forall vm :: vm in shuffled ==> vm.status in {"Failed", "Terminated"};
    assert Completes(mci, vms) <==> mci.targetAction !in {"None", ""}
                                    && forall vm :: vm in vms ==> IsSettled(mci.targetAction, vm);
    assert Completes(mci, shuffled) <==> mci.targetAction !in {"None", ""}
                                         && forall vm :: vm in shuffled ==> IsSettled(mci.targetAction, vm);
  }

  /** The report does not depend on the order in which the statuses arrived. */
  lemma ReportIsDetermined(mci: Mci, vms: seq<VmStatus>, k: nat, status: string,
                           shuffled: seq<VmStatus>, l: nat, other: string, total: nat)
    requires multiset(vms) == multiset(shuffled)
    requires IsReport(mci, vms, k, total, status) && IsReport(mci, shuffled, l, total, other)
    ensures k == l && status == other
  {
    forall i | 0 <= i < 10 ensures Count(vms, i) == Count(shuffled, i) { CountPermuted(vms, shuffled, i); }
    assert Counts(vms) == Counts(shuffled);
    DominantIsUnique(Counts(vms), k, l);
    SameMembers(vms, shuffled, mci);
  }
}
