/** Sub-groups of VMs in one MCI: how ids are allocated when a group is created or scaled out, and how
    groups go away with their last VM (provisioning.go, manageInfo.go, utility.go). */
module SubGroups {
  import opened Text

  // ---------- names ----------

  function DashChar(c: char): char {
    if c == '_' || c == ' ' then '-' else LowerChar(c)
  }

  /** `common.ToLower`. */
  function ToLower(name: string): (r: string)
    ensures |r| == |name| && forall i :: 0 <= i < |name| ==> r[i] == DashChar(name[i])
  {
    seq(|name|, i requires 0 <= i < |name| => DashChar(name[i]))
  }

  /** Underscores and spaces become dashes, capitals small letters. */
  lemma NameTexts()
    ensures ToLower("My_Web Group-1") == "my-web-group-1"
    ensures forall c: char :: DashChar(c) == if c in "_ " then '-' else Lower([c])[0]
  {
    assert "My_Web Group-1"[..] == "My_Web Group-1";
  }

  predicate IsLetter(c: char) {
    'a' <= LowerChar(c) <= 'z'
  }

  /** `common.CheckString`. */
  predicate IsValidName(name: string) {
    && name != "" && IsLetter(name[0]) && (IsLetter(name[|name| - 1]) || IsDigit(name[|name| - 1]))
    && forall i :: 0 <= i < |name| ==> IsLetter(name[i]) || IsDigit(name[i]) || name[i] == '-' || name[i] == '+'
  }

  const CAPITALS := "ABCDEFGHIJKLMNOPQRSTUVWXYZ"
  const SMALL_LETTERS := "abcdefghijklmnopqrstuvwxyz"

  /** A name begins with a letter, ends with a letter or a digit, and has only these, dashes and pluses in between. */
  lemma ValidNameIff(name: string)
    ensures IsValidName(name) <==>
            && name != "" && (name[0] in CAPITALS || name[0] in SMALL_LETTERS) && name[|name| - 1] !in "-+"
            && forall i :: 0 <= i < |name| ==>
                 name[i] in CAPITALS || name[i] in SMALL_LETTERS || name[i] in "0123456789" || name[i] in "-+"
  {
    forall c: char ensures IsLetter(c) <==> c in CAPITALS || c in SMALL_LETTERS { LettersAre(c); }
    forall c: char ensures IsDigit(c) <==> c in "0123456789" { DigitsAre(c); }
  }

  lemma CapitalsAre(c: char)
    ensures c in CAPITALS <==> 'A' <= c <= 'Z'
  {
    if 'A' <= c <= 'Z' { assert CAPITALS[c as int - 65] == c; }
  }

  lemma SmallLettersAre(c: char)
    ensures c in SMALL_LETTERS <==> 'a' <= c <= 'z'
  {
    if 'a' <= c <= 'z' { assert SMALL_LETTERS[c as int - 97] == c; }
  }

  lemma LettersAre(c: char)
    ensures IsLetter(c) <==> c in CAPITALS || c in SMALL_LETTERS
  {
    CapitalsAre(c);
    SmallLettersAre(c);
  }

  lemma DigitsAre(c: char)
    ensures IsDigit(c) <==> c in "0123456789"
  {
    if IsDigit(c) { assert "0123456789"[c as int - 48] == c; }
  }

  function VmId(name: string, i: int): string {
    name + ("-" + Itoa(i))
  }

  function Ids(name: string, start: int, count: nat): (ids: seq<string>)
    ensures |ids| == count && forall k :: 0 <= k < count ==> ids[k] == VmId(name, start + k)
  {
    seq(count, k requires 0 <= k < count => VmId(name, start + k))
  }

  lemma NumberText(i: int)
    ensures exists digits :: AllDigits(digits) && digits != "" && Itoa(i) == (if i < 0 then "-" else "") + digits
  {
    var digits := NatText(if i < 0 then -i else i);
    assert "" + digits == digits;
  }

  /** The last dash of an id comes right before its digits. */
  lemma LastDash(name: string, i: int)
    ensures var p := |name| + if i < 0 then 1 else 0;
            p < |VmId(name, i)| && VmId(name, i)[p] == '-'
            && forall k :: p < k < |VmId(name, i)| ==> VmId(name, i)[k] != '-'
  {
    NumberText(i);
    var digits :| AllDigits(digits) && digits != "" && Itoa(i) == (if i < 0 then "-" else "") + digits;
    var p, id := |name| + (if i < 0 then 1 else 0), VmId(name, i);
    assert i < 0 ==> id == name + "-" + "-" + digits;
    assert i >= 0 ==> id == name + "-" + digits;
    forall k | p < k < |id| ensures id[k] != '-' {
      assert id[k] == digits[k - p - 1];
    }
  }

  lemma SameLength(m: string, i: int, n: string, j: int)
    requires VmId(m, i) == VmId(n, j)
    requires m != "" && n != "" && m[|m| - 1] != '-' && n[|n| - 1] != '-'
    ensures |m| == |n|
  {
    LastDash(m, i);
    LastDash(n, j);
    var id, p := VmId(m, i), |m| + if i < 0 then 1 else 0;
    var q := |n| + if j < 0 then 1 else 0;
    assert p == q;
    assert id[|n| - 1] == n[|n| - 1] && id[|m| - 1] == m[|m| - 1];
    assert id[|m|] == '-' && id[|n|] == '-';
  }

  lemma Parts(name: string, i: int)
    ensures VmId(name, i)[..|name|] == name && VmId(name, i)[|name| + 1..] == Itoa(i)
  {
  }

  /** Group and index can be read off an id, as long as names do not end in a dash. */
  lemma VmIdInjective(m: string, i: int, n: string, j: int)
    requires VmId(m, i) == VmId(n, j)
    requires m != "" && n != "" && m[|m| - 1] != '-' && n[|n| - 1] != '-'
    ensures m == n && i == j
  {
    SameLength(m, i, n, j);
    Parts(m, i);
    Parts(n, j);
    ItoaInjective(i, j);
  }

  // ---------- the stored objects ----------

  /** A sub-group record; its size is kept as the text of the request. */
  datatype Group = Group(id: string, sizeText: string, vmIds: seq<string>)

  /** Group records under the requested names; VM records with the group they belong to. */
  datatype Store = Store(groups: map<string, Group>, vms: map<string, string>)

  /** How many VMs a request asks for. */
  function Size(sizeText: string): (k: nat)
    ensures k >= 1
  {
    if AtoiFails(sizeText) || Atoi(sizeText) < 1 then 1 else Atoi(sizeText)
  }

  function StartIndex(s: Store, name: string): int {
    if name in s.groups then Atoi(s.groups[name].sizeText) + 1 else 1
  }

  function NewIds(s: Store, name: string, sizeText: string): seq<string> {
    Ids(ToLower(name), StartIndex(s, name), Size(sizeText))
  }

  /** A group of `v` VMs grown by `k`. */
  function Grown(g: Group, v: int, k: nat): Group {
    Group(g.id, Itoa(v + k), g.vmIds + Ids(g.id, v + 1, k))
  }

  /** A scale-out adds the ids after the recorded size. */
  function Extended(g: Group, sizeText: string): Group {
    Grown(g, Atoi(g.sizeText), Size(sizeText))
  }

  /** A new record keeps the text of its size as it came. */
  function NewGroup(name: string, sizeText: string): Group {
    Group(ToLower(name), sizeText, Ids(ToLower(name), 1, Size(sizeText)))
  }

  /** The group record after a request. */
  function GroupAfter(s: Store, name: string, sizeText: string): Group {
    if name in s.groups then Extended(s.groups[name], sizeText) else NewGroup(name, sizeText)
  }

  /** VM records for the new ids, replacing any that were there. */
  function Recorded(vms: map<string, string>, ids: seq<string>, group: string): (r: map<string, string>)
    ensures forall id :: id in r <==> id in vms || id in ids
    ensures forall id :: id in r ==> r[id] == if id in ids then group else vms[id]
  {
    if ids == [] then vms else Recorded(vms, ids[..|ids| - 1], group)[ids[|ids| - 1] := group]
  }

  lemma RecordedNext(vms: map<string, string>, name: string, start: int, k: nat)
    ensures Recorded(vms, Ids(name, start, k + 1), name) == Recorded(vms, Ids(name, start, k), name)[VmId(name, start + k) := name]
  {
    assert Ids(name, start, k + 1)[..k] == Ids(name, start, k);
  }

  /** A request is refused if its name is not valid, as it came or once lowered, or if it must not extend an existing
      group. */
  predicate Refused(s: Store, name: string, extend: bool) {
    !IsValidName(name) || !IsValidName(ToLower(name)) || (name in s.groups && !extend)
  }

  function Created(s: Store, name: string, sizeText: string, extend: bool): Store {
    if Refused(s, name, extend) then s
    else Store(s.groups[name := GroupAfter(s, name, sizeText)], Recorded(s.vms, NewIds(s, name, sizeText), ToLower(name)))
  }

  /** Some VM is listed for this group name, compared without regard to case. */
  predicate HasVm(vms: map<string, string>, name: string) {
    exists id :: id in vms && EqualFold(name, vms[id])
  }

  function Deleted(s: Store, vm: string): (t: Store)
    ensures t.vms == s.vms - {vm}
    ensures forall name :: name in t.groups <==> name in s.groups && (vm !in s.vms || HasVm(t.vms, name))
    ensures forall name :: name in t.groups ==> t.groups[name] == s.groups[name]
  {
    if vm !in s.vms then assert s.vms == s.vms - {vm}; s
    else Store(map name | name in s.groups && HasVm(s.vms - {vm}, name) :: s.groups[name], s.vms - {vm})
  }

  // ---------- the operations ----------

  class Mci {
    var groups: map<string, Group>
    var vms: map<string, string>

    function State(): Store
      reads this
    {
      Store(groups, vms)
    }

    /** `CreateMciGroupVm`; the sum of the sizes of a group is taken to fit 64 bits. */
    method CreateMciGroupVm(name: string, sizeText: string, newSubGroup: bool) returns (ok: bool)
      requires StartIndex(State(), name) + Size(sizeText) <= INT64_MAX
      modifies this
      ensures ok <==> IsValidName(name) && IsValidName(ToLower(name)) && (name in old(groups) ==> newSubGroup)
      ensures State() == Created(old(State()), name, sizeText, newSubGroup)
    {
      if !IsValidName(name) {
        return false;
      }
      var subGroupSize := if AtoiFails(sizeText) then 1 else Atoi(sizeText);
      if subGroupSize < 1 {
        subGroupSize := 1;
      }
      var tentativeVmId := ToLower(name);
      if !IsValidName(tentativeVmId) {
        return false;
      }
      if name in groups && !newSubGroup {
        return false;
      }
      AddVms(name, tentativeVmId, sizeText, subGroupSize);
      return true;
    }

    /** The group record, new or extended, and the VM records. */
    method AddVms(name: string, tentativeVmId: string, sizeText: string, subGroupSize: nat)
      requires StartIndex(State(), name) + Size(sizeText) <= INT64_MAX
      requires tentativeVmId == ToLower(name) && subGroupSize == Size(sizeText)
      modifies this
      ensures groups == old(groups)[name := GroupAfter(old(State()), name, sizeText)]
      ensures vms == Recorded(old(vms), NewIds(old(State()), name, sizeText), tentativeVmId)
    {
      var group, vmStartIndex := NextGroup(name, tentativeVmId, sizeText, subGroupSize);
      groups := groups[name := group];
      RecordVms(tentativeVmId, vmStartIndex, subGroupSize);
    }

    method NextGroup(name: string, tentativeVmId: string, sizeText: string, subGroupSize: nat)
        returns (group: Group, vmStartIndex: int)
      requires StartIndex(State(), name) + Size(sizeText) <= INT64_MAX
      requires tentativeVmId == ToLower(name) && subGroupSize == Size(sizeText)
      ensures group == GroupAfter(State(), name, sizeText) && vmStartIndex == StartIndex(State(), name)
    {
      group, vmStartIndex := Group(tentativeVmId, sizeText, []), 1;
      assert [] + Ids(tentativeVmId, 1, subGroupSize) == Ids(tentativeVmId, 1, subGroupSize);
      if name in groups {
        group := groups[name];
        var existingVmSize := Atoi(group.sizeText);
        group := group.(sizeText := Itoa(existingVmSize + subGroupSize));
        vmStartIndex := existingVmSize + 1;
      }
      group := ExtendIds(group, vmStartIndex, subGroupSize);
    }

    /** The loop that lists the ids, shared with `createSubGroup`. */
    method ExtendIds(group: Group, start: int, count: nat) returns (group': Group)
      ensures group' == group.(vmIds := group.vmIds + Ids(group.id, start, count))
    {
      group' := group;
      var i := start;
      while i < count + start
        invariant start <= i <= start + count
        invariant group' == group.(vmIds := group.vmIds + Ids(group.id, start, i - start))
      {
        group' := group'.(vmIds := group'.vmIds + [VmId(group.id, i)]);
        assert Ids(group.id, start, i + 1 - start) == Ids(group.id, start, i - start) + [VmId(group.id, i)];
        i := i + 1;
      }
    }

    method RecordVms(name: string, start: int, count: nat)
      modifies this`vms
      ensures vms == Recorded(old(vms), Ids(name, start, count), name)
    {
      var i := start;
      ghost var was := vms;
      while i <= count + start
        invariant start <= i <= start + count
        invariant vms == Recorded(was, Ids(name, start, i - start), name)
      {
        if i == count + start {
          break;
        }
        RecordedNext(was, name, start, i - start);
        vms := vms[VmId(name, i) := name];
        i := i + 1;
      }
    }

    /** `DelMciVm`, once the VM has been terminated: its record goes, and with it every group record left
        without a VM. */
    method DelMciVm(vm: string) returns (ok: bool)
      modifies this
      ensures ok <==> vm in old(vms)
      ensures State() == Deleted(old(State()), vm)
    {
      if vm !in vms {
        return false;
      }
      vms := vms - {vm};
      var subGroup := groups.Keys;
      ghost var was := groups;
      while subGroup != {}
        invariant subGroup <= was.Keys
        invariant forall name :: name in groups <==> name in was && (name in subGroup || HasVm(vms, name))
        invariant forall name :: name in groups ==> groups[name] == was[name]
        invariant vms == old(vms) - {vm}
      {
        var v :| v in subGroup;
        var listed := ListVmBySubGroup(v);
        if !listed {
          groups := groups - {v};
        }
        subGroup := subGroup - {v};
      }
      assert groups == Deleted(old(State()), vm).groups;
      return true;
    }

    method ListVmBySubGroup(name: string) returns (listed: bool)
      ensures listed <==> HasVm(vms, name)
    {
      var todo := vms.Keys;
      while todo != {}
        invariant todo <= vms.Keys
        invariant forall id :: id in vms && id !in todo ==> !EqualFold(name, vms[id])
      {
        var id :| id in todo;
        if EqualFold(name, vms[id]) {
          return true;
        }
        todo := todo - {id};
      }
      return false;
    }
  }
}
