/** Whether VM ids stay unique over sequences of group creations, scale-outs and VM deletions. */
module SubGroupRuns {
  import opened Text
  import opened SubGroups

  datatype Step = Create(name: string, sizeText: string, extend: bool) | Delete(vm: string)

  function Next(s: Store, st: Step): Store {
    match st
    case Create(name, sizeText, extend) => Created(s, name, sizeText, extend)
    case Delete(vm) => Deleted(s, vm)
  }

  /** The name is its own id, a new group's size is a number of at least one, and the total fits 64 bits. */
  predicate IsProper(s: Store, st: Step) {
    st.Create? ==>
      && ToLower(st.name) == st.name && StartIndex(s, st.name) + Size(st.sizeText) <= INT64_MAX
      && (st.name !in s.groups ==> !AtoiFails(st.sizeText) && Atoi(st.sizeText) >= 1)
  }

  ghost predicate IsEnded(name: string) {
    name != "" && name[|name| - 1] != '-'
  }

  /** The record lists exactly the ids from 1 to its size. */
  ghost predicate IsCounted(g: Group, name: string) {
    && IsEnded(name) && g.id == name
    && Atoi(g.sizeText) >= 1 && g.vmIds == Ids(name, 1, Atoi(g.sizeText))
  }

  /** A VM record carries one of the ids of its group. */
  ghost predicate IsMember(s: Store, vm: string, group: string) {
    group in s.groups && exists i: nat :: 1 <= i <= Atoi(s.groups[group].sizeText) && vm == VmId(group, i)
  }

  ghost predicate Inv(s: Store) {
    && (forall name :: name in s.groups ==> IsCounted(s.groups[name], name))
    && (forall vm :: vm in s.vms ==> IsMember(s, vm, s.vms[vm]))
  }

  lemma ValidEnd(name: string)
    requires IsValidName(name)
    ensures IsEnded(name)
  {
    assert LowerChar('-') == '-';
  }

  lemma NotAmong(name: string, index: int, other: string, count: nat)
    requires IsEnded(name) && IsEnded(other) && (name == other ==> index > count)
    ensures VmId(name, index) !in Ids(other, 1, count)
  {
    var ids := Ids(other, 1, count);
    forall a | 0 <= a < count ensures ids[a] != VmId(name, index) {
      if VmId(other, 1 + a) == VmId(name, index) { VmIdInjective(other, 1 + a, name, index); }
    }
  }

  lemma Among(name: string, i: nat, count: nat)
    requires 1 <= i <= count
    ensures VmId(name, i) in Ids(name, 1, count)
  {
    assert Ids(name, 1, count)[i - 1] == VmId(name, i);
  }

  /** The new ids of a proper request come after every earlier one of the group. */
  lemma NewIdsFresh(s: Store, name: string, index: int)
    requires Inv(s) && IsEnded(name) && index >= StartIndex(s, name)
    ensures VmId(name, index) !in s.vms
    ensures forall n :: n in s.groups ==> VmId(name, index) !in s.groups[n].vmIds
  {
    var id := VmId(name, index);
    forall n | n in s.groups ensures id !in s.groups[n].vmIds {
      assert IsCounted(s.groups[n], n);
      NotAmong(name, index, n, Atoi(s.groups[n].sizeText));
    }
    if id in s.vms {
      var g := s.vms[id];
      assert IsMember(s, id, g) && IsCounted(s.groups[g], g);
      var i: nat :| 1 <= i <= Atoi(s.groups[g].sizeText) && id == VmId(g, i);
      Among(g, i, Atoi(s.groups[g].sizeText));
    }
  }

  lemma IdsAppend(name: string, start: int, a: nat, b: nat)
    ensures Ids(name, start, a) + Ids(name, start + a, b) == Ids(name, start, a + b)
  {
  }

  lemma GrownCounted(g: Group, name: string, v: nat, k: nat)
    requires g.vmIds == Ids(name, 1, v) && g.id == name
    ensures Grown(g, v, k).vmIds == Ids(name, 1, v + k)
  {
    IdsAppend(name, 1, v, k);
  }

  lemma CountedExtended(g: Group, name: string, sizeText: string)
    requires IsCounted(g, name) && Atoi(g.sizeText) + Size(sizeText) <= INT64_MAX
    ensures IsCounted(Extended(g, sizeText), name)
    ensures Atoi(Extended(g, sizeText).sizeText) == Atoi(g.sizeText) + Size(sizeText)
  {
    var v, k := Atoi(g.sizeText), Size(sizeText);
    GrownSize(g, v, k);
    GrownCounted(g, name, v, k);
  }

  lemma CountedAfter(s: Store, name: string, sizeText: string)
    requires Inv(s) && IsProper(s, Create(name, sizeText, true)) && IsEnded(name)
    ensures IsCounted(GroupAfter(s, name, sizeText), name)
    ensures Atoi(GroupAfter(s, name, sizeText).sizeText) == StartIndex(s, name) + Size(sizeText) - 1
  {
    if name in s.groups { CountedExtended(s.groups[name], name, sizeText); }
  }

  lemma NewMember(s: Store, t: Store, name: string, sizeText: string, vm: string)
    requires Inv(s) && IsProper(s, Create(name, sizeText, true)) && vm in NewIds(s, name, sizeText) && IsEnded(name)
    requires name in t.groups && t.groups[name] == GroupAfter(s, name, sizeText)
    ensures IsMember(t, vm, name)
  {
    var ids := NewIds(s, name, sizeText);
    var k :| 0 <= k < |ids| && ids[k] == vm;
    CountedAfter(s, name, sizeText);
    assert vm == VmId(name, StartIndex(s, name) + k);
    assert name in s.groups ==> IsCounted(s.groups[name], name);
  }

  lemma OldMember(s: Store, t: Store, name: string, vm: string, group: string)
    requires IsMember(s, vm, group) && name in t.groups && t.groups == s.groups[name := t.groups[name]]
    requires name in s.groups ==> Atoi(s.groups[name].sizeText) <= Atoi(t.groups[name].sizeText)
    ensures IsMember(t, vm, group)
  {
  }

  lemma InvCreate(s: Store, st: Step)
    requires Inv(s) && st.Create? && IsProper(s, st) && !Refused(s, st.name, st.extend)
    ensures Inv(Next(s, st))
  {
    var t, name := Next(s, st), st.name;
    ValidEnd(name);
    CountedAfter(s, name, st.sizeText);
    assert name in s.groups ==> IsCounted(s.groups[name], name);
    forall vm | vm in t.vms ensures IsMember(t, vm, t.vms[vm]) {
      if vm in NewIds(s, name, st.sizeText) {
        NewMember(s, t, name, st.sizeText, vm);
      } else {
        OldMember(s, t, name, vm, s.vms[vm]);
      }
    }
  }

  lemma InvDelete(s: Store, vm: string)
    requires Inv(s)
    ensures Inv(Deleted(s, vm))
  {
    var t := Deleted(s, vm);
    forall v | v in t.vms ensures IsMember(t, v, t.vms[v]) {
      assert IsMember(s, v, s.vms[v]);
      assert HasVm(t.vms, t.vms[v]);
    }
  }

  ghost predicate IsProperRun(s: Store, steps: seq<Step>, t: Store)
    decreases |steps|
  {
    if steps == [] then t == s
    else IsProper(s, steps[0]) && IsProperRun(Next(s, steps[0]), steps[1..], t)
  }

  lemma InvNext(s: Store, st: Step)
    requires Inv(s) && IsProper(s, st)
    ensures Inv(Next(s, st))
  {
    if st.Delete? { InvDelete(s, st.vm); }
    else if !Refused(s, st.name, st.extend) { InvCreate(s, st); }
  }

  lemma {:induction false} InvRun(s: Store, steps: seq<Step>, t: Store)
    requires Inv(s) && IsProperRun(s, steps, t)
    ensures Inv(t)
    decreases |steps|
  {
    if steps != [] {
      InvNext(s, steps[0]);
      InvRun(Next(s, steps[0]), steps[1..], t);
    }
  }

  // ---------- main results ----------

  const NOTHING := Store(map[], map[])

  lemma FreshIds(s: Store, name: string, sizeText: string)
    requires Inv(s) && IsEnded(name) && ToLower(name) == name
    ensures forall id :: id in NewIds(s, name, sizeText) ==> id !in s.vms
    ensures forall id, n :: id in NewIds(s, name, sizeText) && n in s.groups ==> id !in s.groups[n].vmIds
  {
    var ids := NewIds(s, name, sizeText);
    forall id | id in ids
      ensures id !in s.vms && forall n :: n in s.groups ==> id !in s.groups[n].vmIds
    {
      var k :| 0 <= k < |ids| && ids[k] == id;
      assert id == VmId(name, StartIndex(s, name) + k);
      NewIdsFresh(s, name, StartIndex(s, name) + k);
    }
  }

  /** After any run of proper requests and deletions from an empty MCI, every group lists the ids from 1 to its
      size, and the ids the next proper request adds are new: to every VM record, and to every id a living group
      has ever listed, whether its VM has been deleted or not. */
  lemma IdsNeverCollide(steps: seq<Step>, s: Store, st: Step)
    requires IsProperRun(NOTHING, steps, s) && st.Create? && IsProper(s, st) && !Refused(s, st.name, st.extend)
    ensures forall name :: name in s.groups ==> IsCounted(s.groups[name], name)
    ensures forall id :: id in NewIds(s, st.name, st.sizeText) ==> id !in s.vms
    ensures forall id, n :: id in NewIds(s, st.name, st.sizeText) && n in s.groups ==> id !in s.groups[n].vmIds
  {
    InvRun(NOTHING, steps, s);
    ValidEnd(st.name);
    FreshIds(s, st.name, st.sizeText);
  }

  /** No group lists an id twice. */
  lemma NoIdTwice(steps: seq<Step>, s: Store, name: string)
    requires IsProperRun(NOTHING, steps, s) && name in s.groups
    ensures NoneTwice(s.groups[name].vmIds)
  {
    InvRun(NOTHING, steps, s);
    assert IsCounted(s.groups[name], name);
    IdsDistinct(name, 1, Atoi(s.groups[name].sizeText));
  }

  ghost predicate NoneTwice(ids: seq<string>) {
    forall a, b :: 0 <= a < b < |ids| ==> ids[a] != ids[b]
  }

  lemma SameName(name: string, i: int, j: int)
    requires VmId(name, i) == VmId(name, j)
    ensures i == j
  {
    Parts(name, i);
    Parts(name, j);
    ItoaInjective(i, j);
  }

  lemma OtherIndex(name: string, i: int, j: int)
    requires i != j
    ensures VmId(name, i) != VmId(name, j)
  {
    if VmId(name, i) == VmId(name, j) { SameName(name, i, j); }
  }

  lemma IdsDistinct(name: string, start: int, count: nat)
    ensures NoneTwice(Ids(name, start, count))
  {
    forall a: nat, b: nat | a < b < count ensures Ids(name, start, count)[a] != Ids(name, start, count)[b] {
      OtherIndex(name, start + a, start + b);
    }
  }

  // ---------- sizes that do not parse ----------

  function Sum(ks: seq<nat>): nat {
    if ks == [] then 0 else Sum(ks[..|ks| - 1]) + ks[|ks| - 1]
  }

  /** A group of recorded size `v` grown again and again. */
  function GrownBy(g: Group, v: int, ks: seq<nat>): Group {
    if ks == [] then g else Grown(GrownBy(g, v, ks[..|ks| - 1]), v + Sum(ks[..|ks| - 1]), ks[|ks| - 1])
  }

  lemma GrownIds(g: Group, id: string, m: nat, v: int, a: nat, b: nat)
    requires g.id == id && g.vmIds == Ids(id, 1, m) + Ids(id, v + 1, a)
    ensures Grown(g, v + a, b).vmIds == Ids(id, 1, m) + Ids(id, v + 1, a + b)
  {
    IdsAppend(id, v + 1, a, b);
    Associate(Ids(id, 1, m), Ids(id, v + 1, a), Ids(id, v + 1 + a, b));
  }

  lemma Associate(a: seq<string>, b: seq<string>, c: seq<string>)
    ensures a + b + c == a + (b + c)
  {
  }

  lemma {:induction false} GrownByIds(g: Group, id: string, m: nat, v: int, ks: seq<nat>)
    requires g.id == id && g.vmIds == Ids(id, 1, m)
    ensures GrownBy(g, v, ks).id == id && GrownBy(g, v, ks).vmIds == Ids(id, 1, m) + Ids(id, v + 1, Sum(ks))
    decreases |ks|
  {
    if ks == [] {
      assert Ids(id, v + 1, 0) == [];
    } else {
      GrownByIds(g, id, m, v, ks[..|ks| - 1]);
      GrownIds(GrownBy(g, v, ks[..|ks| - 1]), id, m, v, Sum(ks[..|ks| - 1]), ks[|ks| - 1]);
    }
  }

  lemma TwoRanges(id: string, m: nat, v: int, k: nat)
    requires m >= 1 && (v >= 1 ==> m <= v) && (v < 1 ==> m == 1)
    ensures NoneTwice(Ids(id, 1, m) + Ids(id, v + 1, k)) <==> v >= 1 || v + k < 1
  {
    var front, back := Ids(id, 1, m), Ids(id, v + 1, k);
    var ids := front + back;
    if v < 1 <= v + k {
      assert ids[0] == VmId(id, 1) && ids[m - v] == back[-v] == VmId(id, 1);
    } else {
      forall a, b | 0 <= a < b < |ids| ensures ids[a] != ids[b] {
        var i := if a < m then 1 + a else v + 1 + (a - m);
        var j := if b < m then 1 + b else v + 1 + (b - m);
        assert ids[a] == VmId(id, i) && ids[b] == VmId(id, j);
        OtherIndex(id, i, j);
      }
    }
  }

  /** The ids of a group that lists `m` and records `v`, after growing. */
  lemma GrownDistinctIff(g: Group, m: nat, v: int, ks: seq<nat>)
    requires g.vmIds == Ids(g.id, 1, m) && m >= 1 && (v >= 1 ==> m <= v) && (v < 1 ==> m == 1)
    ensures NoneTwice(GrownBy(g, v, ks).vmIds) <==> v >= 1 || v + Sum(ks) < 1
  {
    GrownByIds(g, g.id, m, v, ks);
    TwoRanges(g.id, m, v, Sum(ks));
  }

  /** What the texts of the sizes count for. */
  function Sizes(texts: seq<string>): (ks: seq<nat>)
    ensures |ks| == |texts| && forall i :: 0 <= i < |texts| ==> ks[i] == Size(texts[i])
  {
    seq(|texts|, i requires 0 <= i < |texts| => Size(texts[i]))
  }

  /** A group asked for with one size, then scaled out by others. */
  function ScaledOut(name: string, first: string, texts: seq<string>): Group {
    if texts == [] then NewGroup(name, first) else Extended(ScaledOut(name, first, texts[..|texts| - 1]), texts[|texts| - 1])
  }

  /** A record of this size. */
  ghost predicate HasSize(g: Group, v: int) {
    Atoi(g.sizeText) == v
  }

  lemma GrownSize(g: Group, v: int, k: nat)
    requires -INT64_MAX - 1 <= v && v + k <= INT64_MAX
    ensures HasSize(Grown(g, v, k), v + k)
  {
    AtoiItoa(v + k);
  }

  lemma ExtendedIsGrown(g: Group, v: int, sizeText: string)
    requires HasSize(g, v)
    ensures Extended(g, sizeText) == Grown(g, v, Size(sizeText))
  {
  }

  /** The recorded size is read back as the sum of all. */
  lemma {:induction false} ScaledOutIsGrown(name: string, first: string, v: int, texts: seq<string>)
    requires v == Atoi(first) && v + Sum(Sizes(texts)) <= INT64_MAX
    ensures ScaledOut(name, first, texts) == GrownBy(NewGroup(name, first), v, Sizes(texts))
    ensures HasSize(ScaledOut(name, first, texts), v + Sum(Sizes(texts)))
    decreases |texts|
  {
    if texts != [] {
      var init, text := texts[..|texts| - 1], texts[|texts| - 1];
      assert Sizes(texts)[..|texts| - 1] == Sizes(init);
      ScaledOutIsGrown(name, first, v, init);
      var g, n := ScaledOut(name, first, init), v + Sum(Sizes(init));
      ExtendedIsGrown(g, n, text);
      GrownSize(g, n, Size(text));
    }
  }

  lemma SizeOf(sizeText: string)
    ensures if Atoi(sizeText) >= 1 then Size(sizeText) <= Atoi(sizeText) else Size(sizeText) == 1
  {
  }

  /** The ids of a group scaled out by any sizes are distinct if and only if its first size, as a number, was at
      least one, or so far below that the scale-outs together have not come back up to one. */
  lemma DistinctIff(name: string, first: string, v: int, texts: seq<string>)
    requires v == Atoi(first) && v + Sum(Sizes(texts)) <= INT64_MAX
    ensures NoneTwice(ScaledOut(name, first, texts).vmIds) <==> v >= 1 || v + Sum(Sizes(texts)) < 1
  {
    ScaledOutIsGrown(name, first, v, texts);
    SizeOf(first);
    GrownDistinctIff(NewGroup(name, first), Size(first), v, Sizes(texts));
  }

  // ---------- names that lower to the same id ----------

  ghost predicate IsIdOf(id: string, group: string) {
    exists i :: id == VmId(group, i)
  }

  /** What holds of every group, however it was named and sized. */
  ghost predicate IsGroupOf(g: Group, name: string) {
    && g.id == ToLower(name) && IsEnded(g.id) && VmId(g.id, 1) in g.vmIds
    && forall id :: id in g.vmIds ==> IsIdOf(id, g.id)
  }

  ghost predicate WeakInv(s: Store) {
    forall name :: name in s.groups ==> IsGroupOf(s.groups[name], name)
  }

  lemma IdsAreIds(name: string, start: int, count: nat)
    ensures forall id :: id in Ids(name, start, count) ==> IsIdOf(id, name)
  {
    var ids := Ids(name, start, count);
    forall id | id in ids ensures IsIdOf(id, name) {
      var k :| 0 <= k < count && ids[k] == id;
      assert id == VmId(name, start + k);
    }
  }

  lemma ExtendedIsGroup(g: Group, name: string, sizeText: string)
    requires IsGroupOf(g, name)
    ensures IsGroupOf(Extended(g, sizeText), name)
  {
    IdsAreIds(g.id, Atoi(g.sizeText) + 1, Size(sizeText));
  }

  lemma NewIsGroup(name: string, sizeText: string)
    requires IsEnded(ToLower(name))
    ensures IsGroupOf(NewGroup(name, sizeText), name)
  {
    IdsAreIds(ToLower(name), 1, Size(sizeText));
    assert NewGroup(name, sizeText).vmIds[0] == VmId(ToLower(name), 1);
  }

  lemma WeakInvNext(s: Store, st: Step)
    requires WeakInv(s)
    ensures WeakInv(Next(s, st))
  {
    if st.Create? && !Refused(s, st.name, st.extend) {
      ValidEnd(ToLower(st.name));
      if st.name in s.groups {
        ExtendedIsGroup(s.groups[st.name], st.name, st.sizeText);
      } else {
        NewIsGroup(st.name, st.sizeText);
      }
    }
  }

  function Run(s: Store, steps: seq<Step>): Store
    decreases |steps|
  {
    if steps == [] then s else Run(Next(s, steps[0]), steps[1..])
  }

  lemma {:induction false} WeakInvRun(s: Store, steps: seq<Step>)
    requires WeakInv(s)
    ensures WeakInv(Run(s, steps))
    decreases |steps|
  {
    if steps != [] {
      WeakInvNext(s, steps[0]);
      WeakInvRun(Next(s, steps[0]), steps[1..]);
    }
  }

  ghost predicate Share(g: Group, h: Group) {
    exists id :: id in g.vmIds && id in h.vmIds
  }

  lemma SameGroup(id: string, m: string, n: string)
    requires IsEnded(m) && IsEnded(n) && IsIdOf(id, m) && IsIdOf(id, n)
    ensures m == n
  {
    var i :| id == VmId(m, i);
    var j :| id == VmId(n, j);
    VmIdInjective(m, i, n, j);
  }

  lemma ShareIff(g: Group, name: string, h: Group, other: string)
    requires IsGroupOf(g, name) && IsGroupOf(h, other)
    ensures Share(g, h) <==> g.id == h.id
  {
    if id :| id in g.vmIds && id in h.vmIds { SameGroup(id, g.id, h.id); }
    if g.id == h.id { assert VmId(g.id, 1) in g.vmIds && VmId(g.id, 1) in h.vmIds; }
  }

  /** After any run of requests and deletions, proper or not, a new group takes an id that another group lists if and
      only if its name lowers to the id of that group, as "Web" does to that of "web". */
  lemma NewGroupCollidesIff(steps: seq<Step>, name: string, sizeText: string, other: string)
    requires var s := Run(NOTHING, steps);
             name !in s.groups && !Refused(s, name, false) && other in s.groups
    ensures var s := Run(NOTHING, steps);
            Share(Created(s, name, sizeText, false).groups[name], s.groups[other]) <==> ToLower(name) == ToLower(other)
  {
    var s := Run(NOTHING, steps);
    WeakInvRun(NOTHING, steps);
    ValidEnd(ToLower(name));
    NewIsGroup(name, sizeText);
    assert IsGroupOf(s.groups[other], other);
    ShareIff(NewGroup(name, sizeText), name, s.groups[other], other);
  }
}
