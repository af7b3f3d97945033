/** The keys under which MCIs, VMs and sub-groups are stored (src/core/common/utility.go). */
module StoreKeys {
  import opened Text

  /** `GenMciKey`: of a VM, of an MCI, or of a namespace, by the last id given. */
  function MciKey(ns: string, mci: string, vm: string): string {
    if vm != "" then "/ns/" + ns + "/mci/" + mci + "/vm/" + vm
    else if mci != "" then "/ns/" + ns + "/mci/" + mci
    else if ns != "" then "/ns/" + ns
    else ""
  }

  /** `GenMciSubGroupKey`. */
  function SubGroupKey(ns: string, mci: string, group: string): string {
    "/ns/" + ns + "/mci/" + mci + "/subgroup/" + group
  }

  // ---------- reading a key ----------

  lemma {:induction false} SplitWord(s: string, sep: char)
    requires sep !in s
    ensures Split(s, sep) == [s]
  {
    if s != "" {
      SplitWord(s[1..], sep);
      assert Split(s, sep) == [[s[0]] + s[1..]] + [];
      assert [s[0]] + s[1..] == s;
    }
  }

  /** Joining and splitting again gives back the parts, if none contains the separator. */
  lemma {:induction false} SplitJoin(parts: seq<string>, sep: char)
    requires |parts| >= 1 && forall i :: 0 <= i < |parts| ==> sep !in parts[i]
    ensures Split(Join(parts, sep), sep) == parts
  {
    SplitWord(parts[0], sep);
    if |parts| == 1 {
      assert parts == [parts[0]];
    } else {
      SplitJoin(parts[1..], sep);
      SplitConcat(parts[0], Join(parts[1..], sep), sep);
      assert parts == [parts[0]] + parts[1..];
    }
  }

  predicate IsPlain(id: string) {
    '/' !in id
  }

  lemma JoinFive(ns: string, mci: string)
    ensures Join(["", "ns", ns, "mci", mci], '/') == "/ns/" + ns + "/mci/" + mci
    ensures Join(["", "ns", ns], '/') == "/ns/" + ns
  {
    var parts := ["", "ns", ns, "mci", mci];
    assert Join(parts[4..], '/') == mci;
    assert parts[3..][1..] == parts[4..];
    assert Join(parts[3..], '/') == "mci/" + mci;
    assert parts[2..][1..] == parts[3..];
    assert Join(parts[2..], '/') == ns + "/mci/" + mci;
    assert parts[1..][1..] == parts[2..];
    assert Join(parts[1..], '/') == "ns/" + ns + "/mci/" + mci;
    var three := ["", "ns", ns];
    assert Join(three[2..], '/') == ns;
    assert three[1..][1..] == three[2..];
    assert Join(three[1..], '/') == "ns/" + ns;
  }

  lemma {:induction false} JoinAppend(a: seq<string>, b: seq<string>, sep: char)
    requires |a| >= 1 && |b| >= 1
    ensures Join(a + b, sep) == Join(a, sep) + [sep] + Join(b, sep)
  {
    if |a| == 1 {
      assert (a + b)[1..] == b;
    } else {
      JoinAppend(a[1..], b, sep);
      assert (a + b)[1..] == a[1..] + b;
    }
  }

  /** The key of anything inside an MCI, by its parts. */
  lemma KeyParts(ns: string, mci: string, kind: string, id: string)
    requires IsPlain(ns) && IsPlain(mci) && IsPlain(kind) && IsPlain(id)
    ensures Split("/ns/" + ns + "/mci/" + mci + "/" + kind + "/" + id, '/') == ["", "ns", ns, "mci", mci, kind, id]
  {
    var head, tail := ["", "ns", ns, "mci", mci], [kind, id];
    JoinFive(ns, mci);
    JoinAppend(head, tail, '/');
    assert Join(tail[1..], '/') == id;
    SplitJoin(head + tail, '/');
    assert "/ns/" + ns + "/mci/" + mci + ['/'] + (kind + "/" + id) == "/ns/" + ns + "/mci/" + mci + "/" + kind + "/" + id;
    assert Join(head + tail, '/') == "/ns/" + ns + "/mci/" + mci + "/" + kind + "/" + id;
  }

  // ---------- main results ----------

  lemma VmKeyParts(ns: string, mci: string, vm: string)
    requires IsPlain(ns) && IsPlain(mci) && IsPlain(vm) && vm != ""
    ensures Split(MciKey(ns, mci, vm), '/') == ["", "ns", ns, "mci", mci, "vm", vm]
  {
    KeyParts(ns, mci, "vm", vm);
    assert MciKey(ns, mci, vm) == "/ns/" + ns + "/mci/" + mci + "/" + "vm" + "/" + vm;
  }

  lemma GroupKeyParts(ns: string, mci: string, group: string)
    requires IsPlain(ns) && IsPlain(mci) && IsPlain(group)
    ensures Split(SubGroupKey(ns, mci, group), '/') == ["", "ns", ns, "mci", mci, "subgroup", group]
  {
    KeyParts(ns, mci, "subgroup", group);
    assert SubGroupKey(ns, mci, group) == "/ns/" + ns + "/mci/" + mci + "/" + "subgroup" + "/" + group;
  }

  lemma MciKeyParts(ns: string, mci: string)
    requires IsPlain(ns) && IsPlain(mci) && mci != ""
    ensures Split(MciKey(ns, mci, ""), '/') == ["", "ns", ns, "mci", mci]
  {
    JoinFive(ns, mci);
    SplitJoin(["", "ns", ns, "mci", mci], '/');
  }

  /** Ids without a slash are read off the key of a VM, and off that of a sub-group. */
  lemma KeysAreInjective(ns: string, mci: string, id: string, ns': string, mci': string, id': string)
    requires IsPlain(ns) && IsPlain(mci) && IsPlain(id) && IsPlain(ns') && IsPlain(mci') && IsPlain(id')
    ensures id != "" && id' != "" && MciKey(ns, mci, id) == MciKey(ns', mci', id') ==> ns == ns' && mci == mci' && id == id'
    ensures SubGroupKey(ns, mci, id) == SubGroupKey(ns', mci', id') ==> ns == ns' && mci == mci' && id == id'
  {
    if id != "" && id' != "" {
      VmKeyParts(ns, mci, id);
      VmKeyParts(ns', mci', id');
      SameParts(["", "ns", ns, "mci", mci, "vm", id], ["", "ns", ns', "mci", mci', "vm", id']);
    }
    GroupKeyParts(ns, mci, id);
    GroupKeyParts(ns', mci', id');
    SameParts(["", "ns", ns, "mci", mci, "subgroup", id], ["", "ns", ns', "mci", mci', "subgroup", id']);
  }

  lemma SameParts(a: seq<string>, b: seq<string>)
    requires |a| == |b| == 7
    ensures a == b ==> a[2] == b[2] && a[4] == b[4] && a[5] == b[5] && a[6] == b[6]
  {
  }

  /** The records of VMs, sub-groups and MCIs never share a key. */
  lemma KeysAreDisjoint(ns: string, mci: string, vm: string, ns': string, mci': string, group: string)
    requires IsPlain(ns) && IsPlain(mci) && IsPlain(vm) && IsPlain(ns') && IsPlain(mci') && IsPlain(group)
    requires vm != "" && mci != "" && mci' != ""
    ensures MciKey(ns, mci, vm) != SubGroupKey(ns', mci', group)
    ensures MciKey(ns, mci, vm) != MciKey(ns', mci', "") && MciKey(ns', mci', "") != SubGroupKey(ns, mci, group)
  {
    VmKeyParts(ns, mci, vm);
    GroupKeyParts(ns', mci', group);
    GroupKeyParts(ns, mci, group);
    MciKeyParts(ns', mci');
    SameParts(["", "ns", ns, "mci", mci, "vm", vm], ["", "ns", ns', "mci", mci', "subgroup", group]);
    assert "vm" != "subgroup" by { assert |"vm"| != |"subgroup"|; }
  }

  /** With a slash in an id, a key no longer says which MCI it belongs to. The functions that create the records
      refuse such ids first (`CheckString` admits letters, digits, '-' and '+' only); the keys rely on that. */
  lemma SlashCollides(n: string, m: string)
    ensures MciKey(n, m + "/vm/x", "y") == MciKey(n, m, "x/vm/y")
  {
    assert "/ns/" + n + "/mci/" + (m + "/vm/x") + "/vm/" + "y" == "/ns/" + n + "/mci/" + m + "/vm/" + "x/vm/y";
  }

  /** Without a VM the key is that of the MCI, and without an MCI that of the namespace. */
  lemma ShorterKeys(ns: string, mci: string)
    ensures mci != "" ==> MciKey(ns, mci, "") == "/ns/" + ns + "/mci/" + mci
    ensures ns != "" ==> MciKey(ns, "", "") == "/ns/" + ns
    ensures MciKey("", "", "") == ""
  {
  }
}
