/** Version numbers: the order of `CompareVersions` (src/core/common/utility.go) and the choice of a
    Kubernetes version with it (src/core/infra/provisioning.go). */
module Versions {
  import opened Text

  datatype Result<T> = Ok(value: T) | Err

  // ---------- the order ----------

  /** The numbers of a dotted version: parts that do not parse count as zero. */
  function Numbers(version: string): (ns: seq<int>)
    ensures |ns| == |Split(version, '.')| && forall i :: 0 <= i < |ns| ==> ns[i] == Atoi(Split(version, '.')[i])
  {
    var parts := Split(version, '.');
    seq(|parts|, i requires 0 <= i < |parts| => Atoi(parts[i]))
  }

  /** The numbers go on with zeros for ever. */
  function At(v: seq<int>, i: nat): int {
    if i < |v| then v[i] else 0
  }

  ghost predicate SameBefore(v: seq<int>, w: seq<int>, n: nat) {
    forall i: nat :: i < n ==> At(v, i) == At(w, i)
  }

  /** Lexicographic order. */
  ghost predicate Less(v: seq<int>, w: seq<int>) {
    exists n: nat :: SameBefore(v, w, n) && At(v, n) < At(w, n)
  }

  ghost predicate Same(v: seq<int>, w: seq<int>) {
    forall i: nat :: At(v, i) == At(w, i)
  }

  ghost function Order(v: seq<int>, w: seq<int>): int {
    if Less(v, w) then -1 else if Less(w, v) then 1 else 0
  }

  /** A missing part is treated as zero. */
  method PartAt(ghost version: string, parts: seq<string>, i: nat) returns (n: int)
    requires parts == Split(version, '.')
    ensures n == At(Numbers(version), i)
  {
    n := 0;
    if i < |parts| {
      n := Atoi(parts[i]);
    }
  }

  method CompareVersions(version1: string, version2: string) returns (r: int)
    ensures r == Order(Numbers(version1), Numbers(version2))
  {
    var v1Parts, v2Parts := Split(version1, '.'), Split(version2, '.');
    ghost var v, w := Numbers(version1), Numbers(version2);
    var maxLength := |v1Parts|;
    if |v2Parts| > maxLength {
      maxLength := |v2Parts|;
    }
    for i := 0 to maxLength
      invariant SameBefore(v, w, i)
    {
      var v1 := PartAt(version1, v1Parts, i);
      var v2 := PartAt(version2, v2Parts, i);
      if v1 > v2 {
        Smaller(w, v, i);
        return 1;
      } else if v1 < v2 {
        Smaller(v, w, i);
        return -1;
      }
      SameNext(v, w, i);
    }
    EqualUpTo(v, w, maxLength);
    return 0;
  }

  lemma Smaller(v: seq<int>, w: seq<int>, n: nat)
    requires SameBefore(v, w, n) && At(v, n) < At(w, n)
    ensures Less(v, w) && !Less(w, v) && !Same(v, w)
    ensures Order(v, w) == -1 && Order(w, v) == 1
  {
    forall m: nat | SameBefore(w, v, m) ensures At(w, m) >= At(v, m) {
    }
  }

  lemma SameNext(v: seq<int>, w: seq<int>, n: nat)
    requires SameBefore(v, w, n) && At(v, n) == At(w, n)
    ensures SameBefore(v, w, n + 1)
  {
  }

  lemma EqualUpTo(v: seq<int>, w: seq<int>, n: nat)
    requires SameBefore(v, w, n) && n >= |v| && n >= |w|
    ensures Same(v, w) && !Less(v, w) && !Less(w, v) && Order(v, w) == 0
  {
    forall i: nat ensures At(v, i) == At(w, i) {
      if i < n { assert At(v, i) == At(w, i); }
    }
  }

  /** Any two versions are less, greater, or the same: a total preorder. */
  lemma Trichotomy(v: seq<int>, w: seq<int>)
    ensures Less(v, w) || Less(w, v) || Same(v, w)
    ensures Order(v, w) == 0 <==> Same(v, w)
    ensures !(Less(v, w) && Less(w, v)) && !(Less(v, w) && Same(v, w))
  {
    var n := |v| + |w|;
    if SameBefore(v, w, n) {
      EqualUpTo(v, w, n);
    } else {
      var i := FirstDifference(v, w, n);
      if At(v, i) < At(w, i) { Smaller(v, w, i); } else { Smaller(w, v, i); }
      assert !Same(v, w);
    }
  }

  lemma FirstDifference(v: seq<int>, w: seq<int>, n: nat) returns (i: nat)
    requires !SameBefore(v, w, n)
    ensures i < n && SameBefore(v, w, i) && At(v, i) != At(w, i)
  {
    i := 0;
    while At(v, i) == At(w, i)
      invariant i < n && SameBefore(v, w, i)
      decreases n - i
    {
      assert SameBefore(v, w, i + 1);
      i := i + 1;
    }
  }

  lemma Transitive(u: seq<int>, v: seq<int>, w: seq<int>)
    ensures Less(u, v) && Less(v, w) ==> Less(u, w)
    ensures Less(u, v) && Same(v, w) ==> Less(u, w)
    ensures Same(u, v) && Less(v, w) ==> Less(u, w)
    ensures Same(u, v) && Same(v, w) ==> Same(u, w)
  {
    if Less(u, v) && Less(v, w) {
      var m: nat :| SameBefore(u, v, m) && At(u, m) < At(v, m);
      var n: nat :| SameBefore(v, w, n) && At(v, n) < At(w, n);
      Chain(u, v, w, if m < n then m else n);
    } else if Less(u, v) && Same(v, w) {
      var m: nat :| SameBefore(u, v, m) && At(u, m) < At(v, m);
      Chain(u, v, w, m);
    } else if Same(u, v) && Less(v, w) {
      var n: nat :| SameBefore(v, w, n) && At(v, n) < At(w, n);
      Chain(u, v, w, n);
    }
  }

  lemma Chain(u: seq<int>, v: seq<int>, w: seq<int>, n: nat)
    requires SameBefore(u, v, n) && SameBefore(v, w, n)
    requires At(u, n) <= At(v, n) <= At(w, n) && At(u, n) < At(w, n)
    ensures Less(u, w)
  {
    assert SameBefore(u, w, n) by {
      forall i: nat | i < n ensures At(u, i) == At(w, i) {
        assert At(u, i) == At(v, i);
      }
    }
  }

  /** The first numbers decide, and if they are the same, the rest; against nothing, as against zeros. */
  lemma LessFirst(a: int, v: seq<int>, b: int, w: seq<int>)
    ensures Less([a] + v, [b] + w) <==> a < b || (a == b && Less(v, w))
    ensures Less([], [b] + w) <==> 0 < b || (b == 0 && Less([], w))
    ensures Less([a] + v, []) <==> a < 0 || (a == 0 && Less(v, []))
    ensures !Less([], [])
  {
    LessStep([a] + v, [b] + w, v, w);
    LessStep([], [b] + w, [], w);
    LessStep([a] + v, [], v, []);
  }

  lemma LessStep(v: seq<int>, w: seq<int>, v': seq<int>, w': seq<int>)
    requires forall i: nat :: At(v, i + 1) == At(v', i) && At(w, i + 1) == At(w', i)
    ensures Less(v, w) <==> At(v, 0) < At(w, 0) || (At(v, 0) == At(w, 0) && Less(v', w'))
  {
    if n: nat :| SameBefore(v, w, n) && At(v, n) < At(w, n) {
      if n > 0 {
        assert At(v, 0) == At(w, 0);
        assert SameBefore(v', w', n - 1) by {
          forall i: nat | i < n - 1 ensures At(v', i) == At(w', i) { assert At(v, i + 1) == At(w, i + 1); }
        }
        assert At(v', n - 1) < At(w', n - 1);
      }
    }
    if At(v, 0) < At(w, 0) { assert SameBefore(v, w, 0); }
    if At(v, 0) == At(w, 0) && Less(v', w') {
      var n: nat :| SameBefore(v', w', n) && At(v', n) < At(w', n);
      assert SameBefore(v, w, n + 1) by {
        forall i: nat | i < n + 1 ensures At(v, i) == At(w, i) { if i > 0 { assert At(v', i - 1) == At(w', i - 1); } }
      }
      assert At(v, n + 1) < At(w, n + 1);
    }
  }

  lemma SplitZero()
    ensures Split("0", '.') == ["0"]
  {
    var s, rest := "0", Split("", '.');
    assert s[1..] == "" && rest == [""] && rest[1..] == [];
    assert [s[0]] + rest[0] == s;
    assert Split(s, '.') == [s] + rest[1..];
  }

  /** Appending ".0" changes nothing. */
  lemma DotZero(v: string)
    ensures Same(Numbers(v + ".0"), Numbers(v))
  {
    SplitConcat(v, "0", '.');
    assert v + ".0" == v + ['.'] + "0";
    SplitZero();
    assert Atoi("0") == 0 by { AtoiItoa(0); assert Itoa(0) == "0"; }
    var longer, ns := Numbers(v + ".0"), Numbers(v);
    forall i: nat ensures At(longer, i) == At(ns, i) {
      assert (Split(v, '.') + ["0"])[|ns|] == "0";
    }
  }

  // ---------- the choice of a version ----------

  function FilterDigitsAndDots(s: string): string {
    if s == "" then ""
    else if IsDigit(s[0]) || s[0] == '.' then [s[0]] + FilterDigitsAndDots(s[1..])
    else FilterDigitsAndDots(s[1..])
  }

  /** Filtering goes character by character: a digit or a dot is kept, anything else is dropped. */
  lemma {:induction false} FilteredParts(s: string, t: string)
    ensures FilterDigitsAndDots(s + t) == FilterDigitsAndDots(s) + FilterDigitsAndDots(t)
  {
    if s == "" {
      assert s + t == t;
    } else {
      assert (s + t)[1..] == s[1..] + t;
      FilteredParts(s[1..], t);
    }
  }

  lemma FilteredChar(c: char)
    ensures FilterDigitsAndDots([c]) == if c in "0123456789." then [c] else ""
  {
    assert [c][1..] == "" && FilterDigitsAndDots("") == "";
    assert "0123456789."[..] == "0123456789.";
    if IsDigit(c) { assert "0123456789."[c as int - 48] == c; }
  }

  /** So letters in the middle do not end a version: "1.32.3-gke.4" counts as 1.32.3.4. */
  lemma LettersInside(s: string, c: char, t: string)
    requires c !in "0123456789."
    ensures FilterDigitsAndDots(s + [c] + t) == FilterDigitsAndDots(s) + FilterDigitsAndDots(t)
  {
    FilteredParts(s + [c], t);
    FilteredParts(s, [c]);
    FilteredChar(c);
  }

  /** The versions of the ids. */
  function VersionsOf(ids: seq<string>): (fs: seq<seq<int>>)
    ensures |fs| == |ids| && forall i :: 0 <= i < |ids| ==> fs[i] == Numbers(FilterDigitsAndDots(ids[i]))
  {
    seq(|ids|, i requires 0 <= i < |ids| => Numbers(FilterDigitsAndDots(ids[i])))
  }

  /** Of the first `n` versions, `fs[k]` is the first of the newest, and newer than none at all. */
  ghost predicate IsFirstNewest(fs: seq<seq<int>>, n: nat, k: nat) {
    && k < n <= |fs| && Less([], fs[k])
    && (forall i :: 0 <= i < n ==> !Less(fs[k], fs[i]))
    && (forall i :: 0 <= i < k ==> Less(fs[i], fs[k]))
  }

  /** No version is newer than none at all. */
  ghost predicate NoneNewer(fs: seq<seq<int>>, n: nat) {
    n <= |fs| && forall i :: 0 <= i < n ==> !Less([], fs[i])
  }

  predicate Answers(request: string, id: string) {
    EqualFold(request, id) || HasPrefix(FilterDigitsAndDots(id), FilterDigitsAndDots(request))
  }

  ghost predicate IsFirstAnswer(ids: seq<string>, request: string, k: nat) {
    k < |ids| && Answers(request, ids[k]) && forall i :: 0 <= i < k ==> !Answers(request, ids[i])
  }

  /** What is returned for a matching id: the id itself if it equals the request but for case, otherwise its digits and dots. */
  function Chosen(request: string, id: string): string {
    if EqualFold(request, id) then id else FilterDigitsAndDots(id)
  }

  method RecommendVersion(available: Result<seq<string>>, request: string) returns (r: Result<string>, ghost k: nat)
    ensures available.Err? ==> r.Err?
    ensures available.Ok? && request == "" ==>
              var ids := available.value;
              if NoneNewer(VersionsOf(ids), |ids|) then r.Err?
              else IsFirstNewest(VersionsOf(ids), |ids|, k) && r == Ok(ids[k])
    ensures available.Ok? && request != "" ==>
              if k == |available.value| then r.Err? && forall i :: 0 <= i < k ==> !Answers(request, available.value[i])
              else IsFirstAnswer(available.value, request, k)
                   && r == if Chosen(request, available.value[k]) == "" then Err else Ok(Chosen(request, available.value[k]))
  {
    k := 0;
    if available.Err? {
      return Err, 0;
    }
    var recVersion := "";
    if request == "" {
      recVersion, k := Newest(available.value);
    } else {
      recVersion, k := FirstAnswer(available.value, request);
    }
    if recVersion == "" {
      return Err, k;
    }
    return Ok(recVersion), k;
  }

  /** What the loop of `Newest` knows after `n` versions. */
  ghost predicate IsNewest(ids: seq<string>, n: nat, k: nat, recVersion: string) {
    if recVersion == "" then NoneNewer(VersionsOf(ids), n)
    else IsFirstNewest(VersionsOf(ids), n, k) && recVersion == ids[k]
  }

  method Newest(ids: seq<string>) returns (recVersion: string, ghost k: nat)
    ensures IsNewest(ids, |ids|, k, recVersion) && (recVersion != "" ==> !NoneNewer(VersionsOf(ids), |ids|))
  {
    recVersion, k := "", 0;
    ghost var fs := VersionsOf(ids);
    for i := 0 to |ids|
      invariant IsNewest(ids, i, k, recVersion)
    {
      var filtered := FilterDigitsAndDots(recVersion);
      var c := CompareVersions(filtered, FilterDigitsAndDots(ids[i]));
      NothingIsZero(Numbers(filtered), fs[i], filtered);
      ghost var top := if recVersion == "" then [] else fs[k];
      if c < 0 {
        Exceeds(fs, i, top);
        NotNewer(ids[i]);
        recVersion, k := ids[i], i;
      } else {
        Stays(fs, i, k, top);
      }
    }
  }

  /** The empty text, and no version at all, compare alike. */
  lemma NothingIsZero(v: seq<int>, w: seq<int>, text: string)
    requires v == Numbers(text)
    ensures text == "" ==> Same(v, []) && (Less(v, w) <==> Less([], w))
  {
    if text == "" {
      assert Split("", '.') == [""] && v == [0];
      assert Same(v, []) && Same([], v);
      Transitive(v, [], w);
      Transitive([], v, w);
    }
  }

  lemma NotNewer(id: string)
    ensures id == "" ==> !Less([], Numbers(FilterDigitsAndDots(id)))
  {
    if id == "" {
      NothingIsZero(Numbers(""), [], "");
      Trichotomy([], Numbers(""));
      assert Same([], Numbers(""));
    }
  }

  lemma Below(u: seq<int>, v: seq<int>, w: seq<int>)
    requires !Less(v, u) && Less(v, w)
    ensures Less(u, w) && !Less(w, u)
  {
    Trichotomy(u, v);
    Transitive(u, v, w);
    Trichotomy(u, w);
  }

  lemma Exceeds(fs: seq<seq<int>>, i: nat, top: seq<int>)
    requires i < |fs| && Less(top, fs[i]) && (top == [] || Less([], top))
    requires forall j :: 0 <= j < i ==> !Less(top, fs[j])
    ensures IsFirstNewest(fs, i + 1, i)
  {
    Transitive([], top, fs[i]);
    forall j | 0 <= j < i ensures Less(fs[j], fs[i]) && !Less(fs[i], fs[j]) {
      Below(fs[j], top, fs[i]);
    }
    Trichotomy(fs[i], fs[i]);
  }

  lemma Stays(fs: seq<seq<int>>, i: nat, k: nat, top: seq<int>)
    requires i < |fs| && !Less(top, fs[i])
    ensures top == [] && NoneNewer(fs, i) ==> NoneNewer(fs, i + 1)
    ensures IsFirstNewest(fs, i, k) && top == fs[k] ==> IsFirstNewest(fs, i + 1, k)
  {
  }

  method FirstAnswer(ids: seq<string>, request: string) returns (recVersion: string, k: nat)
    requires request != ""
    ensures if k == |ids| then recVersion == "" && forall i :: 0 <= i < k ==> !Answers(request, ids[i])
            else IsFirstAnswer(ids, request, k) && recVersion == Chosen(request, ids[k])
  {
    for i := 0 to |ids|
      invariant forall j :: 0 <= j < i ==> !Answers(request, ids[j])
    {
      if EqualFold(request, ids[i]) {
        return ids[i], i;
      }
      if HasPrefix(FilterDigitsAndDots(ids[i]), FilterDigitsAndDots(request)) {
        return FilterDigitsAndDots(ids[i]), i;
      }
    }
    return "", |ids|;
  }

  // ---------- what is returned for a request ----------

  predicate IsPlain(s: string) {
    forall i :: 0 <= i < |s| ==> IsDigit(s[i]) || s[i] == '.'
  }

  lemma {:induction false} FilterKeeps(s: string)
    requires IsPlain(s)
    ensures FilterDigitsAndDots(s) == s
  {
    if s != "" {
      FilterKeeps(s[1..]);
      assert s == [s[0]] + s[1..];
    }
  }

  lemma {:induction false} FilteredIsPlain(s: string)
    ensures IsPlain(FilterDigitsAndDots(s))
  {
    if s != "" { FilteredIsPlain(s[1..]); }
  }

  /** A text of digits and dots equals no other but for case. */
  lemma PlainFold(s: string, t: string)
    requires IsPlain(s) && EqualFold(s, t)
    ensures s == t
  {
    assert |s| == |Lower(s)| == |Lower(t)| == |t|;
    forall i | 0 <= i < |s| ensures s[i] == t[i] {
      assert Lower(s)[i] == LowerChar(s[i]) && Lower(t)[i] == LowerChar(t[i]);
    }
  }

  /** Every request that is answered at all is answered with an available id. */
  ghost predicate AnswersAreIds(ids: seq<string>) {
    forall request, k: nat ::
      (request != "" && IsFirstAnswer(ids, request, k) && Chosen(request, ids[k]) != "") ==> Chosen(request, ids[k]) in ids
  }

  /** The digits and dots of an id are no version, an available id themselves, or a prefix of those of an earlier id,
      which then answers in its place. */
  ghost predicate IsCovered(ids: seq<string>, k: nat)
    requires k < |ids|
  {
    var f := FilterDigitsAndDots(ids[k]);
    f == "" || f in ids || exists j :: 0 <= j < k && HasPrefix(FilterDigitsAndDots(ids[j]), f)
  }

  /** The request that gives an uncovered id away: its own digits and dots. */
  lemma UncoveredAnswers(ids: seq<string>, k: nat)
    requires k < |ids| && !IsCovered(ids, k)
    ensures !AnswersAreIds(ids)
  {
    var request := FilterDigitsAndDots(ids[k]);
    FilteredIsPlain(ids[k]);
    FilterKeeps(request);
    forall j | 0 <= j <= k ensures !EqualFold(request, ids[j]) {
      if EqualFold(request, ids[j]) { PlainFold(request, ids[j]); }
    }
    assert IsFirstAnswer(ids, request, k);
    assert Chosen(request, ids[k]) == request;
  }

  lemma CoveredAnswers(ids: seq<string>, request: string, k: nat)
    requires IsFirstAnswer(ids, request, k) && IsCovered(ids, k) && Chosen(request, ids[k]) != ""
    ensures Chosen(request, ids[k]) in ids
  {
    if !EqualFold(request, ids[k]) && FilterDigitsAndDots(ids[k]) !in ids {
      var j :| 0 <= j < k && HasPrefix(FilterDigitsAndDots(ids[j]), FilterDigitsAndDots(ids[k]));
      PrefixTransitive(FilterDigitsAndDots(request), FilterDigitsAndDots(ids[k]), FilterDigitsAndDots(ids[j]));
    }
  }

  lemma PrefixTransitive(a: string, b: string, c: string)
    requires HasPrefix(b, a) && HasPrefix(c, b)
    ensures HasPrefix(c, a)
  {
  }

  /** Every answer is an available id if and only if every id is covered. */
  lemma AnswersAreIdsIff(ids: seq<string>)
    ensures AnswersAreIds(ids) <==> forall k :: 0 <= k < |ids| ==> IsCovered(ids, k)
  {
    if k: nat :| k < |ids| && !IsCovered(ids, k) {
      UncoveredAnswers(ids, k);
    } else {
      forall request, k: nat | request != "" && IsFirstAnswer(ids, request, k) && Chosen(request, ids[k]) != ""
        ensures Chosen(request, ids[k]) in ids
      {
        CoveredAnswers(ids, request, k);
      }
    }
  }

  /** Ids of digits and dots cover themselves. */
  lemma PlainIds(ids: seq<string>)
    requires forall id :: id in ids ==> IsPlain(id)
    ensures AnswersAreIds(ids)
  {
    forall k | 0 <= k < |ids| ensures IsCovered(ids, k) {
      FilterKeeps(ids[k]);
    }
    AnswersAreIdsIff(ids);
  }

  /** The single id "v1" does not: the request "1" is answered with "1". */
  lemma NotAnId()
    ensures !AnswersAreIds(["v1"])
  {
    var id := "v1";
    assert id[1..] == "1" && "1"[1..] == "";
    assert FilterDigitsAndDots("1") == ['1'] + FilterDigitsAndDots("1"[1..]);
    assert FilterDigitsAndDots(id) == FilterDigitsAndDots(id[1..]) == "1";
    assert !IsCovered(["v1"], 0) by { assert |"1"| != |id|; }
    AnswersAreIdsIff(["v1"]);
  }
}
