/** Wildcard patterns of src/core/common/utility.go: the greedy matcher
    `matchesPattern` and its caller `CheckBasicOSImage`, over ASCII text. */
module Glob {
  import opened Text

  /** What a pattern means: '*' stands for any run of characters, every other
      character for itself. Written without any notion of parts or search. */
  ghost predicate Matches(t: string, p: string)
    decreases |p|
  {
    if p == "" then t == ""
    else if p[0] == '*' then exists k :: 0 <= k <= |t| && Matches(t[k..], p[1..])
    else t != "" && t[0] == p[0] && Matches(t[1..], p[1..])
  }

  // ---------- from the meaning to literal parts ----------

  /** The text is the literal parts in order, with a gap of any length at each star. */
  ghost predicate Splits(t: string, parts: seq<string>)
    requires |parts| >= 1
    decreases |parts|
  {
    if |parts| == 1 then t == parts[0]
    else HasPrefix(t, parts[0]) && exists k :: |parts[0]| <= k <= |t| && Splits(t[k..], parts[1..])
  }

  lemma {:induction false} MatchesIffSplits(t: string, p: string)
    ensures Matches(t, p) <==> Splits(t, Split(p, '*'))
    decreases |p|
  {
    if p != "" {
      var rest := Split(p[1..], '*');
      if p[0] == '*' {
        forall k | 0 <= k <= |t| ensures Matches(t[k..], p[1..]) <==> Splits(t[k..], rest) {
          MatchesIffSplits(t[k..], p[1..]);
        }
        assert Split(p, '*')[1..] == rest;
      } else {
        if t != "" {
          MatchesIffSplits(t[1..], p[1..]);
          PrependChar(t, p[0], rest);
        }
        assert |rest| > 1 ==> Split(p, '*')[1..] == rest[1..];
      }
    }
  }

  /** Putting one more character in front of the first literal part. */
  lemma PrependChar(t: string, c: char, rest: seq<string>)
    requires |rest| >= 1 && t != ""
    ensures Splits(t, [[c] + rest[0]] + rest[1..]) <==> t[0] == c && Splits(t[1..], rest)
  {
    var parts := [[c] + rest[0]] + rest[1..];
    if |rest| == 1 {
      assert t == [t[0]] + t[1..];
    } else {
      assert parts[1..] == rest[1..];
      assert HasPrefix(t, parts[0]) <==> t[0] == c && HasPrefix(t[1..], rest[0]) by {
        if t[0] == c && HasPrefix(t[1..], rest[0]) {
          assert t[1..][..|rest[0]|] == rest[0] == t[1..|parts[0]|];
        }
        if HasPrefix(t, parts[0]) {
          assert t[..|parts[0]|] == parts[0];
          assert t[1..][..|rest[0]|] == parts[0][1..] == rest[0];
        }
      }
      if Splits(t, parts) {
        var k :| |parts[0]| <= k <= |t| && Splits(t[k..], parts[1..]);
        assert t[1..][k - 1..] == t[k..];
      }
      if t[0] == c && Splits(t[1..], rest) {
        var k :| |rest[0]| <= k <= |t[1..]| && Splits(t[1..][k..], rest[1..]);
        assert t[1..][k..] == t[k + 1..];
      }
    }
  }

  // ---------- greedy search is enough ----------

  /** The parts occur in the text one after the other, not overlapping. */
  ghost predicate InOrder(t: string, parts: seq<string>)
    decreases |parts|
  {
    parts == [] || exists k :: OccursAt(t, parts[0], k) && InOrder(t[k + |parts[0]|..], parts[1..])
  }

  /** A longer remainder can only help. */
  lemma {:induction false} InOrderGrows(t: string, j: nat, k: nat, parts: seq<string>)
    requires j <= k <= |t| && InOrder(t[k..], parts)
    ensures InOrder(t[j..], parts)
  {
    if parts != [] {
      var i :| OccursAt(t[k..], parts[0], i) && InOrder(t[k..][i + |parts[0]|..], parts[1..]);
      var i', e := i + k - j, k + i + |parts[0]|;
      assert t[k..][i..i + |parts[0]|] == t[k + i..e] == t[j..][i'..i' + |parts[0]|];
      assert OccursAt(t[j..], parts[0], i');
      assert t[k..][i + |parts[0]|..] == t[e..] == t[j..][i' + |parts[0]|..];
    }
  }

  /** The exchange argument: the leftmost occurrence may be taken first. */
  lemma LeftmostFirst(t: string, parts: seq<string>)
    requires parts != []
    ensures InOrder(t, parts) <==>
            Index(t, parts[0]) != -1 && InOrder(t[Index(t, parts[0]) + |parts[0]|..], parts[1..])
  {
    if InOrder(t, parts) {
      var k :| OccursAt(t, parts[0], k) && InOrder(t[k + |parts[0]|..], parts[1..]);
      var i := Index(t, parts[0]);
      InOrderGrows(t, i + |parts[0]|, k + |parts[0]|, parts[1..]);
    }
  }

  function Cut(t: string, last: string): string
    requires HasSuffix(t, last)
  {
    t[..|t| - |last|]
  }

  /** What remains after the first `n` characters ends the same way. */
  lemma CutDrop(t: string, n: nat, last: string)
    requires n <= |t|
    ensures HasSuffix(t[n..], last) <==> HasSuffix(t, last) && n <= |t| - |last|
    ensures HasSuffix(t[n..], last) ==> Cut(t[n..], last) == Cut(t, last)[n..]
  {
    if n <= |t| - |last| {
      assert t[n..][|t| - n - |last|..] == t[|t| - |last|..];
    }
  }

  /** The rest of the parts split what follows the first, after a gap. */
  lemma DropPart(t: string, k: nat, parts: seq<string>) returns (e: nat)
    requires k <= |t| && |parts| >= 2 && Splits(t[k..], parts)
    ensures HasPrefix(t[k..], parts[0]) && k + |parts[0]| + e <= |t| && Splits(t[k + |parts[0]|..][e..], parts[1..])
  {
    var u, m := t[k..], |parts[0]|;
    var j :| m <= j <= |u| && Splits(u[j..], parts[1..]);
    e := j - m;
    assert t[k + m..][e..] == u[j..];
  }

  lemma CutOccurs(t: string, k: nat, m: string, last: string)
    requires HasSuffix(t, last) && k + |m| <= |t| - |last| && HasPrefix(t[k..], m)
    ensures OccursAt(Cut(t, last), m, k)
  {
    assert Cut(t, last)[k..k + |m|] == t[k..][..|m|];
  }

  lemma PrependPart(t: string, k: nat, parts: seq<string>, e: nat)
    requires |parts| >= 2 && k + |parts[0]| + e <= |t| && t[k..k + |parts[0]|] == parts[0]
    requires Splits(t[k + |parts[0]|..][e..], parts[1..])
    ensures Splits(t[k..], parts)
  {
    var u, m := t[k..], |parts[0]|;
    assert u[m + e..] == t[k + m..][e..];
    assert u[..m] == t[k..k + m];
  }

  lemma {:induction false} MiddleForward(t: string, mid: seq<string>, last: string, k: nat)
    requires k <= |t| && Splits(t[k..], mid + [last])
    ensures HasSuffix(t, last) && InOrder(Cut(t, last), mid)
    decreases |mid|
  {
    var parts := mid + [last];
    if mid == [] {
      assert parts == [last];
    } else {
      var n := k + |mid[0]|;
      assert parts[1..] == mid[1..] + [last];
      var e := DropPart(t, k, parts);
      MiddleForward(t[n..], mid[1..], last, e);
      CutDrop(t, n, last);
      CutOccurs(t, k, mid[0], last);
    }
  }

  lemma TakePart(u: string, mid: seq<string>) returns (k: nat)
    requires mid != [] && InOrder(u, mid)
    ensures k + |mid[0]| <= |u| && u[k..k + |mid[0]|] == mid[0] && InOrder(u[k + |mid[0]|..], mid[1..])
  {
    k :| OccursAt(u, mid[0], k) && InOrder(u[k + |mid[0]|..], mid[1..]);
  }

  lemma {:induction false} MiddleBackward(t: string, mid: seq<string>, last: string) returns (k: nat)
    requires HasSuffix(t, last) && InOrder(Cut(t, last), mid)
    ensures k <= |t| && Splits(t[k..], mid + [last])
    decreases |mid|
  {
    var parts := mid + [last];
    if mid == [] {
      k := |t| - |last|;
      assert parts == [last];
    } else {
      k := TakePart(Cut(t, last), mid);
      var n := k + |mid[0]|;
      CutDrop(t, n, last);
      var e := MiddleBackward(t[n..], mid[1..], last);
      assert parts[1..] == mid[1..] + [last];
      assert Cut(t, last)[k..n] == t[k..n];
      PrependPart(t, k, parts, e);
    }
  }

  /** Between the first and the last part, a split is an ordered placement of the
      middle parts that ends before the last part begins. */
  lemma MiddleParts(t: string, mid: seq<string>, last: string)
    ensures (exists k :: 0 <= k <= |t| && Splits(t[k..], mid + [last])) <==>
            HasSuffix(t, last) && InOrder(Cut(t, last), mid)
  {
    if k :| 0 <= k <= |t| && Splits(t[k..], mid + [last]) {
      MiddleForward(t, mid, last, k);
    }
    if HasSuffix(t, last) && InOrder(Cut(t, last), mid) {
      var k := MiddleBackward(t, mid, last);
    }
  }

  /** A pattern with at least one star, by its parts. */
  lemma StarredPattern(t: string, parts: seq<string>)
    requires |parts| >= 2
    ensures var first, last := parts[0], parts[|parts| - 1];
            Splits(t, parts) <==> HasPrefix(t, first) && HasSuffix(t[|first|..], last)
                                  && InOrder(Cut(t[|first|..], last), parts[1..|parts| - 1])
  {
    assert parts[1..] == parts[1..|parts| - 1] + [parts[|parts| - 1]];
    if HasPrefix(t, parts[0]) {
      var first, u := parts[0], t[|parts[0]|..];
      MiddleParts(u, parts[1..|parts| - 1], parts[|parts| - 1]);
      if k :| |first| <= k <= |t| && Splits(t[k..], parts[1..]) {
        assert u[k - |first|..] == t[k..];
      }
      if k :| 0 <= k <= |u| && Splits(u[k..], parts[1..]) {
        assert u[k..] == t[|first| + k..];
      }
    }
  }

  // ---------- the matcher ----------

  lemma LowerFirst(c: char, rest: seq<string>, low: seq<string>)
    requires |rest| == |low| >= 1 && forall i :: 0 <= i < |rest| ==> low[i] == Lower(rest[i])
    ensures var parts, lower := [[c] + rest[0]] + rest[1..], [[LowerChar(c)] + low[0]] + low[1..];
            forall i :: 0 <= i < |parts| ==> lower[i] == Lower(parts[i])
  {
    assert Lower([c] + rest[0]) == [LowerChar(c)] + low[0];
  }

  lemma {:induction false} SplitLower(p: string)
    ensures |Split(Lower(p), '*')| == |Split(p, '*')|
    ensures forall i :: 0 <= i < |Split(p, '*')| ==> Split(Lower(p), '*')[i] == Lower(Split(p, '*')[i])
  {
    if p != "" {
      SplitLower(p[1..]);
      assert Lower(p)[1..] == Lower(p[1..]);
      var rest, low := Split(p[1..], '*'), Split(Lower(p)[1..], '*');
      assert LowerChar(p[0]) == '*' <==> p[0] == '*';
      if p[0] == '*' {
        assert Split(p, '*') == [""] + rest && Split(Lower(p), '*') == [""] + low;
      } else {
        LowerFirst(p[0], rest, low);
      }
    }
  }

  function LowerAll(parts: seq<string>): (r: seq<string>)
    ensures |r| == |parts|
  {
    seq(|parts|, i requires 0 <= i < |parts| => Lower(parts[i]))
  }

  lemma PatternByParts(text: string, pattern: string)
    ensures var t, parts := Lower(text), Split(pattern, '*');
            var last := Lower(parts[|parts| - 1]);
            Matches(t, Lower(pattern)) <==>
              if |parts| == 1 then EqualFold(text, pattern)
              else HasPrefix(t, Lower(parts[0])) && HasSuffix(t[|parts[0]|..], last)
                   && InOrder(Cut(t[|parts[0]|..], last), LowerAll(parts[1..|parts| - 1]))
  {
    var t, parts, lp := Lower(text), Split(pattern, '*'), Split(Lower(pattern), '*');
    MatchesIffSplits(t, Lower(pattern));
    SplitLower(pattern);
    if |parts| == 1 {
      JoinSplit(Lower(pattern), '*');
    } else {
      StarredPattern(t, lp);
      assert lp[1..|lp| - 1] == LowerAll(parts[1..|parts| - 1]);
    }
  }

  lemma GreedyStep(t: string, parts: seq<string>, i: nat)
    requires i < |parts|
    ensures var k := Index(t, parts[i]);
            InOrder(t, parts[i..]) <==> k != -1 && InOrder(t[k + |parts[i]|..], parts[i + 1..])
    ensures parts[i] == "" ==> (InOrder(t, parts[i..]) <==> InOrder(t, parts[i + 1..]))
  {
    assert parts[i..][1..] == parts[i + 1..];
    LeftmostFirst(t, parts[i..]);
    if parts[i] == "" {
      assert OccursAt(t, "", 0);
      assert t[0..] == t;
    }
  }

  /** `matchesPattern` decides the meaning of the pattern, ignoring case. */
  method MatchesPattern(text: string, pattern: string) returns (r: bool)
    ensures r <==> Matches(Lower(text), Lower(pattern))
  {
    if pattern == "" {
      return text == "";
    }
    PatternByParts(text, pattern);
    var parts := Split(pattern, '*');
    if |parts| == 1 {
      return EqualFold(text, pattern);
    }
    var textLower := Lower(text);
    ghost var t := textLower;
    if |parts[0]| > 0 {
      if !HasPrefix(textLower, Lower(parts[0])) {
        return false;
      }
      textLower := textLower[|parts[0]|..];
    }
    assert textLower == t[|parts[0]|..];
    var lastPart := Lower(parts[|parts| - 1]);
    if |parts[|parts| - 1]| > 0 {
      if !HasSuffix(textLower, lastPart) {
        return false;
      }
      textLower := textLower[..|textLower| - |lastPart|];
    }
    assert HasSuffix(t[|parts[0]|..], lastPart) && textLower == Cut(t[|parts[0]|..], lastPart);
    r := MiddlePartsInOrder(textLower, parts[1..|parts| - 1]);
  }

  /** The loop of `matchesPattern`: search each part after the end of the one before. */
  method MiddlePartsInOrder(text: string, parts: seq<string>) returns (r: bool)
    ensures r <==> InOrder(text, LowerAll(parts))
  {
    var textLower := text;
    ghost var want, mid := InOrder(text, LowerAll(parts)), LowerAll(parts);
    assert mid[0..] == mid;
    for i := 0 to |parts|
      invariant want <==> InOrder(textLower, mid[i..])
    {
      var part := Lower(parts[i]);
      GreedyStep(textLower, mid, i);
      if part == "" {
        continue;
      }
      var index := Index(textLower, part);
      if index == -1 {
        return false;
      }
      textLower := textLower[index + |part|..];
    }
    return true;
  }

  // ---------- basic OS images ----------

  datatype Patterns = Patterns(included: seq<string>, excluded: seq<string>)

  /** The rules of one OS type; `csp` holds the provider-specific overrides. */
  datatype Rules = NoRules | Rules(common: Patterns, csp: map<string, Patterns>)

  function Includes(r: Rules, provider: string): seq<string>
    requires r.Rules?
  {
    if provider in r.csp && r.csp[provider].included != [] then r.csp[provider].included else r.common.included
  }

  function Excludes(r: Rules, provider: string): seq<string>
    requires r.Rules?
  {
    if provider in r.csp && r.csp[provider].excluded != [] then r.csp[provider].excluded else r.common.excluded
  }

  ghost predicate AnyMatches(info: string, patterns: seq<string>) {
    exists p :: p in patterns && Matches(Lower(info), Lower(p))
  }

  ghost predicate Excluded(info: string, r: Rules, provider: string) {
    r.Rules? && AnyMatches(info, Excludes(r, Lower(provider)))
  }

  ghost predicate Included(info: string, r: Rules, provider: string) {
    r.Rules? && AnyMatches(info, Includes(r, Lower(provider)))
  }

  /** The `i`-th OS type accepts the image and no earlier one matches it at all. */
  ghost predicate Decides(info: string, osTypes: seq<Rules>, provider: string, i: nat)
    requires i < |osTypes|
  {
    && Included(info, osTypes[i], provider)
    && !Excluded(info, osTypes[i], provider)
    && forall j :: 0 <= j < i ==> !Excluded(info, osTypes[j], provider) && !Included(info, osTypes[j], provider)
  }

  /** A provider's own list of one kind, unless empty, takes the place of the common list of that kind only; the
      provider is looked up by its name in small letters. */
  lemma OwnListsFirst(info: string, r: Rules, provider: string)
    requires r.Rules?
    ensures var csp := Lower(provider);
            var own := if csp in r.csp then r.csp[csp] else Patterns([], []);
            && (Included(info, r, provider) <==> AnyMatches(info, own.included) || (own.included == [] && AnyMatches(info, r.common.included)))
            && (Excluded(info, r, provider) <==> AnyMatches(info, own.excluded) || (own.excluded == [] && AnyMatches(info, r.common.excluded)))
  {
  }

  method MatchesAny(info: string, patterns: seq<string>) returns (r: bool)
    ensures r <==> AnyMatches(info, patterns)
  {
    for i := 0 to |patterns|
      invariant forall j :: 0 <= j < i ==> !Matches(Lower(info), Lower(patterns[j]))
    {
      var m := MatchesPattern(info, patterns[i]);
      if m { return true; }
    }
    return false;
  }

  /** An image is basic exactly when some OS type includes it without excluding it
      and no earlier OS type has anything to say about it. */
  method CheckBasicOSImage(info: string, provider: string, osTypes: seq<Rules>) returns (r: bool)
    ensures r <==> info != "" && exists i :: 0 <= i < |osTypes| && Decides(info, osTypes, provider, i)
  {
    if info == "" { return false; }
    var providerLower := Lower(provider);
    for i := 0 to |osTypes|
      invariant forall j :: 0 <= j < i ==> !Excluded(info, osTypes[j], provider) && !Included(info, osTypes[j], provider)
    {
      if osTypes[i].NoRules? { continue; }
      var excluded := MatchesAny(info, Excludes(osTypes[i], providerLower));
      if excluded {
        assert Excluded(info, osTypes[i], provider);
        return false;
      }
      var included := MatchesAny(info, Includes(osTypes[i], providerLower));
      if included {
        assert Decides(info, osTypes, provider, i);
        return true;
      }
    }
    return false;
  }
}
