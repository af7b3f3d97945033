/** The recent failure messages of a provisioning log (provisioning.go, `getRecentUniqueFailureMessages`). */
module RecentMessages {

  predicate IsSpace(c: char) {
    c == ' ' || c == '\t' || c == '\n' || c == '\r' || c as int == 11 || c as int == 12
  }

  function TrimLeft(s: string): string {
    if s != "" && IsSpace(s[0]) then TrimLeft(s[1..]) else s
  }

  function TrimRight(s: string): string {
    if s != "" && IsSpace(s[|s| - 1]) then TrimRight(s[..|s| - 1]) else s
  }

  /** `strings.TrimSpace`, over ASCII text. */
  function Trim(s: string): string {
    TrimRight(TrimLeft(s))
  }

  lemma SpacesAre(c: char)
    ensures IsSpace(c) <==> c in " \t\n\r\U{B}\U{C}"
  {
    assert " \t\n\r\U{B}\U{C}"[4] as int == 11 && " \t\n\r\U{B}\U{C}"[5] as int == 12;
  }

  lemma {:induction false} TrimLeftIs(s: string) returns (m: nat)
    ensures m <= |s| && TrimLeft(s) == s[m..] && forall i :: 0 <= i < m ==> IsSpace(s[i])
    ensures m < |s| ==> !IsSpace(s[m])
  {
    m := 0;
    if s != "" && IsSpace(s[0]) {
      var n := TrimLeftIs(s[1..]);
      m := n + 1;
      assert s[1..][n..] == s[m..];
      forall i | 0 <= i < m ensures IsSpace(s[i]) { assert i > 0 ==> s[i] == s[1..][i - 1]; }
    }
  }

  lemma {:induction false} TrimRightIs(s: string)
    ensures TrimRight(s) <= s && forall i :: |TrimRight(s)| <= i < |s| ==> IsSpace(s[i])
    ensures TrimRight(s) != "" ==> !IsSpace(TrimRight(s)[|TrimRight(s)| - 1])
  {
    if s != "" && IsSpace(s[|s| - 1]) { TrimRightIs(s[..|s| - 1]); }
  }

  /** Trimming takes the white space off both ends, and nothing else: what is left starts at `m`. */
  lemma TrimIs(s: string) returns (m: nat)
    ensures m + |Trim(s)| <= |s| && Trim(s) == s[m..m + |Trim(s)|]
    ensures forall i :: 0 <= i < m || m + |Trim(s)| <= i < |s| ==> IsSpace(s[i])
    ensures Trim(s) != "" ==> !IsSpace(Trim(s)[0]) && !IsSpace(Trim(s)[|Trim(s)| - 1])
  {
    m := TrimLeftIs(s);
    var rest, n := s[m..], |Trim(s)|;
    TrimRightIs(rest);
    assert Trim(s) == rest[..n] == s[m..m + n];
    forall i | m + n <= i < |s| ensures IsSpace(s[i]) { assert s[i] == rest[i - m]; }
  }

  function Start(count: nat, max: nat): nat {
    if count > max * 2 then count - max * 2 else 0
  }

  /** The window is the last messages, twice as many as there is room for, or all. */
  lemma WindowIs(count: nat, max: nat)
    ensures Start(count, max) <= count && count - Start(count, max) <= 2 * max
    ensures Start(count, max) > 0 ==> count - Start(count, max) == 2 * max
  {
  }

  function Trimmed(messages: seq<string>): (texts: seq<string>)
    ensures |texts| == |messages| && forall i :: 0 <= i < |messages| ==> texts[i] == Trim(messages[i])
  {
    seq(|messages|, i requires 0 <= i < |messages| => Trim(messages[i]))
  }

  /** `at[k]` is the latest place, from `from` on, of the text `found[k]`; the places go from new to old. */
  ghost predicate IsTrace(texts: seq<string>, from: nat, found: seq<string>, at: seq<nat>) {
    && |found| == |at|
    && (forall k :: 0 <= k < |at| ==> from <= at[k] < |texts|)
    && (forall k :: 0 <= k < |at| ==> found[k] == texts[at[k]] && found[k] != "")
    && (forall k, l :: 0 <= k < l < |at| ==> at[k] > at[l])
    && (forall k, i: nat :: 0 <= k < |at| && at[k] < i < |texts| ==> texts[i] != found[k])
  }

  /** Every text from `from` on is among those found, unless blank. */
  ghost predicate Covers(texts: seq<string>, from: nat, found: seq<string>) {
    forall i :: from <= i < |texts| ==> texts[i] == "" || texts[i] in found
  }

  /** How far back the search went: through the window, or to the last message it had room for. */
  function Reach(messages: seq<string>, max: nat, at: seq<nat>): nat {
    if |at| < max then Start(|messages|, max) else if at == [] then |messages| else at[|at| - 1]
  }

  function Reversed<T>(s: seq<T>): (r: seq<T>)
    ensures |r| == |s| && forall k :: 0 <= k < |s| ==> r[k] == s[|s| - 1 - k]
  {
    seq(|s|, k requires 0 <= k < |s| => s[|s| - 1 - k])
  }

  /** `found`, newest first, are the distinct messages of the window, as many as there is room for, each where it
      was last seen; `recent` is the same with the oldest first. */
  ghost predicate IsRecent(messages: seq<string>, max: nat, recent: seq<string>, found: seq<string>, at: seq<nat>) {
    && recent == Reversed(found) && |found| <= max
    && IsTrace(Trimmed(messages), Start(|messages|, max), found, at)
    && Covers(Trimmed(messages), Reach(messages, max, at), found)
  }

  ghost predicate AreRecent(messages: seq<string>, max: nat, recent: seq<string>) {
    exists found, at :: IsRecent(messages, max, recent, found, at)
  }

  lemma TraceAdd(texts: seq<string>, i: nat, found: seq<string>, at: seq<nat>)
    requires i < |texts| && IsTrace(texts, i + 1, found, at) && Covers(texts, i + 1, found)
    requires texts[i] != "" && texts[i] !in found
    ensures IsTrace(texts, i, found + [texts[i]], at + [i]) && Covers(texts, i, found + [texts[i]])
  {
    var found', at' := found + [texts[i]], at + [i];
    forall k: nat, j: nat | k < |at'| && at'[k] < j < |texts| ensures texts[j] != found'[k] {
      assert k == |at| ==> texts[j] == "" || texts[j] in found;
    }
  }

  lemma TraceSkip(texts: seq<string>, i: nat, found: seq<string>, at: seq<nat>)
    requires i < |texts| && IsTrace(texts, i + 1, found, at) && Covers(texts, i + 1, found)
    requires texts[i] == "" || texts[i] in found
    ensures IsTrace(texts, i, found, at) && Covers(texts, i, found)
  {
  }

  method RecentUniqueMessages(messages: seq<string>, maxMessages: nat)
      returns (recent: seq<string>)
    ensures AreRecent(messages, maxMessages, recent)
  {
    recent := [];
    ghost var at: seq<nat> := [];
    ghost var texts := Trimmed(messages);
    var uniqueMessages: set<string> := {};
    var startIdx := Start(|messages|, maxMessages);
    var i := |messages| - 1;
    while i >= startIdx && |recent| < maxMessages
      invariant startIdx <= i + 1 <= |messages| && |recent| <= maxMessages
      invariant IsTrace(texts, i + 1, recent, at) && Covers(texts, i + 1, recent)
      invariant forall m :: m in uniqueMessages <==> m in recent
      invariant |recent| == maxMessages > 0 ==> at[|at| - 1] == i + 1
      invariant maxMessages == 0 ==> i + 1 == |messages|
    {
      var message := Trim(messages[i]);
      assert message == texts[i];
      if message != "" && message !in uniqueMessages {
        TraceAdd(texts, i, recent, at);
        uniqueMessages := uniqueMessages + {message};
        recent := recent + [message];
        at := at + [i];
      } else {
        TraceSkip(texts, i, recent, at);
      }
      i := i - 1;
    }
    SearchEnds(messages, maxMessages, i, recent, at);
    recent := ReverseMessages(recent);
  }

  /** Where the search stops, what it found is what is recent. */
  lemma SearchEnds(messages: seq<string>, max: nat, i: int, found: seq<string>, at: seq<nat>)
    requires Start(|messages|, max) <= i + 1 <= |messages| && |found| <= max
    requires i + 1 == Start(|messages|, max) || |found| == max
    requires IsTrace(Trimmed(messages), i + 1, found, at) && Covers(Trimmed(messages), i + 1, found)
    requires if max == 0 then i + 1 == |messages| else |found| == max ==> at[|at| - 1] == i + 1
    ensures AreRecent(messages, max, Reversed(found))
  {
    assert IsRecent(messages, max, Reversed(found), found, at);
  }

  /** The swapping loop at the end. */
  method ReverseMessages(messages: seq<string>) returns (r: seq<string>)
    ensures r == Reversed(messages)
  {
    r := messages;
    var i, j := 0, |messages| - 1;
    while i < j
      invariant 0 <= i && j == |messages| - 1 - i && i <= j + 1 && |r| == |messages|
      invariant forall k :: 0 <= k < i || j < k < |r| ==> r[k] == messages[|messages| - 1 - k]
      invariant forall k :: i <= k <= j ==> r[k] == messages[k]
    {
      r := r[i := r[j]][j := r[i]];
      i, j := i + 1, j - 1;
    }
  }

  /** The comment of the function promises the most recent message first; it comes last. */
  lemma NewestIsLast(messages: seq<string>, max: nat, recent: seq<string>, i: nat)
    requires AreRecent(messages, max, recent) && Start(|messages|, max) <= i < |messages| && max > 0
    requires Trim(messages[i]) != "" && forall k :: i < k < |messages| ==> Trim(messages[k]) == ""
    ensures recent != [] && recent[|recent| - 1] == Trim(messages[i])
  {
    var found, at :| IsRecent(messages, max, recent, found, at);
    NewestIsFirstFound(Trimmed(messages), Start(|messages|, max), Reach(messages, max, at), found, at, i);
  }

  lemma NewestIsFirstFound(texts: seq<string>, from: nat, reach: nat, found: seq<string>, at: seq<nat>, i: nat)
    requires IsTrace(texts, from, found, at) && Covers(texts, reach, found) && from <= i < |texts|
    requires reach <= if at == [] then i else at[|at| - 1]
    requires texts[i] != "" && forall k :: i < k < |texts| ==> texts[k] == ""
    ensures found != [] && found[0] == texts[i]
  {
    if at != [] { assert texts[at[|at| - 1]] != ""; }
    assert texts[i] in found;
    assert at[0] >= at[|at| - 1];
  }
}
