/** The part of Go's `strings` and `strconv` packages that the modelled code
    calls, over ASCII text: case folding, splitting, searching, and the decimal
    codec `Itoa`/`Atoi` with the clamping of `Atoi` to 64 bits. */
module Text {

  // ---------- case folding ----------

  function LowerChar(c: char): char {
    if 'A' <= c <= 'Z' then (c as int + 32) as char else c
  }

  function Lower(s: string): (r: string)
    ensures |r| == |s|
    ensures forall i :: 0 <= i < |s| ==> r[i] == LowerChar(s[i])
  {
    seq(|s|, i requires 0 <= i < |s| => LowerChar(s[i]))
  }

  predicate EqualFold(s: string, t: string) {
    Lower(s) == Lower(t)
  }

  predicate HasPrefix(s: string, p: string) {
    p <= s
  }

  predicate HasSuffix(s: string, p: string) {
    |p| <= |s| && s[|s| - |p|..] == p
  }

  // ---------- searching ----------

  ghost predicate OccursAt(s: string, w: string, k: int) {
    0 <= k <= |s| - |w| && s[k..k + |w|] == w
  }

  ghost predicate Contains(s: string, w: string) {
    exists k :: OccursAt(s, w, k)
  }

  /** `strings.Index`: the leftmost occurrence at or after `from`, or -1. */
  function IndexFrom(s: string, w: string, from: nat): (r: int)
    requires from <= |s|
    ensures r == -1 || (from <= r && OccursAt(s, w, r))
    ensures forall k :: from <= k && (r == -1 || k < r) ==> !OccursAt(s, w, k)
    decreases |s| - from
  {
    if |s| - from < |w| then -1
    else if s[from..from + |w|] == w then from
    else if from == |s| then -1
    else IndexFrom(s, w, from + 1)
  }

  function Index(s: string, w: string): (r: int)
    ensures r == -1 <==> !Contains(s, w)
    ensures r != -1 ==> OccursAt(s, w, r) && forall k :: k < r ==> !OccursAt(s, w, k)
  {
    IndexFrom(s, w, 0)
  }

  // ---------- splitting and joining ----------

  /** `strings.Split(s, sep)` for a one-character separator. */
  function Split(s: string, sep: char): (parts: seq<string>)
    ensures |parts| >= 1
  {
    if s == "" then [""]
    else
      var rest := Split(s[1..], sep);
      if s[0] == sep then [""] + rest else [[s[0]] + rest[0]] + rest[1..]
  }

  function Join(parts: seq<string>, sep: char): string
    requires |parts| >= 1
  {
    if |parts| == 1 then parts[0] else parts[0] + [sep] + Join(parts[1..], sep)
  }

  lemma {:induction false} NoneInside(s: string, sep: char)
    ensures forall p :: p in Split(s, sep) ==> sep !in p
  {
    if s != "" {
      NoneInside(s[1..], sep);
      var rest := Split(s[1..], sep);
      forall p | p in Split(s, sep) ensures sep !in p {
        assert p in rest || p == "" || p == [s[0]] + rest[0];
      }
    }
  }

  lemma JoinEmpty(rest: seq<string>, sep: char)
    requires |rest| >= 1
    ensures Join([""] + rest, sep) == [sep] + Join(rest, sep)
  {
    assert ([""] + rest)[1..] == rest;
  }

  lemma JoinLonger(c: char, rest: seq<string>, sep: char)
    requires |rest| >= 1
    ensures Join([[c] + rest[0]] + rest[1..], sep) == [c] + Join(rest, sep)
  {
    var longer := [[c] + rest[0]] + rest[1..];
    assert longer[1..] == rest[1..];
  }

  lemma {:induction false} JoinSplit(s: string, sep: char)
    ensures Join(Split(s, sep), sep) == s
    ensures forall p :: p in Split(s, sep) ==> sep !in p
  {
    NoneInside(s, sep);
    if s != "" {
      var rest := Split(s[1..], sep);
      JoinSplit(s[1..], sep);
      if s[0] == sep { JoinEmpty(rest, sep); } else { JoinLonger(s[0], rest, sep); }
      assert [s[0]] + s[1..] == s;
    }
  }

  lemma ExtendFirst(c: char, front: seq<string>, back: seq<string>)
    requires |front| >= 1
    ensures [[c] + (front + back)[0]] + (front + back)[1..] == ([[c] + front[0]] + front[1..]) + back
    ensures [""] + (front + back) == ([""] + front) + back
  {
  }

  lemma {:induction false} SplitConcat(s: string, t: string, sep: char)
    ensures Split(s + [sep] + t, sep) == Split(s, sep) + Split(t, sep)
  {
    var whole := s + [sep] + t;
    if s == "" {
      assert whole[1..] == t;
    } else {
      assert whole[0] == s[0] && whole[1..] == s[1..] + [sep] + t;
      SplitConcat(s[1..], t, sep);
      ExtendFirst(s[0], Split(s[1..], sep), Split(t, sep));
    }
  }

  // ---------- decimal numbers ----------

  const INT64_MAX := 0x7fff_ffff_ffff_ffff

  predicate IsDigit(c: char) { '0' <= c <= '9' }

  predicate AllDigits(s: string) {
    forall i :: 0 <= i < |s| ==> IsDigit(s[i])
  }

  function Digit(c: char): (d: nat)
    requires IsDigit(c)
    ensures d < 10
  {
    c as int - '0' as int
  }

  function DigitChar(d: nat): (c: char)
    requires d < 10
    ensures IsDigit(c) && Digit(c) == d
  {
    (d + '0' as int) as char
  }

  function NatValue(s: string): nat
    requires AllDigits(s)
  {
    if s == "" then 0 else 10 * NatValue(s[..|s| - 1]) + Digit(s[|s| - 1])
  }

  function NatText(n: nat): (s: string)
    ensures |s| >= 1 && AllDigits(s)
  {
    if n < 10 then [DigitChar(n)] else NatText(n / 10) + [DigitChar(n % 10)]
  }

  lemma {:induction false} NatTextValue(n: nat)
    ensures NatValue(NatText(n)) == n
  {
    var s := NatText(n);
    if n >= 10 {
      NatTextValue(n / 10);
      assert s[..|s| - 1] == NatText(n / 10);
    } else {
      assert s[..0] == "";
    }
  }

  /** `strconv.Itoa`. */
  function Itoa(n: int): string {
    if n < 0 then "-" + NatText(-n) else NatText(n)
  }

  function Unsigned(s: string): string {
    if s != "" && (s[0] == '-' || s[0] == '+') then s[1..] else s
  }

  predicate IsNumeral(s: string) {
    Unsigned(s) != "" && AllDigits(Unsigned(s))
  }

  function Signed(s: string): int
    requires IsNumeral(s)
  {
    if s[0] == '-' then -(NatValue(s[1..]) as int) else NatValue(Unsigned(s))
  }

  /** The error result of `strconv.Atoi`: a syntax error or a value outside 64 bits. */
  predicate AtoiFails(s: string) {
    !IsNumeral(s) || Signed(s) > INT64_MAX || Signed(s) < -INT64_MAX - 1
  }

  /** The value result of `strconv.Atoi`: 0 on a syntax error, clamped when out of range. */
  function Atoi(s: string): (v: int)
    ensures !IsNumeral(s) ==> v == 0
    ensures -INT64_MAX - 1 <= v <= INT64_MAX
  {
    if !IsNumeral(s) then 0
    else if Signed(s) > INT64_MAX then INT64_MAX
    else if Signed(s) < -INT64_MAX - 1 then -INT64_MAX - 1
    else Signed(s)
  }

  lemma AtoiItoa(n: int)
    requires -INT64_MAX - 1 <= n <= INT64_MAX
    ensures !AtoiFails(Itoa(n)) && Atoi(Itoa(n)) == n
  {
    var s := Itoa(n);
    NatTextValue(if n < 0 then -n else n);
    if n < 0 {
      assert s[1..] == NatText(-n);
    } else {
      assert IsDigit(s[0]) && Unsigned(s) == s;
    }
  }

  lemma ItoaSign(n: int)
    ensures Itoa(n) != "" && (Itoa(n)[0] == '-' <==> n < 0)
  {
    var s := Itoa(n);
    assert n >= 0 ==> AllDigits(s);
  }

  lemma ItoaInjective(m: int, n: int)
    requires Itoa(m) == Itoa(n)
    ensures m == n
  {
    var s := Itoa(m);
    ItoaSign(m);
    ItoaSign(n);
    NatTextValue(if m < 0 then -m else m);
    NatTextValue(if n < 0 then -n else n);
    if s[0] == '-' {
      assert s[1..] == NatText(-m) && s[1..] == NatText(-n);
    }
  }

  /** Lowering turns capital letters into their small ones and leaves everything else. */
  lemma LowersCapitals(k: nat)
    requires k < 26
    ensures LowerChar("ABCDEFGHIJKLMNOPQRSTUVWXYZ"[k]) == "abcdefghijklmnopqrstuvwxyz"[k]
    ensures forall c: char :: c !in "ABCDEFGHIJKLMNOPQRSTUVWXYZ" ==> LowerChar(c) == c
  {
    var capitals := "ABCDEFGHIJKLMNOPQRSTUVWXYZ";
    forall c: char | 'A' <= c <= 'Z' ensures c in capitals { assert capitals[c as int - 65] == c; }
  }
}
