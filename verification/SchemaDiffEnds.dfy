/** Where the comparison of two schemas ends: the depth of one schema, and the pairs of schemas a comparison meets. */
module SchemaDiffEnds {
  import opened Options
  import opened SchemaDiff

  // ---------- the depth of one schema ----------

  /** Following properties, items and references from `s` comes to an end within `n` steps. */
  ghost predicate Deep(spec: Spec, s: Schema, n: nat)
    decreases n
  {
    n > 0 && var r := Resolve(spec, s);
             (forall p :: p in r.props ==> Deep(spec, r.props[p], n - 1)) && (r.items.Some? ==> Deep(spec, r.items.value, n - 1))
  }

  lemma {:induction false} DeepGrows(spec: Spec, s: Schema, n: nat, m: nat)
    requires Deep(spec, s, n) && n <= m
    ensures Deep(spec, s, m)
    decreases n
  {
    var r := Resolve(spec, s);
    forall p | p in r.props ensures Deep(spec, r.props[p], m - 1) { DeepGrows(spec, r.props[p], n - 1, m - 1); }
    if r.items.Some? { DeepGrows(spec, r.items.value, n - 1, m - 1); }
  }

  /** Properties and items of a resolved schema end within `n` steps. */
  ghost predicate DeepBelow(spec: Spec, r: Schema, n: nat) {
    (forall p :: p in r.props ==> Deep(spec, r.props[p], n)) && (r.items.Some? ==> Deep(spec, r.items.value, n))
  }

  // ---------- references of one specification that lead around ----------

  /** Following `s` leads to the definition `d`: `s` refers to it, or else something below `s` does. */
  ghost predicate Mentions(spec: Spec, s: Schema, d: string)
    decreases s, 1
  {
    if Reference in s.fields && s.fields[Reference] in spec then s.fields[Reference] == d else MentionsBelow(spec, s, d)
  }

  ghost predicate MentionsBelow(spec: Spec, r: Schema, d: string)
    decreases r, 0
  {
    (exists p :: p in r.props && Mentions(spec, r.props[p], d)) || (r.items.Some? && Mentions(spec, r.items.value, d))
  }

  /** A chain of definitions followed from `s`: each is mentioned below the one before. */
  ghost predicate IsFollowed(spec: Spec, s: Schema, chain: seq<string>) {
    && (forall d :: d in chain ==> d in spec)
    && (chain != [] ==> Mentions(spec, s, chain[0]))
    && (forall i :: 0 < i < |chain| ==> MentionsBelow(spec, spec[chain[i - 1]], chain[i]))
  }

  ghost predicate IsDistinct<T>(chain: seq<T>) {
    forall i, j :: 0 <= i < j < |chain| ==> chain[i] != chain[j]
  }

  ghost predicate HasDepth(spec: Spec, s: Schema) {
    exists n: nat :: Deep(spec, s, n)
  }

  /** A schema has a depth if and only if no chain of references followed from it meets a definition twice. */
  lemma DepthIff(spec: Spec, s: Schema)
    ensures HasDepth(spec, s) <==> forall chain :: IsFollowed(spec, s, chain) ==> IsDistinct(chain)
  {
    if n: nat :| Deep(spec, s, n) {
      forall chain | IsFollowed(spec, s, chain) ensures IsDistinct(chain) {
        forall i, j | 0 <= i < j < |chain| ensures chain[i] != chain[j] {
          MentionFalls(spec, s, chain[0], n);
          ChainFalls(spec, s, chain, 0, i, n - 1);
          if chain[i] == chain[j] { NoReturn(spec, s, chain, i, j, n - 1 - i); }
        }
      }
    }
    if forall chain :: IsFollowed(spec, s, chain) ==> IsDistinct(chain) {
      var n := Explore(spec, s, [], s);
    }
  }

  lemma DeepBelowGrows(spec: Spec, r: Schema, n: nat, m: nat)
    requires DeepBelow(spec, r, n) && n <= m
    ensures DeepBelow(spec, r, m)
  {
    forall p | p in r.props ensures Deep(spec, r.props[p], m) { DeepGrows(spec, r.props[p], n, m); }
    if r.items.Some? { DeepGrows(spec, r.items.value, n, m); }
  }

  /** A definition that is mentioned is less deep. */
  lemma {:induction false} MentionFalls(spec: Spec, s: Schema, d: string, n: nat)
    requires Deep(spec, s, n) && d in spec && Mentions(spec, s, d)
    ensures DeepBelow(spec, spec[d], n - 1)
    decreases s, 1
  {
    if !(Reference in s.fields && s.fields[Reference] in spec) {
      MentionFallsBelow(spec, s, d, n - 1);
      DeepBelowGrows(spec, spec[d], n - 2, n - 1);
    }
  }

  lemma {:induction false} MentionFallsBelow(spec: Spec, r: Schema, d: string, n: nat)
    requires DeepBelow(spec, r, n) && d in spec && MentionsBelow(spec, r, d)
    ensures n > 0 && DeepBelow(spec, spec[d], n - 1)
    decreases r, 0
  {
    if p :| p in r.props && Mentions(spec, r.props[p], d) {
      MentionFalls(spec, r.props[p], d, n);
    } else {
      MentionFalls(spec, r.items.value, d, n);
    }
  }

  /** Every step of a chain falls by one. */
  lemma {:induction false} ChainFalls(spec: Spec, s: Schema, chain: seq<string>, i: nat, j: nat, n: nat)
    requires IsFollowed(spec, s, chain) && i <= j < |chain| && DeepBelow(spec, spec[chain[i]], n)
    ensures j - i <= n && DeepBelow(spec, spec[chain[j]], n - (j - i))
    decreases j
  {
    if i < j {
      ChainFalls(spec, s, chain, i, j - 1, n);
      MentionFallsBelow(spec, spec[chain[j - 1]], chain[j], n - (j - 1 - i));
    }
  }

  /** So a chain that comes back to a definition cannot have started at any depth. */
  lemma {:induction false} NoReturn(spec: Spec, s: Schema, chain: seq<string>, i: nat, j: nat, n: nat)
    requires IsFollowed(spec, s, chain) && i < j < |chain| && chain[i] == chain[j] && DeepBelow(spec, spec[chain[i]], n)
    ensures false
    decreases n
  {
    ChainFalls(spec, s, chain, i, j, n);
    NoReturn(spec, s, chain, i, j, n - (j - i));
  }

  lemma {:induction false} DistinctFits<T>(chain: seq<T>, names: set<T>)
    requires IsDistinct(chain) && forall d :: d in chain ==> d in names
    ensures |chain| <= |names|
    decreases |chain|
  {
    if chain != [] {
      var last := |chain| - 1;
      DistinctFits(chain[..last], names - {chain[last]});
    }
  }

  /** A bound for all of a finite map of schemas, given one for each. */
  lemma {:induction false} CommonDepth(spec: Spec, props: map<string, Schema>) returns (n: nat)
    requires forall p :: p in props ==> HasDepth(spec, props[p])
    ensures forall p :: p in props ==> Deep(spec, props[p], n)
    decreases |props|
  {
    n := 0;
    if props != map[] {
      var q :| q in props;
      var rest := props - {q};
      assert |rest| < |props| by { assert rest.Keys == props.Keys - {q}; }
      assert forall p :: p in rest ==> rest[p] == props[p] && p in props;
      var m := CommonDepth(spec, rest);
      var l: nat :| Deep(spec, props[q], l);
      n := if l < m then m else l;
      forall p | p in props ensures Deep(spec, props[p], n) {
        if p == q { DeepGrows(spec, props[p], l, n); } else { DeepGrows(spec, rest[p], m, n); }
      }
    }
  }

  lemma DepthFromBelow(spec: Spec, s: Schema) returns (n: nat)
    requires var r := Resolve(spec, s);
             (forall p :: p in r.props ==> HasDepth(spec, r.props[p])) && (r.items.Some? ==> HasDepth(spec, r.items.value))
    ensures Deep(spec, s, n)
  {
    var r := Resolve(spec, s);
    var m := CommonDepth(spec, r.props);
    var l: nat := 0;
    if r.items.Some? { l :| Deep(spec, r.items.value, l); }
    n := 1 + m + l;
    forall p | p in r.props ensures Deep(spec, r.props[p], n - 1) { DeepGrows(spec, r.props[p], m, n - 1); }
    if r.items.Some? { DeepGrows(spec, r.items.value, l, n - 1); }
  }

  /** What `s`, found at the end of a chain from `top`, mentions continues the chain. */
  ghost predicate Continues(spec: Spec, top: Schema, trail: seq<string>, s: Schema) {
    forall d :: d in spec && Mentions(spec, s, d) ==> IsFollowed(spec, top, trail + [d])
  }

  /** A search along chains without repetition ends and finds a depth. */
  lemma {:induction false} Explore(spec: Spec, top: Schema, trail: seq<string>, s: Schema) returns (n: nat)
    requires IsFollowed(spec, top, trail) && Continues(spec, top, trail, s)
    requires forall chain :: IsFollowed(spec, top, chain) ==> IsDistinct(chain)
    ensures Deep(spec, s, n)
    decreases |spec| - |trail|, s
  {
    var r := Resolve(spec, s);
    var next := trail;
    if Reference in s.fields && s.fields[Reference] in spec {
      next := trail + [s.fields[Reference]];
      assert IsFollowed(spec, top, next);
      DistinctFits(next, spec.Keys);
    }
    forall p | p in r.props ensures HasDepth(spec, r.props[p]) {
      ContinuesBelow(spec, top, trail, s, r.props[p]);
      var m := Explore(spec, top, next, r.props[p]);
    }
    if r.items.Some? {
      ContinuesBelow(spec, top, trail, s, r.items.value);
      var m := Explore(spec, top, next, r.items.value);
    }
    n := DepthFromBelow(spec, s);
  }

  lemma ContinuesBelow(spec: Spec, top: Schema, trail: seq<string>, s: Schema, x: Schema)
    requires Continues(spec, top, trail, s)
    requires var r := Resolve(spec, s); (exists p :: p in r.props && r.props[p] == x) || r.items == Some(x)
    ensures Continues(spec, top,
                      if Reference in s.fields && s.fields[Reference] in spec then trail + [s.fields[Reference]] else trail, x)
  {
    forall d | d in spec && Mentions(spec, x, d)
      ensures IsFollowed(spec, top, (if Reference in s.fields && s.fields[Reference] in spec
                                     then trail + [s.fields[Reference]] else trail) + [d])
    {
      assert MentionsBelow(spec, Resolve(spec, s), d);
      if Reference in s.fields && s.fields[Reference] in spec {
        assert IsFollowed(spec, top, trail + [s.fields[Reference]]);
      }
    }
  }

  /** Definitions in order: each mentions below it only definitions of lower rank. */
  ghost predicate IsRanked(spec: Spec, rank: map<string, nat>) {
    && (forall d :: d in spec ==> d in rank)
    && (forall d, e :: d in spec && e in spec && MentionsBelow(spec, spec[d], e) ==> rank[e] < rank[d])
  }

  /** Every schema has a depth if and only if the definitions can be put in such an order. */
  lemma RankedIff(spec: Spec)
    ensures (exists rank :: IsRanked(spec, rank)) <==> forall s :: HasDepth(spec, s)
  {
    if rank :| IsRanked(spec, rank) {
      forall s ensures HasDepth(spec, s) { RankedIsDeep(spec, rank, s); }
    }
    if forall s :: HasDepth(spec, s) {
      forall d | d in spec ensures exists n: nat :: DeepBelow(spec, spec[d], n) {
        var s := NOTHING.(fields := map[Reference := d]);
        assert HasDepth(spec, s);
        var n: nat :| Deep(spec, s, n);
        assert DeepBelow(spec, spec[d], n - 1);
      }
      var rank := map d | d in spec :: Depth(spec, spec[d]);
      forall d, e | d in spec && e in spec && MentionsBelow(spec, spec[d], e) ensures rank[e] < rank[d] {
        MentionFallsBelow(spec, spec[d], e, rank[d]);
      }
      assert IsRanked(spec, rank);
    }
  }

  /** The least depth below a schema. */
  ghost function Depth(spec: Spec, r: Schema): (n: nat)
    requires exists n: nat :: DeepBelow(spec, r, n)
    ensures DeepBelow(spec, r, n) && forall m: nat :: DeepBelow(spec, r, m) ==> n <= m
  {
    var n: nat :| DeepBelow(spec, r, n);
    LeastDepth(spec, r, n)
  }

  ghost function LeastDepth(spec: Spec, r: Schema, n: nat): (l: nat)
    requires DeepBelow(spec, r, n)
    ensures DeepBelow(spec, r, l) && forall m: nat :: DeepBelow(spec, r, m) ==> l <= m
  {
    if n > 0 && DeepBelow(spec, r, n - 1) then LeastDepth(spec, r, n - 1)
    else
      assert forall m: nat :: DeepBelow(spec, r, m) ==> n <= m by { Least(spec, r, n); }
      n
  }

  lemma Least(spec: Spec, r: Schema, n: nat)
    requires n > 0 ==> !DeepBelow(spec, r, n - 1)
    ensures forall m: nat :: DeepBelow(spec, r, m) ==> n <= m
  {
    forall m: nat | DeepBelow(spec, r, m) ensures n <= m {
      if m < n { DeepBelowGrows(spec, r, m, n - 1); }
    }
  }

  lemma {:induction false} RankFalls(spec: Spec, rank: map<string, nat>, s: Schema, chain: seq<string>, i: nat, j: nat)
    requires IsRanked(spec, rank) && IsFollowed(spec, s, chain) && i < j < |chain|
    ensures rank[chain[j]] < rank[chain[i]]
    decreases j
  {
    assert MentionsBelow(spec, spec[chain[j - 1]], chain[j]);
    if i < j - 1 { RankFalls(spec, rank, s, chain, i, j - 1); }
  }

  /** One such order gives every schema a depth. */
  lemma RankedIsDeep(spec: Spec, rank: map<string, nat>, s: Schema)
    requires IsRanked(spec, rank)
    ensures HasDepth(spec, s)
  {
    forall chain | IsFollowed(spec, s, chain) ensures IsDistinct(chain) {
      forall i, j | 0 <= i < j < |chain| ensures chain[i] != chain[j] { RankFalls(spec, rank, s, chain, i, j); }
    }
    DepthIff(spec, s);
  }

  // ---------- pairs that lead around ----------

  ghost predicate HasEnd(o: Spec, s: Schema, w: Spec, t: Schema) {
    exists n: nat :: Ends(o, s, w, t, n)
  }

  lemma {:induction false} EndsGrows(o: Spec, s: Schema, w: Spec, t: Schema, n: nat, m: nat)
    requires Ends(o, s, w, t, n) && n <= m
    ensures Ends(o, s, w, t, m)
    decreases n, 0
  {
    EndsBelowGrows(o, Resolve(o, s), w, Resolve(w, t), n - 1, m - 1);
  }

  lemma EndsBelowGrows(o: Spec, a: Schema, w: Spec, b: Schema, n: nat, m: nat)
    requires EndsBelow(o, a, w, b, n) && n <= m
    ensures EndsBelow(o, a, w, b, m)
    decreases n, 1
  {
    forall p | p in a.props && p in b.props ensures Ends(o, a.props[p], w, b.props[p], m) {
      EndsGrows(o, a.props[p], w, b.props[p], n, m);
    }
    if ItemsDiffer(a, b) { EndsGrows(o, Items(a), w, Items(b), n, m); }
  }

  /** One hop of the comparison from a pair of resolved schemas. */
  function After(o: Spec, a: Schema, w: Spec, b: Schema, hop: Hop): Option<(Schema, Schema)> {
    match hop
    case Prop(p) => if p in a.props && p in b.props then Some((Resolve(o, a.props[p]), Resolve(w, b.props[p]))) else None
    case Item => if ItemsDiffer(a, b) then Some((Resolve(o, Items(a)), Resolve(w, Items(b)))) else None
  }

  function Walk(o: Spec, a: Schema, w: Spec, b: Schema, path: seq<Hop>): Option<(Schema, Schema)>
    decreases |path|
  {
    if path == [] then Some((a, b))
    else
      var next := After(o, a, w, b, path[0]);
      if next.Some? then Walk(o, next.value.0, w, next.value.1, path[1..]) else None
  }

  lemma {:induction false} PairIsWalk(o: Spec, s: Schema, w: Spec, t: Schema, path: seq<Hop>)
    ensures Pair(o, s, w, t, path) == Walk(o, Resolve(o, s), w, Resolve(w, t), path)
    decreases |path|
  {
    if path != [] {
      var a, b := Resolve(o, s), Resolve(w, t);
      match path[0]
      case Prop(p) => if p in a.props && p in b.props { PairIsWalk(o, a.props[p], w, b.props[p], path[1..]); }
      case Item => PairIsWalk(o, Items(a), w, Items(b), path[1..]);
    }
  }

  lemma {:induction false} WalkOn(o: Spec, a: Schema, w: Spec, b: Schema, first: seq<Hop>, rest: seq<Hop>)
    ensures var m := Walk(o, a, w, b, first);
            Walk(o, a, w, b, first + rest) == if m.Some? then Walk(o, m.value.0, w, m.value.1, rest) else None
    decreases |first|
  {
    if first == [] {
      assert first + rest == rest;
    } else {
      assert (first + rest)[1..] == first[1..] + rest;
      var next := After(o, a, w, b, first[0]);
      if next.Some? { WalkOn(o, next.value.0, w, next.value.1, first[1..], rest); }
    }
  }

  /** Every hop uses up a level. */
  lemma {:induction false} WalkFalls(o: Spec, a: Schema, w: Spec, b: Schema, path: seq<Hop>, n: nat)
    requires EndsBelow(o, a, w, b, n) && Walk(o, a, w, b, path).Some?
    ensures var (x, y) := Walk(o, a, w, b, path).value;
            |path| <= n && EndsBelow(o, x, w, y, n - |path|)
    decreases |path|
  {
    if path != [] {
      var next := After(o, a, w, b, path[0]).value;
      WalkFalls(o, next.0, w, next.1, path[1..], n - 1);
    }
  }

  /** So no walk with a bound comes back to its start. */
  lemma {:induction false} NoWalkBack(o: Spec, a: Schema, w: Spec, b: Schema, path: seq<Hop>, n: nat)
    requires EndsBelow(o, a, w, b, n) && path != []
    ensures Walk(o, a, w, b, path) != Some((a, b))
    decreases n
  {
    if Walk(o, a, w, b, path) == Some((a, b)) {
      WalkFalls(o, a, w, b, path, n);
      NoWalkBack(o, a, w, b, path, n - |path|);
    }
  }

  /** A walk down a path, cut at `i` and `j`. */
  lemma PairBetween(o: Spec, s: Schema, w: Spec, t: Schema, path: seq<Hop>, i: nat, j: nat)
    requires i <= j <= |path| && Pair(o, s, w, t, path).Some?
    ensures Pair(o, s, w, t, path[..i]).Some?
    ensures var (x, y) := Pair(o, s, w, t, path[..i]).value; Walk(o, x, w, y, path[i..j]) == Pair(o, s, w, t, path[..j])
  {
    PairPrefix(o, s, w, t, path, i);
    assert path[..i] + path[i..j] == path[..j];
    PairIsWalk(o, s, w, t, path[..i]);
    PairIsWalk(o, s, w, t, path[..j]);
    WalkOn(o, Resolve(o, s), w, Resolve(w, t), path[..i], path[i..j]);
  }

  lemma PairPrefix(o: Spec, s: Schema, w: Spec, t: Schema, path: seq<Hop>, i: nat)
    requires i <= |path| && Pair(o, s, w, t, path).Some?
    ensures Pair(o, s, w, t, path[..i]).Some?
  {
    assert path[..i] + path[i..] == path;
    PairIsWalk(o, s, w, t, path[..i]);
    PairIsWalk(o, s, w, t, path);
    WalkOn(o, Resolve(o, s), w, Resolve(w, t), path[..i], path[i..]);
  }

  /** The comparison follows the path, and meets the same pair of schemas twice on it. */
  ghost predicate Revisits(o: Spec, s: Schema, w: Spec, t: Schema, path: seq<Hop>) {
    && Pair(o, s, w, t, path).Some?
    && exists i, j :: 0 <= i < j <= |path| && Pair(o, s, w, t, path[..i]) == Pair(o, s, w, t, path[..j])
  }

  /** The comparison ends if and only if it follows no path on which it meets the same pair of schemas twice. */
  lemma EndsIff(o: Spec, s: Schema, w: Spec, t: Schema)
    ensures HasEnd(o, s, w, t) <==> forall path :: !Revisits(o, s, w, t, path)
  {
    if n: nat :| Ends(o, s, w, t, n) {
      forall path ensures !Revisits(o, s, w, t, path) {
        NoRevisit(o, s, w, t, path, n);
      }
    }
    if forall path :: !Revisits(o, s, w, t, path) {
      var n := Search(o, s, w, t, [], Resolve(o, s), Resolve(w, t));
      assert Ends(o, s, w, t, n + 1);
    }
  }

  lemma NoRevisit(o: Spec, s: Schema, w: Spec, t: Schema, path: seq<Hop>, n: nat)
    requires Ends(o, s, w, t, n)
    ensures !Revisits(o, s, w, t, path)
  {
    if Pair(o, s, w, t, path).Some? {
      forall i, j | 0 <= i < j <= |path| ensures Pair(o, s, w, t, path[..i]) != Pair(o, s, w, t, path[..j]) {
        PairBetween(o, s, w, t, path, i, j);
        var pair := Pair(o, s, w, t, path[..i]).value;
        PairIsWalk(o, s, w, t, path[..i]);
        WalkFalls(o, Resolve(o, s), w, Resolve(w, t), path[..i], n - 1);
        NoWalkBack(o, pair.0, w, pair.1, path[i..j], n - 1 - i);
      }
    }
  }

  // ---------- finitely many pairs ----------

  /** All schemas written in a schema, itself among them. */
  ghost function Parts(s: Schema): (parts: set<Schema>)
    ensures s in parts
  {
    {s} + (set p, x | p in s.props && x in Parts(s.props[p]) :: x) + if s.items.Some? then Parts(s.items.value) else {}
  }

  lemma {:induction false} PartsClosed(s: Schema, x: Schema)
    requires x in Parts(s)
    ensures forall p :: p in x.props ==> x.props[p] in Parts(s)
    ensures x.items.Some? ==> x.items.value in Parts(s)
  {
    if p :| p in s.props && x in Parts(s.props[p]) {
      PartsClosed(s.props[p], x);
    } else if s.items.Some? && x in Parts(s.items.value) {
      PartsClosed(s.items.value, x);
    }
  }

  ghost function Defined(spec: Spec): set<Schema> {
    set d, x | d in spec && x in Parts(spec[d]) :: x
  }

  /** All schemas the comparison can come to on one side. */
  ghost function Places(spec: Spec, s: Schema): set<Schema> {
    Parts(s) + {NOTHING} + Defined(spec)
  }

  lemma DefinedClosed(spec: Spec, x: Schema)
    requires x in Defined(spec)
    ensures forall p :: p in x.props ==> x.props[p] in Defined(spec)
    ensures x.items.Some? ==> x.items.value in Defined(spec)
  {
    var d :| d in spec && x in Parts(spec[d]);
    PartsClosed(spec[d], x);
  }

  lemma PlacesClosed(spec: Spec, s: Schema, x: Schema)
    requires x in Places(spec, s)
    ensures Items(x) in Places(spec, s) && forall p :: p in x.props ==> x.props[p] in Places(spec, s)
  {
    if x in Parts(s) {
      PartsClosed(s, x);
    } else if x in Defined(spec) {
      DefinedClosed(spec, x);
    }
  }

  lemma PlacesResolved(spec: Spec, s: Schema, x: Schema)
    requires x in Places(spec, s)
    ensures Resolve(spec, x) in Places(spec, s)
  {
    if Reference in x.fields && x.fields[Reference] in spec {
      assert spec[x.fields[Reference]] in Parts(spec[x.fields[Reference]]);
    }
  }

  ghost function Pairs(o: Spec, s: Schema, w: Spec, t: Schema): set<(Schema, Schema)> {
    set x, y | x in Places(o, s) && y in Places(w, t) :: (x, y)
  }

  lemma {:induction false} WalkStays(o: Spec, s: Schema, w: Spec, t: Schema, a: Schema, b: Schema, path: seq<Hop>)
    requires a in Places(o, s) && b in Places(w, t) && Walk(o, a, w, b, path).Some?
    ensures Walk(o, a, w, b, path).value in Pairs(o, s, w, t)
    decreases |path|
  {
    if path != [] {
      PlacesClosed(o, s, a);
      PlacesClosed(w, t, b);
      PlacesResolved(o, s, match path[0] case Prop(p) => a.props[p] case Item => Items(a));
      PlacesResolved(w, t, match path[0] case Prop(p) => b.props[p] case Item => Items(b));
      var next := After(o, a, w, b, path[0]).value;
      WalkStays(o, s, w, t, next.0, next.1, path[1..]);
    }
  }

  lemma PairStays(o: Spec, s: Schema, w: Spec, t: Schema, path: seq<Hop>)
    requires Pair(o, s, w, t, path).Some?
    ensures Pair(o, s, w, t, path).value in Pairs(o, s, w, t)
  {
    PlacesResolved(o, s, s);
    PlacesResolved(w, t, t);
    PairIsWalk(o, s, w, t, path);
    WalkStays(o, s, w, t, Resolve(o, s), Resolve(w, t), path);
  }

  /** A path without repetition is no longer than there are pairs. */
  lemma PathFits(o: Spec, s: Schema, w: Spec, t: Schema, path: seq<Hop>)
    requires Pair(o, s, w, t, path).Some? && !Revisits(o, s, w, t, path)
    ensures |path| < |Pairs(o, s, w, t)|
  {
    forall i | 0 <= i <= |path|
      ensures Pair(o, s, w, t, path[..i]).Some? && Pair(o, s, w, t, path[..i]).value in Pairs(o, s, w, t)
    {
      PairPrefix(o, s, w, t, path, i);
      PairStays(o, s, w, t, path[..i]);
    }
    var met := seq(|path| + 1, i requires 0 <= i <= |path| => Pair(o, s, w, t, path[..i]).value);
    forall i, j | 0 <= i < j < |met| ensures met[i] != met[j] {
      assert Pair(o, s, w, t, path[..i]) != Pair(o, s, w, t, path[..j]);
    }
    DistinctFits(met, Pairs(o, s, w, t));
  }

  // ---------- the search ----------

  /** A bound for common properties, given one for each. */
  lemma {:induction false} CommonEnd(o: Spec, a: Schema, w: Spec, b: Schema, names: set<string>) returns (n: nat)
    requires forall p :: p in names ==> p in a.props && p in b.props && HasEnd(o, a.props[p], w, b.props[p])
    ensures forall p :: p in names ==> Ends(o, a.props[p], w, b.props[p], n)
    decreases |names|
  {
    n := 0;
    if names != {} {
      var q :| q in names;
      var m := CommonEnd(o, a, w, b, names - {q});
      var l: nat :| Ends(o, a.props[q], w, b.props[q], l);
      n := if l < m then m else l;
      forall p | p in names ensures Ends(o, a.props[p], w, b.props[p], n) {
        EndsGrows(o, a.props[p], w, b.props[p], if p == q then l else m, n);
      }
    }
  }

  lemma EndFromBelow(o: Spec, a: Schema, w: Spec, b: Schema) returns (n: nat)
    requires forall p :: p in a.props && p in b.props ==> HasEnd(o, a.props[p], w, b.props[p])
    requires ItemsDiffer(a, b) ==> HasEnd(o, Items(a), w, Items(b))
    ensures EndsBelow(o, a, w, b, n)
  {
    var m := CommonEnd(o, a, w, b, a.props.Keys * b.props.Keys);
    var l: nat := 0;
    if ItemsDiffer(a, b) { l :| Ends(o, Items(a), w, Items(b), l); }
    n := m + l;
    forall p | p in a.props && p in b.props ensures Ends(o, a.props[p], w, b.props[p], n) {
      EndsGrows(o, a.props[p], w, b.props[p], m, n);
    }
    if ItemsDiffer(a, b) { EndsGrows(o, Items(a), w, Items(b), l, n); }
  }

  /** Searching along paths without repetition ends and finds a bound. */
  lemma {:induction false} Search(o: Spec, s: Schema, w: Spec, t: Schema, path: seq<Hop>, a: Schema, b: Schema) returns (n: nat)
    requires Pair(o, s, w, t, path) == Some((a, b)) && forall path :: !Revisits(o, s, w, t, path)
    ensures EndsBelow(o, a, w, b, n)
    decreases |Pairs(o, s, w, t)| - |path|
  {
    PathFits(o, s, w, t, path);
    forall p | p in a.props && p in b.props ensures HasEnd(o, a.props[p], w, b.props[p]) {
      var x, y := Resolve(o, a.props[p]), Resolve(w, b.props[p]);
      PairOn(o, s, w, t, path, a, b, Prop(p));
      var m := Search(o, s, w, t, path + [Prop(p)], x, y);
      assert Ends(o, a.props[p], w, b.props[p], m + 1);
    }
    if ItemsDiffer(a, b) {
      var x, y := Resolve(o, Items(a)), Resolve(w, Items(b));
      PairOn(o, s, w, t, path, a, b, Item);
      var m := Search(o, s, w, t, path + [Item], x, y);
      assert Ends(o, Items(a), w, Items(b), m + 1);
    }
    n := EndFromBelow(o, a, w, b);
  }

  lemma PairOn(o: Spec, s: Schema, w: Spec, t: Schema, path: seq<Hop>, a: Schema, b: Schema, hop: Hop)
    requires Pair(o, s, w, t, path) == Some((a, b))
    ensures Pair(o, s, w, t, path + [hop]) == After(o, a, w, b, hop)
  {
    PairIsWalk(o, s, w, t, path);
    PairIsWalk(o, s, w, t, path + [hop]);
    WalkOn(o, Resolve(o, s), w, Resolve(w, t), path, [hop]);
    var next := After(o, a, w, b, hop);
    assert [hop][1..] == [];
    if next.Some? { assert Walk(o, next.value.0, w, next.value.1, []) == next; }
  }

  // ---------- definitions that do not lead around, and some that do ----------

  /** Two schemas that have a depth are compared within it. */
  lemma {:induction false} DeepEnds(o: Spec, s: Schema, w: Spec, t: Schema, n: nat)
    requires Deep(o, s, n) && Deep(w, t, n)
    ensures Ends(o, s, w, t, n)
    decreases n
  {
    var a, b := Resolve(o, s), Resolve(w, t);
    forall p | p in a.props && p in b.props ensures Ends(o, a.props[p], w, b.props[p], n - 1) {
      DeepEnds(o, a.props[p], w, b.props[p], n - 1);
    }
    if ItemsDiffer(a, b) {
      assert a.items.Some? || b.items.Some?;
      DeepEnds(o, Items(a), w, Items(b), n - 1);
    }
  }

  /** Where no chain of references meets a definition twice on either side, the comparison ends. */
  lemma AcyclicEnds(o: Spec, s: Schema, w: Spec, t: Schema)
    requires forall chain :: IsFollowed(o, s, chain) ==> IsDistinct(chain)
    requires forall chain :: IsFollowed(w, t, chain) ==> IsDistinct(chain)
    ensures HasEnd(o, s, w, t)
  {
    DepthIff(o, s);
    DepthIff(w, t);
    var l: nat, m: nat :| Deep(o, s, l) && Deep(w, t, m);
    var n := if l < m then m else l;
    DeepGrows(o, s, l, n);
    DeepGrows(w, t, m, n);
    DeepEnds(o, s, w, t, n);
  }

  function RefTo(ref: string): Schema {
    NOTHING.(fields := map[Reference := ref])
  }

  function ListOf(ref: string): Schema {
    NOTHING.(fields := map[Type := "array"], items := Some(RefTo(ref)))
  }

  function Plain(name: string): Schema {
    NOTHING.(fields := map[Type := name])
  }

  /** A definition with itself as a property, in both versions: comparing it does not end, changed or not. */
  lemma NestedNeverEnds(o: Spec, w: Spec, ref: string, p: string)
    requires ref in o && p in o[ref].props && o[ref].props[p] == RefTo(ref)
    requires ref in w && p in w[ref].props && w[ref].props[p] == RefTo(ref)
    ensures !HasEnd(o, RefTo(ref), w, RefTo(ref))
  {
    var path := [Prop(p)];
    assert path[1..] == [] && path[..0] == [] && path[..1] == path;
    assert Pair(o, RefTo(ref), w, RefTo(ref), path) == Pair(o, RefTo(ref), w, RefTo(ref), []) == Some((o[ref], w[ref]));
    assert Revisits(o, RefTo(ref), w, RefTo(ref), path);
    EndsIff(o, RefTo(ref), w, RefTo(ref));
  }

  const ACCESS_INFO := "#/components/schemas/model.MciAccessInfo"
  const GROUP_ACCESS_INFO := "#/components/schemas/model.MciSubGroupAccessInfo"
  const NETWORK := "#/components/schemas/netutil.Network"

  /** The access information of an MCI, as the API describes it. */
  function AccessInfo(): Schema {
    Plain("object").(props := map["mciId" := Plain("string"), "mciNlbListener" := RefTo(ACCESS_INFO),
                                  "mciSubGroupAccessInfo" := ListOf(GROUP_ACCESS_INFO)])
  }

  /** The API has such a definition: even two versions that agree on it are not compared to the end. */
  lemma AccessInfoNeverEnds(o: Spec, w: Spec)
    requires ACCESS_INFO in o && o[ACCESS_INFO] == AccessInfo() && ACCESS_INFO in w && w[ACCESS_INFO] == AccessInfo()
    ensures !HasEnd(o, RefTo(ACCESS_INFO), w, RefTo(ACCESS_INFO))
  {
    NestedNeverEnds(o, w, ACCESS_INFO, "mciNlbListener");
  }

  function Network(description: string): Schema {
    NOTHING.(fields := map[Type := "object", Description := description],
             props := map["cidrBlock" := Plain("string"), "name" := Plain("string"), "subnets" := ListOf(NETWORK)])
  }

  /** It also has one with itself as the items of a property. They are written the same in both versions, so the
      comparison stops there, although neither side has a depth. */
  lemma NetworkEnds(o: Spec, w: Spec, before: string, after: string)
    requires NETWORK in o && o[NETWORK] == Network(before) && NETWORK in w && w[NETWORK] == Network(after)
    ensures Ends(o, RefTo(NETWORK), w, RefTo(NETWORK), 2)
    ensures !HasDepth(o, RefTo(NETWORK)) && !HasDepth(w, RefTo(NETWORK))
  {
    NetworkHasNoDepth(o, before);
    NetworkHasNoDepth(w, after);
  }

  lemma NetworkHasNoDepth(spec: Spec, description: string)
    requires NETWORK in spec && spec[NETWORK] == Network(description)
    ensures !HasDepth(spec, RefTo(NETWORK))
  {
    var chain := [NETWORK, NETWORK];
    assert Mentions(spec, RefTo(NETWORK), NETWORK);
    assert MentionsBelow(spec, ListOf(NETWORK), NETWORK);
    assert Mentions(spec, spec[NETWORK].props["subnets"], NETWORK);
    assert MentionsBelow(spec, spec[NETWORK], NETWORK);
    assert IsFollowed(spec, RefTo(NETWORK), chain);
    assert chain[0] == chain[1];
    DepthIff(spec, RefTo(NETWORK));
  }
}
