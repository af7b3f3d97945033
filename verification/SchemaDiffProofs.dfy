/** What the schema comparison finds, and what it cannot see. */
module SchemaDiffProofs {
  import opened Options
  import opened SchemaDiff

  // ---------- the bound ----------

  /** The result does not depend on the bound it is given. */
  lemma {:induction false} BoundIrrelevant(o: Spec, s: Schema, w: Spec, t: Schema, n: nat, m: nat)
    requires Ends(o, s, w, t, n) && Ends(o, s, w, t, m)
    ensures Compare(o, s, w, t, n) == Compare(o, s, w, t, m)
    decreases n, 1
  {
    var a, b := Resolve(o, s), Resolve(w, t);
    ModifiedIrrelevant(o, a, w, b, n - 1, m - 1);
    ItemsIrrelevant(o, a, w, b, n - 1, m - 1);
  }

  lemma ModifiedIrrelevant(o: Spec, a: Schema, w: Spec, b: Schema, n: nat, m: nat)
    requires EndsBelow(o, a, w, b, n) && EndsBelow(o, a, w, b, m)
    ensures Modified(o, a, w, b, n) == Modified(o, a, w, b, m)
    decreases n, 2
  {
    forall p | p in a.props && p in b.props
      ensures Compare(o, a.props[p], w, b.props[p], n) == Compare(o, a.props[p], w, b.props[p], m)
    {
      BoundIrrelevant(o, a.props[p], w, b.props[p], n, m);
    }
  }

  lemma ItemsIrrelevant(o: Spec, a: Schema, w: Spec, b: Schema, n: nat, m: nat)
    requires EndsBelow(o, a, w, b, n) && EndsBelow(o, a, w, b, m)
    ensures ItemChanges(o, a, w, b, n) == ItemChanges(o, a, w, b, m)
    decreases n, 2
  {
    if ItemsDiffer(a, b) {
      BoundIrrelevant(o, Items(a), w, Items(b), n, m);
    }
  }

  // ---------- symmetry ----------

  /** A schema does not differ from itself. */
  lemma {:induction false} SelfIsEmpty(spec: Spec, s: Schema, n: nat)
    requires Ends(spec, s, spec, s, n)
    ensures Compare(spec, s, spec, s, n) == NO_CHANGES
    decreases n
  {
    var a := Resolve(spec, s);
    forall p | p in a.props ensures Compare(spec, a.props[p], spec, a.props[p], n - 1) == NO_CHANGES {
      SelfIsEmpty(spec, a.props[p], n - 1);
    }
    assert Modified(spec, a, spec, a, n - 1) == map[];
  }

  function Turned(sides: Sides): Sides { Sides(sides.removed, sides.added) }

  function Mirrored(c: Changes): Changes {
    Changes(c.fields, Turned(c.required), Turned(c.enumerated), Turned(c.props),
            map p | p in c.modified :: Mirrored(c.modified[p]),
            if c.items.Some? then Some(Mirrored(c.items.value)) else None)
  }

  lemma MirroredEmpty(c: Changes)
    ensures Mirrored(c) == NO_CHANGES <==> c == NO_CHANGES
  {
    assert Mirrored(c) == NO_CHANGES ==> c.modified.Keys == Mirrored(c).modified.Keys;
  }

  lemma LevelMirrored(a: Schema, b: Schema)
    ensures Level(b, a) == Mirrored(Level(a, b))
  {
    var c := Level(a, b);
    assert (map p | p in c.modified :: Mirrored(c.modified[p])) == map[];
    assert (set f: Field | Get(a, f) != Get(b, f)) == (set f: Field | Get(b, f) != Get(a, f));
  }

  function MirroredAll(modified: map<string, Changes>): map<string, Changes> {
    map p | p in modified :: Mirrored(modified[p])
  }

  lemma {:induction false} EndsMirrored(o: Spec, s: Schema, w: Spec, t: Schema, n: nat)
    requires Ends(o, s, w, t, n)
    ensures Ends(w, t, o, s, n)
    decreases n, 0
  {
    EndsBelowMirrored(o, Resolve(o, s), w, Resolve(w, t), n - 1);
  }

  lemma EndsBelowMirrored(o: Spec, a: Schema, w: Spec, b: Schema, n: nat)
    requires EndsBelow(o, a, w, b, n)
    ensures EndsBelow(w, b, o, a, n)
    decreases n, 1
  {
    forall p | p in a.props && p in b.props ensures Ends(w, b.props[p], o, a.props[p], n) {
      EndsMirrored(o, a.props[p], w, b.props[p], n);
    }
    if ItemsDiffer(a, b) { EndsMirrored(o, Items(a), w, Items(b), n); }
  }

  /** Comparing the other way round finds the same changes, turned around. */
  lemma {:induction false} CompareMirrored(o: Spec, s: Schema, w: Spec, t: Schema, n: nat)
    requires Ends(o, s, w, t, n)
    ensures Ends(w, t, o, s, n)
    ensures Compare(w, t, o, s, n) == Mirrored(Compare(o, s, w, t, n))
    ensures Compare(w, t, o, s, n) == NO_CHANGES <==> Compare(o, s, w, t, n) == NO_CHANGES
    decreases n, 1
  {
    var a, b := Resolve(o, s), Resolve(w, t);
    EndsMirrored(o, s, w, t, n);
    LevelMirrored(a, b);
    ModifiedMirrored(o, a, w, b, n - 1);
    ItemsMirrored(o, a, w, b, n - 1);
    var c := Compare(o, s, w, t, n);
    assert Mirrored(c).modified == MirroredAll(c.modified);
    MirroredEmpty(c);
  }

  lemma MirroredAt(o: Spec, a: Schema, w: Spec, b: Schema, n: nat, p: string)
    requires EndsBelow(o, a, w, b, n)
    ensures EndsBelow(w, b, o, a, n)
    ensures p in Modified(w, b, o, a, n) <==> p in Modified(o, a, w, b, n)
    ensures p in Modified(o, a, w, b, n) ==> Modified(w, b, o, a, n)[p] == Mirrored(Modified(o, a, w, b, n)[p])
    decreases n, 2
  {
    EndsBelowMirrored(o, a, w, b, n);
    if p in a.props && p in b.props { CompareMirrored(o, a.props[p], w, b.props[p], n); }
  }

  lemma AllMirrored(c: map<string, Changes>, d: map<string, Changes>)
    requires forall p :: p in d <==> p in c
    requires forall p :: p in c ==> d[p] == Mirrored(c[p])
    ensures d == MirroredAll(c)
  {
  }

  lemma ModifiedMirrored(o: Spec, a: Schema, w: Spec, b: Schema, n: nat)
    requires EndsBelow(o, a, w, b, n)
    ensures EndsBelow(w, b, o, a, n)
    ensures Modified(w, b, o, a, n) == MirroredAll(Modified(o, a, w, b, n))
    decreases n, 3
  {
    EndsBelowMirrored(o, a, w, b, n);
    var c, d := Modified(o, a, w, b, n), Modified(w, b, o, a, n);
    forall p ensures (p in d <==> p in c) && (p in c ==> d[p] == Mirrored(c[p])) { MirroredAt(o, a, w, b, n, p); }
    AllMirrored(c, d);
  }

  lemma ItemsMirrored(o: Spec, a: Schema, w: Spec, b: Schema, n: nat)
    requires EndsBelow(o, a, w, b, n)
    ensures EndsBelow(w, b, o, a, n)
    ensures var c := ItemChanges(o, a, w, b, n);
            ItemChanges(w, b, o, a, n) == if c.Some? then Some(Mirrored(c.value)) else None
    decreases n, 2
  {
    EndsBelowMirrored(o, a, w, b, n);
    if ItemsDiffer(a, b) {
      CompareMirrored(o, Items(a), w, Items(b), n);
    }
  }

  // ---------- what an empty result says ----------

  /** Agreement of two resolved schemas on everything compared at their own level. */
  ghost predicate Same(a: Schema, b: Schema) {
    && (forall f: Field :: Get(a, f) == Get(b, f))
    && a.required == b.required && a.enumerated == b.enumerated && a.props.Keys == b.props.Keys
  }

  ghost predicate SameAlong(o: Spec, s: Schema, w: Spec, t: Schema) {
    forall path :: Pair(o, s, w, t, path).Some? ==> Same(Pair(o, s, w, t, path).value.0, Pair(o, s, w, t, path).value.1)
  }

  lemma SameBelow(o: Spec, s: Schema, w: Spec, t: Schema, hop: Hop, x: Schema, y: Schema)
    requires SameAlong(o, s, w, t)
    requires forall path :: Pair(o, s, w, t, [hop] + path) == Pair(o, x, w, y, path)
    ensures SameAlong(o, x, w, y)
  {
    forall path | Pair(o, x, w, y, path).Some?
      ensures Same(Pair(o, x, w, y, path).value.0, Pair(o, x, w, y, path).value.1)
    {
      assert Pair(o, s, w, t, [hop] + path) == Pair(o, x, w, y, path);
    }
  }

  /** The result is empty if and only if the schemas agree at the end of every path the comparison follows. */
  lemma {:induction false} EmptyIff(o: Spec, s: Schema, w: Spec, t: Schema, n: nat)
    requires Ends(o, s, w, t, n)
    ensures Compare(o, s, w, t, n) == NO_CHANGES <==> SameAlong(o, s, w, t)
    decreases n
  {
    if SameAlong(o, s, w, t) { SameIsEmpty(o, s, w, t, n); }
    if Compare(o, s, w, t, n) == NO_CHANGES {
      forall path | Pair(o, s, w, t, path).Some?
        ensures Same(Pair(o, s, w, t, path).value.0, Pair(o, s, w, t, path).value.1)
      {
        EmptyIsSame(o, s, w, t, n, path);
      }
    }
  }

  lemma NoSidesIff(x: set<string>, y: set<string>)
    ensures SidesOf(x, y) == NO_SIDES <==> x == y
  {
    if SidesOf(x, y) == NO_SIDES {
      assert forall e :: e in y ==> e !in SidesOf(x, y).added;
      assert forall e :: e in x ==> e !in SidesOf(x, y).removed;
    }
  }

  lemma NoFieldsIff(a: Schema, b: Schema)
    ensures Level(a, b).fields == {} <==> forall f: Field :: Get(a, f) == Get(b, f)
  {
    assert forall f: Field :: f in Level(a, b).fields <==> Get(a, f) != Get(b, f);
  }

  lemma LevelIff(a: Schema, b: Schema)
    ensures Level(a, b) == NO_CHANGES <==> Same(a, b)
  {
    NoFieldsIff(a, b);
    NoSidesIff(a.required, b.required);
    NoSidesIff(a.enumerated, b.enumerated);
    NoSidesIff(a.props.Keys, b.props.Keys);
  }

  lemma {:induction false} SameIsEmpty(o: Spec, s: Schema, w: Spec, t: Schema, n: nat)
    requires Ends(o, s, w, t, n) && SameAlong(o, s, w, t)
    ensures Compare(o, s, w, t, n) == NO_CHANGES
    decreases n, 1
  {
    var a, b := Resolve(o, s), Resolve(w, t);
    assert Pair(o, s, w, t, []) == Some((a, b));
    LevelIff(a, b);
    forall p | p in a.props && p in b.props ensures Compare(o, a.props[p], w, b.props[p], n - 1) == NO_CHANGES {
      BelowProp(o, s, w, t, p);
      SameIsEmpty(o, a.props[p], w, b.props[p], n - 1);
    }
    SameItems(o, s, w, t, n);
    EmptyFromParts(o, s, w, t, n);
  }

  lemma SameItems(o: Spec, s: Schema, w: Spec, t: Schema, n: nat)
    requires Ends(o, s, w, t, n) && SameAlong(o, s, w, t)
    ensures ItemChanges(o, Resolve(o, s), w, Resolve(w, t), n - 1) == None
    decreases n, 0
  {
    var a, b := Resolve(o, s), Resolve(w, t);
    if ItemsDiffer(a, b) {
      BelowItem(o, s, w, t);
      SameIsEmpty(o, Items(a), w, Items(b), n - 1);
    }
  }

  lemma EmptyFromParts(o: Spec, s: Schema, w: Spec, t: Schema, n: nat)
    requires Ends(o, s, w, t, n)
    requires var a, b := Resolve(o, s), Resolve(w, t);
             && Level(a, b) == NO_CHANGES && ItemChanges(o, a, w, b, n - 1) == None
             && forall p :: p in a.props && p in b.props ==> Compare(o, a.props[p], w, b.props[p], n - 1) == NO_CHANGES
    ensures Compare(o, s, w, t, n) == NO_CHANGES
  {
    assert Modified(o, Resolve(o, s), w, Resolve(w, t), n - 1) == map[];
  }

  lemma BelowProp(o: Spec, s: Schema, w: Spec, t: Schema, p: string)
    requires SameAlong(o, s, w, t) && p in Resolve(o, s).props && p in Resolve(w, t).props
    ensures SameAlong(o, Resolve(o, s).props[p], w, Resolve(w, t).props[p])
  {
    var a, b := Resolve(o, s), Resolve(w, t);
    forall path ensures Pair(o, s, w, t, [Prop(p)] + path) == Pair(o, a.props[p], w, b.props[p], path) {
      assert ([Prop(p)] + path)[1..] == path;
    }
    SameBelow(o, s, w, t, Prop(p), a.props[p], b.props[p]);
  }

  lemma BelowItem(o: Spec, s: Schema, w: Spec, t: Schema)
    requires SameAlong(o, s, w, t) && ItemsDiffer(Resolve(o, s), Resolve(w, t))
    ensures SameAlong(o, Items(Resolve(o, s)), w, Items(Resolve(w, t)))
  {
    var a, b := Resolve(o, s), Resolve(w, t);
    forall path ensures Pair(o, s, w, t, [Item] + path) == Pair(o, Items(a), w, Items(b), path) {
      assert ([Item] + path)[1..] == path;
    }
    SameBelow(o, s, w, t, Item, Items(a), Items(b));
  }

  /** An empty result is empty at its level and below. */
  lemma EmptyParts(o: Spec, s: Schema, w: Spec, t: Schema, n: nat)
    requires Ends(o, s, w, t, n) && Compare(o, s, w, t, n) == NO_CHANGES
    ensures var a, b := Resolve(o, s), Resolve(w, t);
            && Same(a, b) && ItemChanges(o, a, w, b, n - 1) == None
            && forall p :: p in a.props && p in b.props ==> Compare(o, a.props[p], w, b.props[p], n - 1) == NO_CHANGES
  {
    var a, b := Resolve(o, s), Resolve(w, t);
    LevelIff(a, b);
    assert Level(a, b) == Compare(o, s, w, t, n).(modified := map[], items := None);
    forall p | p in a.props && p in b.props ensures Compare(o, a.props[p], w, b.props[p], n - 1) == NO_CHANGES {
      assert p !in Modified(o, a, w, b, n - 1);
    }
  }

  /** The next pair of schemas down a path the comparison follows: nothing changed there either. */
  lemma EmptyHop(o: Spec, s: Schema, w: Spec, t: Schema, n: nat, path: seq<Hop>) returns (x: Schema, y: Schema)
    requires Ends(o, s, w, t, n) && Compare(o, s, w, t, n) == NO_CHANGES
    requires path != [] && Pair(o, s, w, t, path).Some?
    ensures Pair(o, s, w, t, path) == Pair(o, x, w, y, path[1..])
    ensures n > 1 && Ends(o, x, w, y, n - 1) && Compare(o, x, w, y, n - 1) == NO_CHANGES
  {
    var a, b := Resolve(o, s), Resolve(w, t);
    EmptyParts(o, s, w, t, n);
    match path[0]
    case Prop(p) => x, y := a.props[p], b.props[p];
    case Item => x, y := Items(a), Items(b);
  }

  lemma {:induction false} EmptyIsSame(o: Spec, s: Schema, w: Spec, t: Schema, n: nat, path: seq<Hop>)
    requires Ends(o, s, w, t, n) && Compare(o, s, w, t, n) == NO_CHANGES && Pair(o, s, w, t, path).Some?
    ensures Same(Pair(o, s, w, t, path).value.0, Pair(o, s, w, t, path).value.1)
    decreases |path|
  {
    if path == [] {
      EmptyParts(o, s, w, t, n);
    } else {
      var x, y := EmptyHop(o, s, w, t, n, path);
      EmptyIsSame(o, x, w, y, n - 1, path[1..]);
    }
  }

  // ---------- one side at a time ----------

  /** The resolved schema at the end of a path through one specification. */
  function At(spec: Spec, s: Schema, path: seq<Hop>): Option<Schema>
    decreases |path|
  {
    var r := Resolve(spec, s);
    if path == [] then Some(r)
    else match path[0]
      case Prop(p) => if p in r.props then At(spec, r.props[p], path[1..]) else None
      case Item => if IsArray(r) then At(spec, Items(r), path[1..]) else None
  }

  /** The path leads below items that are written the same in both specifications. */
  predicate IsMasked(o: Spec, s: Schema, w: Spec, t: Schema, path: seq<Hop>)
    decreases |path|
  {
    path != [] &&
      var a, b := Resolve(o, s), Resolve(w, t);
      match path[0]
      case Prop(p) => p in a.props && p in b.props && IsMasked(o, a.props[p], w, b.props[p], path[1..])
      case Item => Items(a) == Items(b) || IsMasked(o, Items(a), w, Items(b), path[1..])
  }

  /** One hop down both specifications: either neither has it, or it leads to schemas that do not differ either. */
  lemma AgreementHop(o: Spec, s: Schema, w: Spec, t: Schema, n: nat, path: seq<Hop>) returns (leads: bool, x: Schema, y: Schema)
    requires Ends(o, s, w, t, n) && Compare(o, s, w, t, n) == NO_CHANGES
    requires path != [] && !IsMasked(o, s, w, t, path)
    ensures !leads ==> At(o, s, path).None? && At(w, t, path).None?
    ensures leads ==> At(o, s, path) == At(o, x, path[1..]) && At(w, t, path) == At(w, y, path[1..])
    ensures leads ==> n > 1 && Ends(o, x, w, y, n - 1) && Compare(o, x, w, y, n - 1) == NO_CHANGES
                      && !IsMasked(o, x, w, y, path[1..])
  {
    var a, b := Resolve(o, s), Resolve(w, t);
    EmptyParts(o, s, w, t, n);
    leads, x, y := false, s, t;
    match path[0]
    case Prop(p) =>
      assert p in a.props.Keys <==> p in b.props.Keys;
      if p in a.props { leads, x, y := true, a.props[p], b.props[p]; }
    case Item =>
      assert Get(a, Type) == Get(b, Type);
      if IsArray(a) {
        assert ItemsDiffer(a, b);
        leads, x, y := true, Items(a), Items(b);
      }
  }

  /** After an empty result, whatever is at the end of a path in one specification is in the other and agrees with
      it, except below items that are written the same. */
  lemma {:induction false} EmptyMeansAgreement(o: Spec, s: Schema, w: Spec, t: Schema, n: nat, path: seq<Hop>)
    requires Ends(o, s, w, t, n) && Compare(o, s, w, t, n) == NO_CHANGES && !IsMasked(o, s, w, t, path)
    ensures At(o, s, path).Some? <==> At(w, t, path).Some?
    ensures At(o, s, path).Some? ==> Same(At(o, s, path).value, At(w, t, path).value)
    decreases |path|
  {
    if path == [] {
      EmptyParts(o, s, w, t, n);
    } else {
      var leads, x, y := AgreementHop(o, s, w, t, n, path);
      if leads { EmptyMeansAgreement(o, x, w, y, n - 1, path[1..]); }
    }
  }

  /** Below such items any change of the definition they refer to goes unnoticed. */
  lemma ChangeBelowItems(ref: string, x: Schema, y: Schema)
    requires !Same(x, y)
    ensures var list := NOTHING.(fields := map[Type := "array"], items := Some(NOTHING.(fields := map[Reference := ref])));
            var o, w := map[ref := x], map[ref := y];
            && Ends(o, list, w, list, 1) && Compare(o, list, w, list, 1) == NO_CHANGES
            && At(o, list, [Item]) == Some(x) && At(w, list, [Item]) == Some(y)
  {
    var list := NOTHING.(fields := map[Type := "array"], items := Some(NOTHING.(fields := map[Reference := ref])));
    var o, w := map[ref := x], map[ref := y];
    LevelIff(list, list);
    assert [Item][1..] == [];
    assert Modified(o, list, w, list, 0) == map[];
  }
}
