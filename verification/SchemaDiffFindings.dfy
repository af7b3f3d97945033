/** What a comparison that is not empty reports, and where. */
module SchemaDiffFindings {
  import opened Options
  import opened SchemaDiff
  import opened SchemaDiffEnds
  import opened SchemaDiffProofs

  /** The changes reported at the end of a path: none where the report does not go. */
  function ChangesAt(c: Changes, path: seq<Hop>): Changes
    decreases |path|
  {
    if path == [] then c
    else match path[0]
      case Prop(p) => if p in c.modified then ChangesAt(c.modified[p], path[1..]) else NO_CHANGES
      case Item => if c.items.Some? then ChangesAt(c.items.value, path[1..]) else NO_CHANGES
  }

  lemma {:induction false} NothingAt(path: seq<Hop>)
    ensures ChangesAt(NO_CHANGES, path) == NO_CHANGES
  {
  }

  lemma {:induction false} ChangesOn(c: Changes, path: seq<Hop>, rest: seq<Hop>)
    ensures ChangesAt(c, path + rest) == ChangesAt(ChangesAt(c, path), rest)
    decreases |path|
  {
    NothingAt(rest);
    if path == [] {
      assert path + rest == rest;
    } else {
      assert (path + rest)[1..] == path[1..] + rest;
      match path[0]
      case Prop(p) => if p in c.modified { ChangesOn(c.modified[p], path[1..], rest); }
      case Item => if c.items.Some? { ChangesOn(c.items.value, path[1..], rest); }
    }
  }

  // ---------- where the comparison goes ----------

  /** It follows a property that both schemas have, to what the two references stand for, and it follows the items
      of an array whose items are not written the same. */
  lemma FollowedIff(o: Spec, s: Schema, w: Spec, t: Schema, path: seq<Hop>, a: Schema, b: Schema)
    requires Pair(o, s, w, t, path) == Some((a, b))
    ensures forall p :: Pair(o, s, w, t, path + [Prop(p)]) ==
                        if p in a.props && p in b.props then Some((Resolve(o, a.props[p]), Resolve(w, b.props[p]))) else None
    ensures Pair(o, s, w, t, path + [Item]) ==
            if ((Type in a.fields && a.fields[Type] == "array") || (Type in b.fields && b.fields[Type] == "array"))
               && (if a.items == None then NOTHING else a.items.value) != (if b.items == None then NOTHING else b.items.value)
            then Some((Resolve(o, Items(a)), Resolve(w, Items(b)))) else None
  {
    forall p ensures Pair(o, s, w, t, path + [Prop(p)]) == After(o, a, w, b, Prop(p)) {
      PairOn(o, s, w, t, path, a, b, Prop(p));
    }
    PairOn(o, s, w, t, path, a, b, Item);
  }

  /** A reference stands for its definition, if there is one; nothing else is replaced. */
  lemma ResolvedIff(spec: Spec, s: Schema)
    ensures Resolve(spec, s) == s || (Reference in s.fields && s.fields[Reference] in spec)
    ensures forall d :: d in spec && Get(s, Reference) == Some(d) ==> Resolve(spec, s) == spec[d]
  {
  }

  // ---------- what it reports ----------

  /** Something differs at the end of the path or further down. */
  ghost predicate Differs(o: Spec, s: Schema, w: Spec, t: Schema, path: seq<Hop>) {
    exists rest :: Pair(o, s, w, t, path + rest).Some?
                   && !Same(Pair(o, s, w, t, path + rest).value.0, Pair(o, s, w, t, path + rest).value.1)
  }

  lemma DiffersFromStart(o: Spec, s: Schema, w: Spec, t: Schema, n: nat)
    requires Ends(o, s, w, t, n)
    ensures Compare(o, s, w, t, n) != NO_CHANGES <==> Differs(o, s, w, t, [])
  {
    EmptyIff(o, s, w, t, n);
    forall path: seq<Hop> ensures [] + path == path {}
    if !SameAlong(o, s, w, t) {
      var path :| Pair(o, s, w, t, path).Some? && !Same(Pair(o, s, w, t, path).value.0, Pair(o, s, w, t, path).value.1);
      assert [] + path == path;
    }
  }

  /** A name is listed as added to `x`, or as removed, if and only if only the one or only the other side has it. */
  ghost predicate Tells(x: Sides, before: set<string>, after: set<string>) {
    && (forall name :: name in x.added <==> name in after && name !in before)
    && (forall name :: name in x.removed <==> name in before && name !in after)
  }

  /** The report on a pair of resolved schemas that `path` leads to. */
  ghost predicate Reports(o: Spec, s: Schema, w: Spec, t: Schema, path: seq<Hop>, a: Schema, b: Schema, c: Changes) {
    && Tells(c.required, a.required, b.required) && Tells(c.enumerated, a.enumerated, b.enumerated)
    && Tells(c.props, a.props.Keys, b.props.Keys)
    && (forall f: Field :: f in c.fields <==>
          (f in a.fields <==> f !in b.fields) || (f in a.fields && f in b.fields && a.fields[f] != b.fields[f]))
    && (forall p :: p in c.modified <==> Differs(o, s, w, t, path + [Prop(p)]))
    && (c.items.Some? <==> Differs(o, s, w, t, path + [Item]))
  }

  lemma LevelTells(a: Schema, b: Schema)
    ensures var c := Level(a, b);
            && Tells(c.required, a.required, b.required) && Tells(c.enumerated, a.enumerated, b.enumerated)
            && Tells(c.props, a.props.Keys, b.props.Keys)
            && forall f: Field :: f in c.fields <==>
                 (f in a.fields <==> f !in b.fields) || (f in a.fields && f in b.fields && a.fields[f] != b.fields[f])
  {
  }

  /** At the start: what is listed as modified is what differs at or below a property or the items. */
  lemma ReportsAtStart(o: Spec, s: Schema, w: Spec, t: Schema, n: nat)
    requires Ends(o, s, w, t, n)
    ensures Reports(o, s, w, t, [], Resolve(o, s), Resolve(w, t), Compare(o, s, w, t, n))
  {
    var a, b, c := Resolve(o, s), Resolve(w, t), Compare(o, s, w, t, n);
    LevelTells(a, b);
    forall p ensures p in c.modified <==> Differs(o, s, w, t, [] + [Prop(p)]) {
      assert [] + [Prop(p)] == [Prop(p)];
      ModifiedIff(o, s, w, t, n, p);
    }
    assert [] + [Item] == [Item];
    ItemsIff(o, s, w, t, n);
  }

  /** What differs below a hop is what differs below the schemas it leads to. */
  lemma DiffersBelow(o: Spec, s: Schema, w: Spec, t: Schema, hop: Hop, x: Schema, y: Schema)
    requires forall rest :: Pair(o, s, w, t, [hop] + rest) == Pair(o, x, w, y, rest)
    ensures Differs(o, s, w, t, [hop]) <==> Differs(o, x, w, y, [])
  {
    forall path: seq<Hop> ensures [] + path == path {}
    if Differs(o, s, w, t, [hop]) {
      var rest :| Pair(o, s, w, t, [hop] + rest).Some?
                  && !Same(Pair(o, s, w, t, [hop] + rest).value.0, Pair(o, s, w, t, [hop] + rest).value.1);
      assert Pair(o, s, w, t, [hop] + rest) == Pair(o, x, w, y, [] + rest);
    }
    if Differs(o, x, w, y, []) {
      var rest :| Pair(o, x, w, y, [] + rest).Some?
                  && !Same(Pair(o, x, w, y, [] + rest).value.0, Pair(o, x, w, y, [] + rest).value.1);
      assert Pair(o, s, w, t, [hop] + rest) == Pair(o, x, w, y, [] + rest);
    }
  }

  lemma NoWay(o: Spec, s: Schema, w: Spec, t: Schema, hop: Hop)
    requires Pair(o, s, w, t, [hop]) == None
    ensures !Differs(o, s, w, t, [hop])
  {
    forall rest ensures Pair(o, s, w, t, [hop] + rest) == None {
      assert ([hop] + rest)[1..] == rest && [hop][1..] == [];
    }
  }

  lemma ModifiedIff(o: Spec, s: Schema, w: Spec, t: Schema, n: nat, p: string)
    requires Ends(o, s, w, t, n)
    ensures p in Compare(o, s, w, t, n).modified <==> Differs(o, s, w, t, [Prop(p)])
  {
    var a, b := Resolve(o, s), Resolve(w, t);
    assert [Prop(p)][1..] == [];
    if p in a.props && p in b.props {
      forall rest ensures Pair(o, s, w, t, [Prop(p)] + rest) == Pair(o, a.props[p], w, b.props[p], rest) {
        assert ([Prop(p)] + rest)[1..] == rest;
      }
      DiffersBelow(o, s, w, t, Prop(p), a.props[p], b.props[p]);
      DiffersFromStart(o, a.props[p], w, b.props[p], n - 1);
    } else {
      NoWay(o, s, w, t, Prop(p));
    }
  }

  lemma ItemsIff(o: Spec, s: Schema, w: Spec, t: Schema, n: nat)
    requires Ends(o, s, w, t, n)
    ensures Compare(o, s, w, t, n).items.Some? <==> Differs(o, s, w, t, [Item])
  {
    var a, b := Resolve(o, s), Resolve(w, t);
    assert [Item][1..] == [];
    if ItemsDiffer(a, b) {
      forall rest ensures Pair(o, s, w, t, [Item] + rest) == Pair(o, Items(a), w, Items(b), rest) {
        assert ([Item] + rest)[1..] == rest;
      }
      DiffersBelow(o, s, w, t, Item, Items(a), Items(b));
      DiffersFromStart(o, Items(a), w, Items(b), n - 1);
    } else {
      NoWay(o, s, w, t, Item);
    }
  }

  /** From `x` and `y` the rest of the path leads where the whole path leads from `s` and `t`. */
  ghost predicate LeadsOn(o: Spec, s: Schema, w: Spec, t: Schema, path: seq<Hop>, x: Schema, y: Schema)
    requires path != []
  {
    forall rest :: Pair(o, s, w, t, path + rest) == Pair(o, x, w, y, path[1..] + rest)
  }

  /** The schemas one hop down, and that the report goes with them. */
  lemma ReportHop(o: Spec, s: Schema, w: Spec, t: Schema, n: nat, path: seq<Hop>) returns (x: Schema, y: Schema)
    requires Ends(o, s, w, t, n) && path != [] && Pair(o, s, w, t, path).Some?
    ensures n > 0 && Ends(o, x, w, y, n - 1)
    ensures LeadsOn(o, s, w, t, path, x, y)
    ensures ChangesAt(Compare(o, s, w, t, n), path) == ChangesAt(Compare(o, x, w, y, n - 1), path[1..])
  {
    var a, b := Resolve(o, s), Resolve(w, t);
    NothingAt(path[1..]);
    x, y := Items(a), Items(b);
    if path[0].Prop? { x, y := a.props[path[0].name], b.props[path[0].name]; }
    forall rest ensures Pair(o, s, w, t, path + rest) == Pair(o, x, w, y, path[1..] + rest) {
      var all := path + rest;
      assert all[0] == path[0] && all[1..] == path[1..] + rest;
    }
  }

  /** At the end of every path the comparison follows, the report lists exactly the fields that differ, the names that
      only one side has, on the side that has them, and the properties and items at or below which something
      differs. */
  lemma {:induction false} ReportIsExact(o: Spec, s: Schema, w: Spec, t: Schema, n: nat, path: seq<Hop>)
    requires Ends(o, s, w, t, n) && Pair(o, s, w, t, path).Some?
    ensures var (a, b) := Pair(o, s, w, t, path).value;
            Reports(o, s, w, t, path, a, b, ChangesAt(Compare(o, s, w, t, n), path))
    decreases |path|
  {
    if path == [] {
      ReportsAtStart(o, s, w, t, n);
    } else {
      var x, y := ReportHop(o, s, w, t, n, path);
      assert path + [] == path && path[1..] + [] == path[1..];
      ReportIsExact(o, x, w, y, n - 1, path[1..]);
      forall hop ensures Differs(o, s, w, t, path + [hop]) <==> Differs(o, x, w, y, path[1..] + [hop]) {
        DiffersOn(o, s, w, t, path, x, y, hop);
      }
    }
  }

  lemma DiffersOn(o: Spec, s: Schema, w: Spec, t: Schema, path: seq<Hop>, x: Schema, y: Schema, hop: Hop)
    requires path != [] && LeadsOn(o, s, w, t, path, x, y)
    ensures Differs(o, s, w, t, path + [hop]) <==> Differs(o, x, w, y, path[1..] + [hop])
  {
    forall rest ensures Pair(o, s, w, t, path + [hop] + rest) == Pair(o, x, w, y, path[1..] + [hop] + rest) {
      assert path + [hop] + rest == path + ([hop] + rest);
      assert path[1..] + [hop] + rest == path[1..] + ([hop] + rest);
    }
  }
}
