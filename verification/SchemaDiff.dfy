/** The recursive comparison of two API schemas (docs/docs_tools/swagger-diff-analyzer.py). */
module SchemaDiff {
  import opened Options

  /** The single-valued fields that are compared. */
  datatype Field = Reference | Type | Description | Format | Minimum | Maximum | MinLength | MaxLength | Pattern

  /** `others` is what is written in the schema but not compared: other keys, the order of lists. */
  datatype Schema = Schema(fields: map<Field, string>, required: set<string>, enumerated: set<string>,
                           props: map<string, Schema>, items: Option<Schema>, others: map<string, string>)

  /** The definitions of a specification, by the text that refers to them. */
  type Spec = map<string, Schema>

  const NOTHING := Schema(map[], {}, {}, map[], None, map[])

  datatype Changes = Changes(fields: set<Field>, required: Sides, enumerated: Sides, props: Sides,
                             modified: map<string, Changes>, items: Option<Changes>)
  datatype Sides = Sides(added: set<string>, removed: set<string>)

  const NO_SIDES := Sides({}, {})
  const NO_CHANGES := Changes({}, NO_SIDES, NO_SIDES, NO_SIDES, map[], None)

  function Get(s: Schema, f: Field): Option<string> {
    if f in s.fields then Some(s.fields[f]) else None
  }

  function Items(s: Schema): Schema {
    if s.items.Some? then s.items.value else NOTHING
  }

  /** `resolve_schema_ref`: one step, if the reference is defined. */
  function Resolve(spec: Spec, s: Schema): Schema {
    if Reference in s.fields && s.fields[Reference] in spec then spec[s.fields[Reference]] else s
  }

  // ---------- the comparison ----------

  function SidesOf(o: set<string>, w: set<string>): Sides {
    Sides(w - o, o - w)
  }

  predicate IsObject(s: Schema) {
    Get(s, Type) == Some("object") || s.props != map[]
  }

  predicate IsArray(s: Schema) {
    Get(s, Type) == Some("array")
  }

  predicate ItemsDiffer(a: Schema, b: Schema) {
    (IsArray(a) || IsArray(b)) && Items(a) != Items(b)
  }

  /** What differs between two resolved schemas at their own level. */
  function Level(a: Schema, b: Schema): Changes {
    Changes((set f: Field | Get(a, f) != Get(b, f)), SidesOf(a.required, b.required), SidesOf(a.enumerated, b.enumerated),
            if IsObject(a) || IsObject(b) then SidesOf(a.props.Keys, b.props.Keys) else NO_SIDES, map[], None)
  }

  // ---------- where it goes ----------

  /** The comparison of `s` with `t` comes to an end within `n` levels: it follows the common properties, and the
      items if they are not written the same. */
  ghost predicate Ends(o: Spec, s: Schema, w: Spec, t: Schema, n: nat)
    decreases n, 0
  {
    n > 0 && EndsBelow(o, Resolve(o, s), w, Resolve(w, t), n - 1)
  }

  /** So does that of two resolved schemas, below their own level. */
  ghost predicate EndsBelow(o: Spec, a: Schema, w: Spec, b: Schema, n: nat)
    decreases n, 1
  {
    && (forall p :: p in a.props && p in b.props ==> Ends(o, a.props[p], w, b.props[p], n))
    && (ItemsDiffer(a, b) ==> Ends(o, Items(a), w, Items(b), n))
  }

  datatype Hop = Prop(name: string) | Item

  /** The pair of resolved schemas at the end of a path, as far as the comparison goes down it. */
  function Pair(o: Spec, s: Schema, w: Spec, t: Schema, path: seq<Hop>): Option<(Schema, Schema)>
    decreases |path|
  {
    var a, b := Resolve(o, s), Resolve(w, t);
    if path == [] then Some((a, b))
    else match path[0]
      case Prop(p) => if p in a.props && p in b.props then Pair(o, a.props[p], w, b.props[p], path[1..]) else None
      case Item => if ItemsDiffer(a, b) then Pair(o, Items(a), w, Items(b), path[1..]) else None
  }

  // ---------- what it finds ----------

  /** `analyze_schema_diff`. The bound is only there to show that the recursion ends. */
  function Compare(o: Spec, s: Schema, w: Spec, t: Schema, ghost n: nat): Changes
    requires Ends(o, s, w, t, n)
    decreases n, 1
  {
    var a, b := Resolve(o, s), Resolve(w, t);
    var modified := if IsObject(a) || IsObject(b) then Modified(o, a, w, b, n - 1) else map[];
    Level(a, b).(modified := modified, items := ItemChanges(o, a, w, b, n - 1))
  }

  /** The common properties that differ (`analyze_properties_changes`). */
  function Modified(o: Spec, a: Schema, w: Spec, b: Schema, ghost n: nat): map<string, Changes>
    requires EndsBelow(o, a, w, b, n)
    decreases n, 2
  {
    map p | p in a.props && p in b.props && Compare(o, a.props[p], w, b.props[p], n) != NO_CHANGES
      :: Compare(o, a.props[p], w, b.props[p], n)
  }

  function ItemChanges(o: Spec, a: Schema, w: Spec, b: Schema, ghost n: nat): Option<Changes>
    requires EndsBelow(o, a, w, b, n)
    decreases n, 2
  {
    if ItemsDiffer(a, b) then
      var c := Compare(o, Items(a), w, Items(b), n);
      if c != NO_CHANGES then Some(c) else None
    else None
  }
}
