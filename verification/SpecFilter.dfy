/** Filter policies folded into ranges, and the minimum requirements of Kubernetes nodes
    (src/core/infra/recommendation.go, and the query conditions of src/core/resource/spec.go). */
module SpecFilter {
  import opened Options

  /** An operand is the number its text parses to, if it does. */
  datatype Operation = Operation(operator: string, operand: Option<real>)
  datatype Policy = Policy(metric: string, conditions: seq<Operation>)

  /** Both bounds of a range; zero stands for no bound. */
  datatype Range = Range(min: real, max: real)

  type Ranges = map<string, Range>

  // ---------- fields ----------

  /** `toUpperFirst`, over ASCII text. */
  function Field(metric: string): string {
    if metric != "" && 'a' <= metric[0] <= 'z' then [(metric[0] as int - 32) as char] + metric[1..] else metric
  }

  /** How a field of the request takes a condition: a range takes a bound, any other field takes none. */
  datatype Kind = RangeField | OtherField

  /** The fields of `FilterSpecsByRangeRequest`. */
  type Schema = map<string, Kind>

  function RequestFields(): Schema {
    map[
      "VCPU" := RangeField, "MemoryGiB" := RangeField, "DiskSizeGB" := RangeField, "MaxTotalStorageTiB" := RangeField,
      "NetBwGbps" := RangeField, "AcceleratorCount" := RangeField, "AcceleratorMemoryGB" := RangeField,
      "CostPerHour" := RangeField, "EvaluationScore01" := RangeField, "EvaluationScore02" := RangeField,
      "EvaluationScore03" := RangeField, "EvaluationScore04" := RangeField, "EvaluationScore05" := RangeField,
      "EvaluationScore06" := RangeField, "EvaluationScore07" := RangeField, "EvaluationScore08" := RangeField,
      "EvaluationScore09" := RangeField, "EvaluationScore10" := RangeField,
      "Id" := OtherField, "Name" := OtherField, "ConnectionName" := OtherField, "ProviderName" := OtherField,
      "RegionName" := OtherField, "RegionLatitude" := OtherField, "RegionLongitude" := OtherField,
      "CspSpecName" := OtherField, "InfraType" := OtherField, "Architecture" := OtherField, "OsType" := OtherField,
      "AcceleratorModel" := OtherField, "AcceleratorType" := OtherField, "Description" := OtherField,
      "EvaluationStatus" := OtherField, "Limit" := OtherField]
  }

  predicate IsRange(schema: Schema, field: string) {
    field in schema && schema[field] == RangeField
  }

  /** Eighteen fields of the request take a bound, sixteen do not. */
  lemma FieldsOfRequest()
    ensures forall k :: 0 <= k < 18 ==>
              IsRange(RequestFields(), [
                "VCPU", "MemoryGiB", "DiskSizeGB", "MaxTotalStorageTiB", "NetBwGbps", "AcceleratorCount",
                "AcceleratorMemoryGB", "CostPerHour", "EvaluationScore01", "EvaluationScore02", "EvaluationScore03",
                "EvaluationScore04", "EvaluationScore05", "EvaluationScore06", "EvaluationScore07",
                "EvaluationScore08", "EvaluationScore09", "EvaluationScore10"][k])
    ensures forall k :: 0 <= k < 16 ==>
              var field := [
                "Id", "Name", "ConnectionName", "ProviderName", "RegionName", "RegionLatitude", "RegionLongitude",
                "CspSpecName", "InfraType", "Architecture", "OsType", "AcceleratorModel", "AcceleratorType",
                "Description", "EvaluationStatus", "Limit"][k];
              field in RequestFields() && !IsRange(RequestFields(), field)
  {
  }

  /** A metric names the field that begins with its capital. */
  lemma FieldOf(metric: string, k: nat)
    requires k < 26
    ensures Field(["abcdefghijklmnopqrstuvwxyz"[k]] + metric) == ["ABCDEFGHIJKLMNOPQRSTUVWXYZ"[k]] + metric
    ensures forall c: char :: c !in "abcdefghijklmnopqrstuvwxyz" ==> Field([c] + metric) == [c] + metric
  {
    assert (["abcdefghijklmnopqrstuvwxyz"[k]] + metric)[1..] == metric;
    forall c: char | 'a' <= c <= 'z' ensures c in "abcdefghijklmnopqrstuvwxyz" {
      assert "abcdefghijklmnopqrstuvwxyz"[c as int - 97] == c;
    }
  }

  function RangeOf(ranges: Ranges, field: string): Range {
    if field in ranges then ranges[field] else Range(0.0, 0.0)
  }

  // ---------- folding ----------

  predicate SetsMin(operator: string) { operator == ">=" || operator == "==" }
  predicate SetsMax(operator: string) { operator == "<=" || operator == "==" }

  /** A condition the fold can work with. */
  predicate IsUsable(schema: Schema, metric: string, op: Operation) {
    && Field(metric) in schema
    && (IsRange(schema, Field(metric)) ==> op.operand.Some? && (SetsMin(op.operator) || SetsMax(op.operator)))
  }

  function Bounded(range: Range, operator: string, operand: real): Range {
    Range(if SetsMin(operator) then operand else range.min, if SetsMax(operator) then operand else range.max)
  }

  function Applied(schema: Schema, ranges: Ranges, metric: string, op: Operation): Ranges
    requires IsUsable(schema, metric, op)
  {
    var field := Field(metric);
    if IsRange(schema, field) then ranges[field := Bounded(RangeOf(ranges, field), op.operator, op.operand.value)] else ranges
  }

  predicate AllUsable(schema: Schema, metric: string, ops: seq<Operation>) {
    forall k :: 0 <= k < |ops| ==> IsUsable(schema, metric, ops[k])
  }

  function AppliedAll(schema: Schema, ranges: Ranges, metric: string, ops: seq<Operation>): Ranges
    requires AllUsable(schema, metric, ops)
  {
    if ops == [] then ranges else Applied(schema, AppliedAll(schema, ranges, metric, ops[..|ops| - 1]), metric, ops[|ops| - 1])
  }

  predicate IsFoldable(schema: Schema, plan: seq<Policy>) {
    forall k :: 0 <= k < |plan| ==> AllUsable(schema, plan[k].metric, plan[k].conditions)
  }

  /** A condition is usable if and only if it names a field and, on a range, has a number and one of three operators. */
  lemma UsableIff(schema: Schema, metric: string, op: Operation)
    ensures IsUsable(schema, metric, op) <==>
            && Field(metric) in schema
            && (schema[Field(metric)] == RangeField ==> op.operand.Some? && op.operator in {">=", "<=", "=="})
  {
  }

  function Folded(schema: Schema, plan: seq<Policy>): Ranges
    requires IsFoldable(schema, plan)
  {
    if plan == [] then map[]
    else
      var p := plan[|plan| - 1];
      AppliedAll(schema, Folded(schema, plan[..|plan| - 1]), p.metric, p.conditions)
  }

  class Request {
    const schema: Schema
    var ranges: Ranges

    constructor (schema: Schema)
      ensures this.schema == schema && ranges == map[]
    {
      this.schema := schema;
      ranges := map[];
    }

    method ApplyRange(field: string, operator: string, operand: real) returns (ok: bool)
      modifies this
      ensures ok <==> SetsMin(operator) || SetsMax(operator)
      ensures ranges == if ok then old(ranges)[field := Bounded(RangeOf(old(ranges), field), operator, operand)] else old(ranges)
    {
      var range := RangeOf(ranges, field);
      if operator == "<=" {
        range := range.(max := operand);
      } else if operator == ">=" {
        range := range.(min := operand);
      } else if operator == "==" {
        range := Range(operand, operand);
      } else {
        return false;
      }
      ranges := ranges[field := range];
      return true;
    }

    method SetFieldCondition(metric: string, op: Operation) returns (ok: bool)
      modifies this
      ensures ok <==> IsUsable(schema, metric, op)
      ensures ranges == if ok then Applied(schema, old(ranges), metric, op) else old(ranges)
    {
      var field := Field(metric);
      if IsRange(schema, field) {
        if op.operand.None? {
          return false;
        }
        ok := ApplyRange(field, op.operator, op.operand.value);
      } else {
        ok := field in schema;
      }
    }

    method ApplyPolicy(p: Policy) returns (ok: bool)
      modifies this
      ensures ok <==> AllUsable(schema, p.metric, p.conditions)
      ensures ok ==> ranges == AppliedAll(schema, old(ranges), p.metric, p.conditions)
    {
      for k := 0 to |p.conditions|
        invariant AllUsable(schema, p.metric, p.conditions[..k])
        invariant ranges == AppliedAll(schema, old(ranges), p.metric, p.conditions[..k])
      {
        assert p.conditions[..k + 1][..k] == p.conditions[..k];
        ok := SetFieldCondition(p.metric, p.conditions[k]);
        if !ok {
          return;
        }
      }
      assert p.conditions[..|p.conditions|] == p.conditions;
      ok := true;
    }

    method ApplyFilterPolicies(plan: seq<Policy>) returns (ok: bool)
      requires ranges == map[]
      modifies this
      ensures ok <==> IsFoldable(schema, plan)
      ensures ok ==> ranges == Folded(schema, plan)
    {
      for k := 0 to |plan|
        invariant IsFoldable(schema, plan[..k]) && ranges == Folded(schema, plan[..k])
      {
        assert plan[..k + 1][..k] == plan[..k];
        ok := ApplyPolicy(plan[k]);
        if !ok {
          return;
        }
      }
      assert plan[..|plan|] == plan;
      ok := true;
    }
  }

  // ---------- what a fold means ----------

  /** The conditions of a query on one field. */
  predicate Admits(range: Range, x: real) {
    (range.min != 0.0 ==> x >= range.min) && (range.max != 0.0 ==> x <= range.max)
  }

  /** The conditions a plan places on a field, in order. */
  function OnField(plan: seq<Policy>, field: string): seq<Operation> {
    if plan == [] then []
    else
      var p := plan[|plan| - 1];
      OnField(plan[..|plan| - 1], field) + if Field(p.metric) == field then p.conditions else []
  }

  predicate Holds(op: Operation, x: real) {
    op.operand.Some? ==>
      var v := op.operand.value;
      if op.operator == "<=" then x <= v else if op.operator == ">=" then x >= v else op.operator == "==" ==> x == v
  }

  /** The bounds after a sequence of conditions on one field: on each side the last one set. */
  function LastBounds(ops: seq<Operation>): Range {
    if ops == [] then Range(0.0, 0.0)
    else
      var init, op := LastBounds(ops[..|ops| - 1]), ops[|ops| - 1];
      if op.operand.Some? then Bounded(init, op.operator, op.operand.value) else init
  }

  lemma {:induction false} LastBoundsAppend(schema: Schema, a: seq<Operation>, b: seq<Operation>, metric: string, ranges: Ranges)
    requires AllUsable(schema, metric, b) && IsRange(schema, Field(metric)) && RangeOf(ranges, Field(metric)) == LastBounds(a)
    ensures RangeOf(AppliedAll(schema, ranges, metric, b), Field(metric)) == LastBounds(a + b)
    decreases |b|
  {
    if b == [] {
      assert a + b == a;
    } else {
      LastBoundsAppend(schema, a, b[..|b| - 1], metric, ranges);
      assert (a + b)[..|a + b| - 1] == a + b[..|b| - 1];
    }
  }

  lemma {:induction false} OtherFieldsKept(schema: Schema, ops: seq<Operation>, metric: string, ranges: Ranges, field: string)
    requires AllUsable(schema, metric, ops) && Field(metric) != field
    ensures RangeOf(AppliedAll(schema, ranges, metric, ops), field) == RangeOf(ranges, field)
    decreases |ops|
  {
    if ops != [] { OtherFieldsKept(schema, ops[..|ops| - 1], metric, ranges, field); }
  }

  /** The folded range of a field holds, on each side, the last bound any condition set. */
  lemma {:induction false} FoldIsLast(schema: Schema, plan: seq<Policy>, field: string)
    requires IsFoldable(schema, plan) && IsRange(schema, field)
    ensures RangeOf(Folded(schema, plan), field) == LastBounds(OnField(plan, field))
  {
    if plan != [] {
      var init, p := plan[..|plan| - 1], plan[|plan| - 1];
      FoldIsLast(schema, init, field);
      if Field(p.metric) == field {
        LastBoundsAppend(schema, OnField(init, field), p.conditions, p.metric, Folded(schema, init));
      } else {
        OtherFieldsKept(schema, p.conditions, p.metric, Folded(schema, init), field);
        assert OnField(init, field) + [] == OnField(init, field);
      }
    }
  }

  ghost predicate AllHold(ops: seq<Operation>, x: real) {
    forall k :: 0 <= k < |ops| ==> Holds(ops[k], x)
  }

  lemma {:induction false} BoundsHold(ops: seq<Operation>, x: real)
    requires AllHold(ops, x)
    ensures Admits(LastBounds(ops), x)
  {
    if ops != [] { BoundsHold(ops[..|ops| - 1], x); }
  }

  /** No two conditions set the same side, and none sets it to zero. */
  ghost predicate OncePerSide(ops: seq<Operation>) {
    && (forall k :: 0 <= k < |ops| ==> ops[k].operand.Some? && ops[k].operand.value != 0.0)
    && (forall j, k :: 0 <= j < k < |ops| ==> !(SetsMin(ops[j].operator) && SetsMin(ops[k].operator))
                                              && !(SetsMax(ops[j].operator) && SetsMax(ops[k].operator)))
  }

  lemma {:induction false} OnceIsConjunction(ops: seq<Operation>, x: real)
    requires OncePerSide(ops)
    ensures Admits(LastBounds(ops), x) <==> AllHold(ops, x)
    ensures LastBounds(ops).min != 0.0 <==> exists k :: 0 <= k < |ops| && SetsMin(ops[k].operator)
    ensures LastBounds(ops).max != 0.0 <==> exists k :: 0 <= k < |ops| && SetsMax(ops[k].operator)
  {
    if ops != [] {
      var init, op := ops[..|ops| - 1], ops[|ops| - 1];
      OnceIsConjunction(init, x);
      assert SetsMin(op.operator) ==> LastBounds(init).min == 0.0;
      assert SetsMax(op.operator) ==> LastBounds(init).max == 0.0;
      assert AllHold(ops, x) <==> AllHold(init, x) && Holds(op, x);
    }
  }

  /** A filter never drops a spec that meets every condition; and if each metric is bounded at most once per side,
      by something other than zero, it admits exactly the specs that do. */
  lemma FilterMeaning(schema: Schema, plan: seq<Policy>, field: string, x: real)
    requires IsFoldable(schema, plan) && IsRange(schema, field)
    ensures AllHold(OnField(plan, field), x) ==> Admits(RangeOf(Folded(schema, plan), field), x)
    ensures OncePerSide(OnField(plan, field)) ==>
              (Admits(RangeOf(Folded(schema, plan), field), x) <==> AllHold(OnField(plan, field), x))
  {
    FoldIsLast(schema, plan, field);
    if AllHold(OnField(plan, field), x) { BoundsHold(OnField(plan, field), x); }
    if OncePerSide(OnField(plan, field)) { OnceIsConjunction(OnField(plan, field), x); }
  }
}
