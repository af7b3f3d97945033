/** The minimum requirements of Kubernetes nodes, checked against a filter plan and added to it
    (`validateK8sMinimumRequirements`, src/core/infra/recommendation.go), and what they guarantee. */
module K8sFilter {
  import opened Options
  import opened SpecFilter

  const MIN_VCPU := 2.0
  const MIN_MEMORY_GIB := 4.0

  predicate HasMetric(plan: seq<Policy>, metric: string) {
    exists k :: 0 <= k < |plan| && plan[k].metric == metric
  }

  /** No operand is below the minimum, whatever its operator. */
  predicate NoneBelow(ops: seq<Operation>, minimum: real) {
    forall k :: 0 <= k < |ops| ==> ops[k].operand.Some? ==> ops[k].operand.value >= minimum
  }

  predicate Meets(plan: seq<Policy>, metric: string, minimum: real) {
    forall k :: 0 <= k < |plan| && plan[k].metric == metric ==> NoneBelow(plan[k].conditions, minimum)
  }

  function Minimum(metric: string, minimum: real): Policy {
    Policy(metric, [Operation(">=", Some(minimum))])
  }

  /** The plan with the minimum added, unless it says something about the metric already. */
  function WithMinimum(plan: seq<Policy>, metric: string, minimum: real): seq<Policy> {
    if HasMetric(plan, metric) then plan else plan + [Minimum(metric, minimum)]
  }

  function Validated(plan: seq<Policy>): seq<Policy> {
    WithMinimum(WithMinimum(plan, "vCPU", MIN_VCPU), "memoryGiB", MIN_MEMORY_GIB)
  }

  method CheckPolicy(p: Policy, minimum: real) returns (ok: bool)
    ensures ok <==> NoneBelow(p.conditions, minimum)
  {
    for k := 0 to |p.conditions|
      invariant NoneBelow(p.conditions[..k], minimum)
    {
      var op := p.conditions[k];
      if op.operand.Some? {
        if op.operand.value < minimum {
          return false;
        }
      }
    }
    assert p.conditions[..|p.conditions|] == p.conditions;
    return true;
  }

  method ValidateK8sMinimumRequirements(plan: seq<Policy>) returns (ok: bool, plan': seq<Policy>)
    ensures ok <==> Meets(plan, "vCPU", MIN_VCPU) && Meets(plan, "memoryGiB", MIN_MEMORY_GIB)
    ensures ok ==> plan' == Validated(plan)
  {
    plan' := plan;
    var vCPUConditionExists, memoryConditionExists := false, false;
    for k := 0 to |plan|
      invariant Meets(plan[..k], "vCPU", MIN_VCPU) && Meets(plan[..k], "memoryGiB", MIN_MEMORY_GIB)
      invariant vCPUConditionExists <==> exists j :: 0 <= j < k && plan[j].metric == "vCPU"
      invariant memoryConditionExists <==> exists j :: 0 <= j < k && plan[j].metric == "memoryGiB"
    {
      var condition := plan[k];
      if condition.metric == "vCPU" {
        vCPUConditionExists := true;
        ok := CheckPolicy(condition, MIN_VCPU);
        if !ok {
          return;
        }
      }
      if condition.metric == "memoryGiB" {
        memoryConditionExists := true;
        ok := CheckPolicy(condition, MIN_MEMORY_GIB);
        if !ok {
          return;
        }
      }
    }
    assert plan[..|plan|] == plan;
    if !vCPUConditionExists {
      plan' := plan' + [Minimum("vCPU", MIN_VCPU)];
    }
    MinimumOfOther(plan);
    if !memoryConditionExists {
      plan' := plan' + [Minimum("memoryGiB", MIN_MEMORY_GIB)];
    }
    ok := true;
  }

  lemma MinimumOfOther(plan: seq<Policy>)
    ensures HasMetric(WithMinimum(plan, "vCPU", MIN_VCPU), "memoryGiB") <==> HasMetric(plan, "memoryGiB")
  {
    var p := WithMinimum(plan, "vCPU", MIN_VCPU);
    forall k | 0 <= k < |plan| ensures p[k] == plan[k] {
    }
    assert |p| > |plan| ==> p[|plan|].metric != "memoryGiB";
  }

  // ---------- the guarantee ----------

  /** The field is asked about under this metric name only. */
  ghost predicate NoAlias(plan: seq<Policy>, metric: string) {
    forall k :: 0 <= k < |plan| && Field(plan[k].metric) == Field(metric) ==> plan[k].metric == metric
  }

  ghost predicate HasLowerBound(ops: seq<Operation>) {
    exists k :: 0 <= k < |ops| && SetsMin(ops[k].operator)
  }

  lemma {:induction false} OnFieldMeets(plan: seq<Policy>, metric: string, minimum: real)
    requires NoAlias(plan, metric) && Meets(plan, metric, minimum)
    ensures NoneBelow(OnField(plan, Field(metric)), minimum)
    ensures !HasMetric(plan, metric) ==> OnField(plan, Field(metric)) == []
  {
    if plan != [] {
      var init, p := plan[..|plan| - 1], plan[|plan| - 1];
      OnFieldMeets(init, metric, minimum);
      assert Field(p.metric) == Field(metric) ==> p.metric == metric && HasMetric(plan, metric);
      assert !HasMetric(plan, metric) ==> !HasMetric(init, metric);
    }
  }

  lemma {:induction false} UsableOnField(schema: Schema, plan: seq<Policy>, field: string)
    requires IsFoldable(schema, plan) && IsRange(schema, field)
    ensures forall k :: 0 <= k < |OnField(plan, field)| ==> OnField(plan, field)[k].operand.Some?
  {
    if plan != [] {
      UsableOnField(schema, plan[..|plan| - 1], field);
      assert AllUsable(schema, plan[|plan| - 1].metric, plan[|plan| - 1].conditions);
    }
  }

  lemma {:induction false} LowerBound(ops: seq<Operation>, minimum: real)
    requires minimum > 0.0 && NoneBelow(ops, minimum) && forall k :: 0 <= k < |ops| ==> ops[k].operand.Some?
    ensures var r := LastBounds(ops);
            && (if HasLowerBound(ops) then r.min >= minimum else r.min == 0.0)
            && (r.max == 0.0 || r.max >= minimum)
  {
    if ops != [] {
      var init := ops[..|ops| - 1];
      LowerBound(init, minimum);
      assert HasLowerBound(ops) <==> HasLowerBound(init) || SetsMin(ops[|ops| - 1].operator);
    }
  }

  ghost predicate Guarantees(schema: Schema, plan: seq<Policy>, field: string, minimum: real)
    requires IsFoldable(schema, plan)
  {
    forall x :: Admits(RangeOf(Folded(schema, plan), field), x) ==> x >= minimum
  }

  /** No value is both at least `min` and at most `max`. */
  predicate IsEmptyRange(r: Range) {
    r.min != 0.0 && r.max != 0.0 && r.max < r.min
  }

  lemma RangeGuarantee(r: Range, minimum: real)
    requires minimum > 0.0
    ensures (forall x :: Admits(r, x) ==> x >= minimum) <==> r.min >= minimum || IsEmptyRange(r)
  {
    if r.min < minimum && !IsEmptyRange(r) {
      var low := if r.min != 0.0 then r.min else if r.max != 0.0 && r.max < minimum then r.max else minimum - 1.0;
      assert Admits(r, low) && low < minimum;
    }
  }

  /** A plan guarantees a minimum on a field if and only if the bounds last set on that field, under whatever spelling
      of the metric, have a lower one at least as large, or exclude each other. */
  lemma GuaranteeIff(schema: Schema, plan: seq<Policy>, field: string, minimum: real)
    requires IsFoldable(schema, plan) && IsRange(schema, field) && minimum > 0.0
    ensures var r := LastBounds(OnField(plan, field));
            Guarantees(schema, plan, field, minimum) <==> r.min >= minimum || IsEmptyRange(r)
  {
    FoldIsLast(schema, plan, field);
    RangeGuarantee(LastBounds(OnField(plan, field)), minimum);
  }

  /** If the field is asked about under one name only, and nothing is below the minimum: any lower bound will do. */
  lemma PlainGuaranteeIff(schema: Schema, plan: seq<Policy>, metric: string, minimum: real)
    requires IsFoldable(schema, plan) && IsRange(schema, Field(metric)) && minimum > 0.0
    requires NoAlias(plan, metric) && Meets(plan, metric, minimum)
    ensures Guarantees(schema, plan, Field(metric), minimum) <==> HasLowerBound(OnField(plan, Field(metric)))
  {
    OnFieldMeets(plan, metric, minimum);
    UsableOnField(schema, plan, Field(metric));
    LowerBound(OnField(plan, Field(metric)), minimum);
    GuaranteeIff(schema, plan, Field(metric), minimum);
  }

  /** Adding the minimum adds a lower bound, and changes nothing for other fields. */
  lemma MinimumOnField(plan: seq<Policy>, metric: string, minimum: real, field: string)
    ensures OnField(WithMinimum(plan, metric, minimum), field)
            == OnField(plan, field) + if !HasMetric(plan, metric) && Field(metric) == field then [Operation(">=", Some(minimum))] else []
  {
    if HasMetric(plan, metric) {
      assert OnField(plan, field) + [] == OnField(plan, field);
    } else {
      assert (plan + [Minimum(metric, minimum)])[..|plan|] == plan;
    }
  }

  lemma MinimumMeets(plan: seq<Policy>, metric: string, minimum: real, other: string, bound: real)
    requires Meets(plan, other, bound) && NoAlias(plan, other) && (metric == other ==> minimum >= bound)
    requires Field(metric) == Field(other) ==> metric == other
    ensures Meets(WithMinimum(plan, metric, minimum), other, bound) && NoAlias(WithMinimum(plan, metric, minimum), other)
  {
  }

  /** A schema with the two ranges, as the request has. */
  predicate HasBoth(schema: Schema) {
    IsRange(schema, "VCPU") && IsRange(schema, "MemoryGiB")
  }

  /** The filter request has ranges for both. */
  lemma RequestHasBoth()
    ensures HasBoth(RequestFields())
  {
  }

  lemma Fields()
    ensures Field("vCPU") == "VCPU" && Field("memoryGiB") == "MemoryGiB" && Field("VCPU") == "VCPU"
  {
    assert "vCPU"[1..] == "CPU" && "memoryGiB"[1..] == "emoryGiB";
  }

  /** What the validated plan asks of each of the two fields. */
  lemma ValidatedOnField(plan: seq<Policy>)
    ensures var none: seq<Operation> := [];
            OnField(Validated(plan), "VCPU") == OnField(plan, "VCPU")
                                                + if HasMetric(plan, "vCPU") then none else [Operation(">=", Some(MIN_VCPU))]
    ensures var none: seq<Operation> := [];
            OnField(Validated(plan), "MemoryGiB")
            == OnField(plan, "MemoryGiB") + if HasMetric(plan, "memoryGiB") then none else [Operation(">=", Some(MIN_MEMORY_GIB))]
  {
    Fields();
    var one := WithMinimum(plan, "vCPU", MIN_VCPU);
    MinimumOfOther(plan);
    MinimumOnField(plan, "vCPU", MIN_VCPU, "VCPU");
    MinimumOnField(plan, "vCPU", MIN_VCPU, "MemoryGiB");
    MinimumOnField(one, "memoryGiB", MIN_MEMORY_GIB, "VCPU");
    MinimumOnField(one, "memoryGiB", MIN_MEMORY_GIB, "MemoryGiB");
    assert OnField(one, "VCPU") + [] == OnField(one, "VCPU");
    assert OnField(plan, "MemoryGiB") + [] == OnField(plan, "MemoryGiB");
  }

  lemma ValidatedMeets(plan: seq<Policy>, metric: string, minimum: real)
    requires Meets(plan, metric, minimum) && NoAlias(plan, metric)
    requires (metric == "vCPU" && minimum == MIN_VCPU) || (metric == "memoryGiB" && minimum == MIN_MEMORY_GIB)
    ensures Meets(Validated(plan), metric, minimum) && NoAlias(Validated(plan), metric)
  {
    Fields();
    MinimumMeets(plan, "vCPU", MIN_VCPU, metric, minimum);
    MinimumMeets(WithMinimum(plan, "vCPU", MIN_VCPU), "memoryGiB", MIN_MEMORY_GIB, metric, minimum);
  }

  /** One of the two requirements, for an accepted plan: there is no guarantee only if the plan has conditions on
      the metric and none of them is a lower bound or an equality. */
  lemma VCPUGuarantee(schema: Schema, plan: seq<Policy>)
    requires HasBoth(schema) && Meets(plan, "vCPU", MIN_VCPU) && NoAlias(plan, "vCPU") && IsFoldable(schema, Validated(plan))
    ensures Guarantees(schema, Validated(plan), "VCPU", MIN_VCPU)
            <==> !HasMetric(plan, "vCPU") || HasLowerBound(OnField(plan, "VCPU"))
  {
    Fields();
    ValidatedMeets(plan, "vCPU", MIN_VCPU);
    ValidatedOnField(plan);
    PlainGuaranteeIff(schema, Validated(plan), "vCPU", MIN_VCPU);
    LowerAppend(OnField(plan, "VCPU"), Operation(">=", Some(MIN_VCPU)));
  }

  lemma MemoryGuarantee(schema: Schema, plan: seq<Policy>)
    requires HasBoth(schema) && Meets(plan, "memoryGiB", MIN_MEMORY_GIB) && NoAlias(plan, "memoryGiB")
    requires IsFoldable(schema, Validated(plan))
    ensures Guarantees(schema, Validated(plan), "MemoryGiB", MIN_MEMORY_GIB)
            <==> !HasMetric(plan, "memoryGiB") || HasLowerBound(OnField(plan, "MemoryGiB"))
  {
    Fields();
    ValidatedMeets(plan, "memoryGiB", MIN_MEMORY_GIB);
    ValidatedOnField(plan);
    PlainGuaranteeIff(schema, Validated(plan), "memoryGiB", MIN_MEMORY_GIB);
    LowerAppend(OnField(plan, "MemoryGiB"), Operation(">=", Some(MIN_MEMORY_GIB)));
  }

  lemma LowerAppend(ops: seq<Operation>, op: Operation)
    requires SetsMin(op.operator)
    ensures HasLowerBound(ops + [op]) && HasLowerBound(ops + []) == HasLowerBound(ops)
  {
    assert (ops + [op])[|ops|] == op;
    assert ops + [] == ops;
  }

  /** The bounds an accepted plan ends up with on a field. */
  function FinalBounds(plan: seq<Policy>, field: string): Range {
    LastBounds(OnField(Validated(plan), field))
  }

  predicate IsSafe(r: Range, minimum: real) {
    r.min >= minimum || IsEmptyRange(r)
  }

  ghost predicate K8sReady(schema: Schema, plan: seq<Policy>)
    requires IsFoldable(schema, Validated(plan))
  {
    && Guarantees(schema, Validated(plan), "VCPU", MIN_VCPU)
    && Guarantees(schema, Validated(plan), "MemoryGiB", MIN_MEMORY_GIB)
  }

  /** Every plan, whatever metric names it uses, admits only specs fit for Kubernetes if and only if on vCPU and on
      memory the lower bound last set is at least the minimum, or the bounds last set exclude each other. */
  lemma K8sGuarantee(schema: Schema, plan: seq<Policy>)
    requires HasBoth(schema) && IsFoldable(schema, Validated(plan))
    ensures K8sReady(schema, plan)
            <==> IsSafe(FinalBounds(plan, "VCPU"), MIN_VCPU) && IsSafe(FinalBounds(plan, "MemoryGiB"), MIN_MEMORY_GIB)
  {
    GuaranteeIff(schema, Validated(plan), "VCPU", MIN_VCPU);
    GuaranteeIff(schema, Validated(plan), "MemoryGiB", MIN_MEMORY_GIB);
  }

  /** An accepted plan that names both by their metric names only: if and only if whatever it says of each includes a
      lower bound or an equality. */
  lemma PlainK8sGuarantee(schema: Schema, plan: seq<Policy>)
    requires HasBoth(schema) && Meets(plan, "vCPU", MIN_VCPU) && Meets(plan, "memoryGiB", MIN_MEMORY_GIB)
    requires NoAlias(plan, "vCPU") && NoAlias(plan, "memoryGiB") && IsFoldable(schema, Validated(plan))
    ensures K8sReady(schema, plan)
            <==> (!HasMetric(plan, "vCPU") || HasLowerBound(OnField(plan, "VCPU")))
                 && (!HasMetric(plan, "memoryGiB") || HasLowerBound(OnField(plan, "MemoryGiB")))
  {
    VCPUGuarantee(schema, plan);
    MemoryGuarantee(schema, plan);
  }

  /** Any accepted plan that bounds vCPU by its metric name, and then sets a lower bound below the minimum under the
      alias "VCPU", is unsafe, unless upper bounds exclude everything. */
  lemma AliasBreaksIt(schema: Schema, plan: seq<Policy>, low: real)
    requires HasBoth(schema) && HasMetric(plan, "vCPU") && HasMetric(plan, "memoryGiB") && low < MIN_VCPU
    requires var last := Policy("VCPU", [Operation(">=", Some(low))]);
             IsFoldable(schema, Validated(plan + [last])) && !IsEmptyRange(FinalBounds(plan + [last], "VCPU"))
    ensures var last := Policy("VCPU", [Operation(">=", Some(low))]);
            && (Meets(plan, "vCPU", MIN_VCPU) <==> Meets(plan + [last], "vCPU", MIN_VCPU))
            && !K8sReady(schema, plan + [last])
  {
    var last := Policy("VCPU", [Operation(">=", Some(low))]);
    var all := plan + [last];
    Fields();
    KeepsMetrics(plan, last);
    LastOnField(plan, last);
    assert FinalBounds(all, "VCPU").min == low;
    K8sGuarantee(schema, all);
    assert forall k :: 0 <= k < |plan| ==> all[k] == plan[k];
  }

  lemma KeepsMetrics(plan: seq<Policy>, last: Policy)
    requires HasMetric(plan, "vCPU") && HasMetric(plan, "memoryGiB")
    ensures Validated(plan + [last]) == plan + [last]
  {
    var all := plan + [last];
    var j :| 0 <= j < |plan| && plan[j].metric == "vCPU";
    var k :| 0 <= k < |plan| && plan[k].metric == "memoryGiB";
    assert all[j].metric == "vCPU" && all[k].metric == "memoryGiB";
  }

  lemma LastOnField(plan: seq<Policy>, last: Policy)
    requires Field(last.metric) == "VCPU" && |last.conditions| == 1 && last.conditions[0].operand.Some?
    requires last.conditions[0].operator == ">="
    ensures LastBounds(OnField(plan + [last], "VCPU")).min == last.conditions[0].operand.value
  {
    assert (plan + [last])[..|plan|] == plan;
    var ops := OnField(plan, "VCPU") + last.conditions;
    assert ops[..|ops| - 1] == OnField(plan, "VCPU") && ops[|ops| - 1] == last.conditions[0];
  }
}
