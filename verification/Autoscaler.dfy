/** The policy controller of src/core/infra/orchestration.go: every tick loads the policies of an
    MCI, visits them in order, and persists the whole list at each change it wants kept. */
module Autoscaler {
  import opened Options

  datatype Status = Ready | Checking | Detected | Operating | Stabilizing | Timeout | Error | Suspended | Other

  datatype ActionType = ScaleOut | ScaleIn | NoAction

  /** A measurement, or an average of them; averaging over no VM gives NaN. */
  datatype Value = Number(x: real) | NaN

  /** `history` is the sliding window, newest first. `since` is a history variable: all samples since the
      window was last cleared, newest first. */
  datatype Policy = Policy(status: Status, period: int, operator: string, operand: real, action: ActionType,
                           history: seq<Value>, since: seq<Value>)

  /** What the world answers while one policy is visited. */
  datatype Answer = Answer(found: bool, monitoring: Option<seq<real>>, recommendFails: bool, createFails: bool,
                           commandFails: bool, listFails: bool, hasAutoGen: bool, deleteFails: bool)

  // ---------- one evaluation ----------

  function Add(v: Value, w: Value): Value {
    if v.NaN? || w.NaN? then NaN else Number(v.x + w.x)
  }

  function Total(values: seq<Value>): Value {
    if values == [] then Number(0.0) else Add(Total(values[..|values| - 1]), values[|values| - 1])
  }

  function Mean(values: seq<Value>, n: int): Value
    requires n > 0
  {
    if Total(values).NaN? then NaN else Number(Total(values).x / n as real)
  }

  function Numbers(xs: seq<real>): seq<Value> {
    seq(|xs|, i requires 0 <= i < |xs| => Number(xs[i]))
  }

  function Sample(xs: seq<real>): Value {
    if xs == [] then NaN else Mean(Numbers(xs), |xs|)
  }

  function Newest(values: seq<Value>, period: nat): seq<Value> {
    if |values| > period then values[..period] else values
  }

  const OPERATORS := {">=", ">", "<=", "<"}

  predicate Compare(operator: string, aver: Value, operand: real) {
    aver.Number? &&
    if operator == ">=" then aver.x >= operand
    else if operator == ">" then aver.x > operand
    else if operator == "<=" then aver.x <= operand
    else operator == "<" && aver.x < operand
  }

  /** The average that also stands for "not enough values". */
  const NOT_ENOUGH := Number(-0.1)

  function Verdict(p: Policy): Status
    requires p.period >= 0
  {
    if p.period == 0 then Error
    else if |p.history| < p.period || Mean(p.history, p.period) == NOT_ENOUGH then Ready
    else if p.operator !in OPERATORS then Error
    else if Compare(p.operator, Mean(p.history, p.period), p.operand) then Detected
    else Ready
  }

  function Evaluate(p: Policy, v: Value): Policy
    requires p.period >= 0
  {
    var q := p.(history := Newest([v] + p.history, p.period), since := [v] + p.since);
    q.(status := Verdict(q))
  }

  // ---------- what a visit does ----------

  /** `Put` and `Record` change the policy and persist the list, `Hold` changes it in memory only. */
  datatype Effect = Put(p: Policy) | Record(p: Policy) | Hold(p: Policy) | Act

  function ErrorPuts(p: Policy, times: nat): seq<Effect> {
    seq(times, _ => Put(p.(status := Error)))
  }

  function Once(b: bool): nat { if b then 1 else 0 }

  function Acting(p: Policy, before: nat, acts: bool, after: nat): seq<Effect> {
    [Put(p.(status := Operating))] + ErrorPuts(p, before) + (if acts then [Act] else []) + ErrorPuts(p, after)
    + [Put(p.(status := Stabilizing))]
  }

  /** A visit of a policy with a negative period panics after these effects. */
  predicate Panics(p: Policy, a: Answer) {
    p.status == Ready && a.found && a.monitoring.Some? && p.period < 0
  }

  function Effects(p: Policy, a: Answer): seq<Effect> {
    var checking := p.(status := Checking);
    match p.status
    case Ready =>
      if !a.found then [Put(checking), Put(p.(status := Error))]
      else if a.monitoring.None? then [Put(checking), Put(checking), Hold(p.(status := Error))]
      else if p.period < 0 then [Put(checking), Put(checking)]
      else [Put(checking), Put(checking), Record(Evaluate(p, Sample(a.monitoring.value)))]
    case Detected =>
      if p.action.ScaleOut? then
        Acting(p, Once(a.recommendFails), true, Once(a.createFails) + Once(a.commandFails))
      else if p.action.ScaleIn? then
        Acting(p, Once(a.listFails), a.hasAutoGen, Once(a.hasAutoGen && a.deleteFails))
      else Acting(p, 0, false, 0)
    case Stabilizing => [Put(p.(status := Ready, history := [], since := []))]
    case Error => [Put(p.(status := Ready))]
    case _ => []
  }

  datatype Event = Evaluated(i: nat) | Acted(i: nat)

  /** The list in memory, the persisted list, what has been done, and the policy to visit next. */
  datatype Sys = Sys(mem: seq<Policy>, stored: seq<Policy>, log: seq<Event>, at: nat)

  function Apply(s: Sys, i: nat, e: Effect): (t: Sys)
    requires i < |s.mem|
    ensures |t.mem| == |s.mem| && t.at == s.at
  {
    match e
    case Put(p) => s.(mem := s.mem[i := p], stored := s.mem[i := p])
    case Record(p) => s.(mem := s.mem[i := p], stored := s.mem[i := p], log := s.log + [Evaluated(i)])
    case Hold(p) => s.(mem := s.mem[i := p])
    case Act => s.(log := s.log + [Acted(i)])
  }

  function Perform(s: Sys, i: nat, effects: seq<Effect>): (t: Sys)
    requires i < |s.mem|
    ensures |t.mem| == |s.mem| && t.at == s.at
    decreases |effects|
  {
    if effects == [] then s else Apply(Perform(s, i, effects[..|effects| - 1]), i, effects[|effects| - 1])
  }

  lemma PerformMore(s: Sys, i: nat, effects: seq<Effect>, e: Effect)
    requires i < |s.mem|
    ensures Perform(s, i, effects + [e]) == Apply(Perform(s, i, effects), i, e)
  {
    assert (effects + [e])[..|effects|] == effects;
  }

  /** Visits of the policies from `i` on, up to a panic. */
  function Visits(s: Sys, answers: seq<Answer>, i: nat): Sys
    requires |answers| == |s.mem|
    decreases |answers| - i
  {
    if i >= |answers| then s
    else
      var t := Perform(s, i, Effects(s.mem[i], answers[i]));
      if Panics(s.mem[i], answers[i]) then t else Visits(t, answers, i + 1)
  }

  // ---------- the controller ----------

  class Controller {
    var mem: seq<Policy>
    var stored: seq<Policy>
    var log: seq<Event>

    ghost function State(): Sys
      reads this
    {
      Sys(mem, stored, log, 0)
    }

    constructor (policies: seq<Policy>)
      ensures stored == mem == policies && log == []
    {
      mem, stored, log := policies, policies, [];
    }

    /** `UpdateMciPolicyInfo`: the whole list goes to the store. */
    method Save(i: nat, p: Policy)
      requires i < |mem|
      modifies this
      ensures State() == Apply(old(State()), i, Put(p))
    {
      mem := mem[i := p];
      stored := mem;
    }

    method SampleOf(xs: seq<real>) returns (v: Value)
      ensures v == Sample(xs)
    {
      var sum := 0.0;
      assert Numbers(xs)[..0] == [];
      for k := 0 to |xs|
        invariant Number(sum) == Total(Numbers(xs)[..k])
      {
        assert Numbers(xs)[..k + 1][..k] == Numbers(xs)[..k];
        sum := sum + xs[k];
      }
      assert Numbers(xs)[..|xs|] == Numbers(xs);
      v := if |xs| == 0 then NaN else Number(sum / |xs| as real);
    }

    method Average(values: seq<Value>, period: int) returns (aver: Value)
      requires 0 <= period && |values| <= period
      ensures aver == if period == 0 || |values| < period then NOT_ENOUGH else Mean(values, period)
    {
      var sum := Number(0.0);
      assert values[..0] == [];
      var evi := 0;
      while evi < |values|
        invariant 0 <= evi <= |values| && sum == Total(values[..evi])
      {
        assert values[..evi + 1][..evi] == values[..evi];
        sum := Add(sum, values[evi]);
        evi := evi + 1;
        if evi > period - 1 {
          break;
        }
      }
      assert values[..|values|] == values;
      aver := NOT_ENOUGH;
      if period != 0 && |values| >= period {
        aver := if sum.NaN? then NaN else Number(sum.x / period as real);
      }
    }

    /** The evaluation of one sample, saved. */
    method Evaluation(i: nat, v: Value)
      requires i < |mem| && mem[i].period >= 0
      modifies this
      ensures State() == Apply(old(State()), i, Record(Evaluate(old(mem[i]), v)))
    {
      var p := mem[i];
      var values := [v] + p.history;
      if |values| > p.period {
        values := values[..p.period];
      }
      p := p.(history := values, since := [v] + p.since);
      var aver := Average(values, p.period);
      if p.period == 0 {
        p := p.(status := Error);
      } else if aver == NOT_ENOUGH {
        p := p.(status := Ready);
      } else if p.operator == ">=" {
        p := p.(status := if aver.Number? && aver.x >= p.operand then Detected else Ready);
      } else if p.operator == ">" {
        p := p.(status := if aver.Number? && aver.x > p.operand then Detected else Ready);
      } else if p.operator == "<=" {
        p := p.(status := if aver.Number? && aver.x <= p.operand then Detected else Ready);
      } else if p.operator == "<" {
        p := p.(status := if aver.Number? && aver.x < p.operand then Detected else Ready);
      } else {
        p := p.(status := Error);
      }
      assert p == Evaluate(old(mem[i]), v);
      Save(i, p);
      log := log + [Evaluated(i)];
    }

    method SetStatus(i: nat, status: Status, ghost was: Sys, ghost done: seq<Effect>) returns (ghost more: seq<Effect>)
      requires i < |mem| && i < |was.mem| && State() == Perform(was, i, done)
      modifies this
      ensures more == done + [Put(old(mem[i]).(status := status))] && State() == Perform(was, i, more)
      ensures |mem| == old(|mem|) && mem[i] == old(mem[i]).(status := status)
    {
      more := done + [Put(mem[i].(status := status))];
      PerformMore(was, i, done, Put(mem[i].(status := status)));
      Save(i, mem[i].(status := status));
    }

    /** The errors of an action are saved, one by one, and then overwritten. */
    method SetErrors(i: nat, times: nat, ghost was: Sys, ghost done: seq<Effect>) returns (ghost more: seq<Effect>)
      requires i < |mem| && i < |was.mem| && State() == Perform(was, i, done)
      modifies this
      ensures more == done + ErrorPuts(old(mem[i]), times) && State() == Perform(was, i, more)
      ensures |mem| == old(|mem|) && mem[i] == old(mem[i]).(status := mem[i].status)
    {
      more := done;
      ghost var p := mem[i];
      for k := 0 to times
        invariant |mem| == old(|mem|) && mem[i] == p.(status := mem[i].status)
        invariant more == done + ErrorPuts(p, k) && State() == Perform(was, i, more)
      {
        assert ErrorPuts(p, k + 1) == ErrorPuts(p, k) + [Put(p.(status := Error))];
        more := SetStatus(i, Error, was, more);
      }
    }

    method DoAction(i: nat, before: nat, acts: bool, after: nat)
      requires i < |mem|
      modifies this
      ensures State() == Perform(old(State()), i, Acting(old(mem[i]), before, acts, after))
      ensures |mem| == old(|mem|)
    {
      ghost var was, p := State(), mem[i];
      ghost var done := SetStatus(i, Operating, was, []);
      done := SetErrors(i, before, was, done);
      assert done == [Put(p.(status := Operating))] + ErrorPuts(p, before);
      if acts {
        PerformMore(was, i, done, Act);
        log := log + [Acted(i)];
        done := done + [Act];
      }
      done := SetErrors(i, after, was, done);
      done := SetStatus(i, Stabilizing, was, done);
      assert done == Acting(p, before, acts, after);
    }

    method VisitReady(i: nat, a: Answer) returns (panicked: bool)
      requires i < |mem| && mem[i].status == Ready
      modifies this
      ensures State() == Perform(old(State()), i, Effects(old(mem[i]), a))
      ensures panicked == Panics(old(mem[i]), a) && |mem| == old(|mem|)
    {
      ghost var was, p := State(), mem[i];
      ghost var done := SetStatus(i, Checking, was, []);
      if !a.found {
        done := SetStatus(i, Error, was, done);
        assert done == Effects(p, a);
        return false;
      }
      done := SetStatus(i, Checking, was, done);
      if a.monitoring.None? {
        PerformMore(was, i, done, Hold(p.(status := Error)));
        mem := mem[i := mem[i].(status := Error)];
        assert done + [Hold(p.(status := Error))] == Effects(p, a);
        return false;
      }
      var v := SampleOf(a.monitoring.value);
      if mem[i].period < 0 {
        assert done == Effects(p, a);
        return true;
      }
      PerformMore(was, i, done, Record(Evaluate(p, v)));
      Evaluation(i, v);
      assert done + [Record(Evaluate(p, v))] == Effects(p, a);
      return false;
    }

    method Visit(i: nat, a: Answer) returns (panicked: bool)
      requires i < |mem|
      modifies this
      ensures State() == Perform(old(State()), i, Effects(old(mem[i]), a))
      ensures panicked == Panics(old(mem[i]), a) && |mem| == old(|mem|)
    {
      ghost var was, p := State(), mem[i];
      panicked := false;
      match mem[i].status {
        case Ready => panicked := VisitReady(i, a);
        case Detected =>
          if mem[i].action.ScaleOut? {
            DoAction(i, Once(a.recommendFails), true, Once(a.createFails) + Once(a.commandFails));
          } else if mem[i].action.ScaleIn? {
            DoAction(i, Once(a.listFails), a.hasAutoGen, Once(a.hasAutoGen && a.deleteFails));
          } else {
            DoAction(i, 0, false, 0);
          }
        case Stabilizing =>
          PerformMore(was, i, [], Put(p.(status := Ready, history := [], since := [])));
          Save(i, mem[i].(status := Ready, history := [], since := []));
        case Error =>
          PerformMore(was, i, [], Put(p.(status := Ready)));
          Save(i, mem[i].(status := Ready));
        case _ =>
      }
    }

    /** One tick for one MCI, uninterrupted but for panics. */
    method Tick(answers: seq<Answer>) returns (panicked: bool)
      requires |answers| == |stored|
      modifies this
      ensures State() == Visits(old(State()).(mem := old(stored)), answers, 0)
    {
      mem := stored;
      ghost var was := State();
      var policyIndex := 0;
      panicked := false;
      while policyIndex < |answers|
        invariant 0 <= policyIndex <= |answers| == |mem|
        invariant Visits(was, answers, 0) == Visits(State(), answers, policyIndex)
      {
        panicked := Visit(policyIndex, answers[policyIndex]);
        if panicked {
          return;
        }
        policyIndex := policyIndex + 1;
      }
    }
  }
}
