/** When a crash after a failed action makes a policy act again too early. */
module AutoscalerTorn {
  import opened Options
  import opened Autoscaler
  import opened AutoscalerRuns

  // ---------- runs put together ----------

  lemma RunCons(s: Sys, st: Step, steps: seq<Step>, t: Sys)
    requires Enabled(s, st) && IsRun(Next(s, st), steps, t)
    ensures IsRun(s, [st] + steps, t)
  {
    assert ([st] + steps)[1..] == steps;
  }

  lemma {:induction false} RunConcat(s: Sys, a: seq<Step>, m: Sys, b: seq<Step>, t: Sys)
    requires IsRun(s, a, m) && IsRun(m, b, t)
    ensures IsRun(s, a + b, t)
    decreases |a|
  {
    if a == [] {
      assert a + b == b;
    } else {
      RunConcat(Next(s, a[0]), a[1..], m, b, t);
      RunCons(s, a[0], a[1..] + b, t);
      assert [a[0]] + (a[1..] + b) == a + b;
    }
  }

  lemma RunOne(s: Sys, st: Step)
    requires Enabled(s, st)
    ensures IsRun(s, [st], Next(s, st))
  {
    assert IsRun(Next(s, st), [st][1..], Next(s, st));
  }

  /** The log grows, by no evaluation of policy `i` and no other change of what was logged. */
  ghost predicate Quiet(before: seq<Event>, after: seq<Event>, i: nat) {
    before <= after && forall k :: |before| <= k < |after| ==> after[k] != Evaluated(i)
  }

  lemma {:induction false} LogGrows(s: Sys, steps: seq<Step>, t: Sys)
    requires |s.mem| == |s.stored| && IsRun(s, steps, t)
    ensures s.log <= t.log
    decreases |steps|
  {
    if steps != [] {
      if steps[0].Visit? { PerformResult(s, s.at, Happening(s.mem[s.at], steps[0])); }
      LogGrows(Next(s, steps[0]), steps[1..], t);
    }
  }

  // ---------- getting to a policy ----------

  const ABSENT := Answer(false, None, false, false, false, false, false, false)
  const WORKING := Answer(true, Some([1.0]), false, false, false, false, true, false)

  /** Policy `i` the same in memory and in the store. */
  ghost predicate IsKept(s: Sys, i: nat, q: Policy) {
    |s.mem| == |s.stored| && i < |s.mem| && s.mem[i] == q && s.stored[i] == q
  }

  function Whole(s: Sys, a: Answer): Step
    requires s.at < |s.mem|
  {
    Visit(a, |Effects(s.mem[s.at], a)|)
  }

  lemma {:induction false} LoggedIsOwn(i: nat, effects: seq<Effect>)
    ensures forall k :: 0 <= k < |Logged(i, effects)| ==> Logged(i, effects)[k].i == i
    decreases |effects|
  {
    if effects != [] { LoggedIsOwn(i, effects[..|effects| - 1]); }
  }

  /** A visit of another policy leaves this one as it is. */
  lemma PassOne(s: Sys, i: nat, q: Policy)
    requires IsKept(s, i, q) && s.at < i
    ensures var t := Next(s, Whole(s, ABSENT)); IsKept(t, i, q) && t.at == s.at + 1 && Quiet(s.log, t.log, i)
  {
    PerformResult(s, s.at, Effects(s.mem[s.at], ABSENT));
    LoggedIsOwn(s.at, Effects(s.mem[s.at], ABSENT));
  }

  lemma {:induction false} PassOver(s: Sys, i: nat, q: Policy) returns (steps: seq<Step>, t: Sys)
    requires IsKept(s, i, q) && s.at <= i
    ensures IsRun(s, steps, t) && IsKept(t, i, q) && t.at == i && Quiet(s.log, t.log, i)
    decreases i - s.at
  {
    if s.at == i {
      steps, t := [], s;
    } else {
      var st := Whole(s, ABSENT);
      PassOne(s, i, q);
      steps, t := PassOver(Next(s, st), i, q);
      RunCons(s, st, steps, t);
      steps := [st] + steps;
    }
  }

  /** A new tick comes to policy `i`. */
  lemma TickTo(s: Sys, i: nat, q: Policy) returns (steps: seq<Step>, t: Sys)
    requires |s.mem| == |s.stored| && i < |s.stored| && s.stored[i] == q
    ensures IsRun(s, steps, t) && IsKept(t, i, q) && t.at == i && Quiet(s.log, t.log, i)
  {
    steps, t := PassOver(Next(s, Load), i, q);
    RunCons(s, Load, steps, t);
    steps := [Load] + steps;
  }

  /** A whole visit of policy `i` that ends with a save. */
  lemma VisitIt(s: Sys, i: nat, a: Answer, q: Policy, events: seq<Event>)
    requires |s.mem| == |s.stored| && s.at == i < |s.mem| && !Panics(s.mem[i], a)
    requires LastSaved(Effects(s.mem[i], a)) == Some(q) && Logged(i, Effects(s.mem[i], a)) == events
    ensures var t := Next(s, Whole(s, a));
            && IsRun(s, [Whole(s, a)], t) && |t.mem| == |t.stored| == |s.mem| && t.stored[i] == q && t.log == s.log + events
  {
    PerformResult(s, i, Effects(s.mem[i], a));
    RunOne(s, Whole(s, a));
  }

  // ---------- a sample that detects ----------

  lemma {:induction false} TotalPrepend(v: Value, values: seq<Value>)
    ensures Total([v] + values) == Add(v, Total(values))
  {
    if values == [] {
      assert [v] + values == [v] && [v][..0] == [];
      assert Total([v]) == Add(Total([v][..0]), v);
    } else {
      TotalPrepend(v, values[..|values| - 1]);
      assert ([v] + values)[..|values|] == [v] + values[..|values| - 1];
    }
  }

  /** A mean on the operator's side of the operand, other than the one that stands for too few values. */
  function Wanted(operator: string, operand: real): real {
    if operator == ">=" || operator == ">" then if operand + 1.0 == -0.1 then operand + 2.0 else operand + 1.0
    else if operand - 1.0 == -0.1 then operand - 2.0 else operand - 1.0
  }

  lemma WantedCompares(operator: string, operand: real)
    requires operator in OPERATORS
    ensures Compare(operator, Number(Wanted(operator, operand)), operand) && Number(Wanted(operator, operand)) != NOT_ENOUGH
  {
  }

  lemma MeanIs(m: real, rest: real, n: int)
    requires n > 0
    ensures (m * n as real - rest + rest) / n as real == m
  {
  }

  /** The sample that brings the mean there, given the values that stay in the window. */
  function Telling(p: Policy): real
    requires IsDetected(p)
  {
    var rest := Total(p.history[..p.period - 1]);
    if rest.NaN? then 0.0 else Wanted(p.operator, p.operand) * p.period as real - rest.x
  }

  lemma TellingMean(p: Policy)
    requires IsDetected(p)
    ensures Mean([Number(Telling(p))] + p.history[..p.period - 1], p.period) == Number(Wanted(p.operator, p.operand))
  {
    var v, kept := Number(Telling(p)), p.history[..p.period - 1];
    assert Total(p.history) == Add(Total(kept), p.history[p.period - 1]);
    TotalPrepend(v, kept);
    MeanIs(Wanted(p.operator, p.operand), Total(kept).x, p.period);
  }

  lemma TellingDetects(p: Policy)
    requires IsDetected(p)
    ensures Evaluate(p.(status := Ready), Number(Telling(p))).status == Detected
  {
    TellingMean(p);
    WantedCompares(p.operator, p.operand);
    var v := Number(Telling(p));
    assert Newest([v] + p.history, p.period) == [v] + p.history[..p.period - 1];
  }

  lemma SampleOfOne(x: real)
    ensures Sample([x]) == Number(x)
  {
    var xs := Numbers([x]);
    assert xs == [Number(x)] && xs[..0] == [];
    assert Total(xs) == Number(x);
  }

  // ---------- the three visits ----------

  lemma ErrorVisit(p: Policy, i: nat)
    requires p.status == Error
    ensures LastSaved(Effects(p, WORKING)) == Some(p.(status := Ready)) && Logged(i, Effects(p, WORKING)) == []
  {
    assert Effects(p, WORKING) == [Put(p.(status := Ready))];
  }

  lemma ReadyVisit(p: Policy, i: nat, x: real)
    requires p.status == Ready && p.period >= 0
    ensures var a := WORKING.(monitoring := Some([x]));
            LastSaved(Effects(p, a)) == Some(Evaluate(p, Number(x))) && Logged(i, Effects(p, a)) == [Evaluated(i)]
  {
    var effects := Effects(p, WORKING.(monitoring := Some([x])));
    SampleOfOne(x);
    NothingLogged(i, effects[..2]);
  }

  lemma DetectedVisit(p: Policy, i: nat)
    requires p.status == Detected && !p.action.NoAction?
    ensures LastSaved(Effects(p, WORKING)) == Some(p.(status := Stabilizing)) && Logged(i, Effects(p, WORKING)) == [Acted(i)]
  {
    LoggedActing(i, p, 0, true, 0);
    var effects := Effects(p, WORKING);
    assert effects == Acting(p, 0, true, 0);
    assert effects[|effects| - 1] == Put(p.(status := Stabilizing));
  }

  /** From a saved error with a full window: two ticks and one evaluation later the policy is detected. */
  lemma DetectedSoon(s: Sys, i: nat, p: Policy) returns (steps: seq<Step>, t: Sys, m: seq<Event>)
    requires |s.mem| == |s.stored| && i < |s.stored| && IsDetected(p) && s.stored[i] == p.(status := Error)
    ensures IsRun(s, steps, t) && |t.mem| == |t.stored| && i < |t.stored|
    ensures t.stored[i].status == Detected && t.stored[i].action == p.action
    ensures Quiet(s.log, m, i) && t.log == m + [Evaluated(i)]
  {
    var error, ready := p.(status := Error), p.(status := Ready);
    var a, s1 := TickTo(s, i, error);
    ErrorVisit(error, i);
    VisitIt(s1, i, WORKING, ready, []);
    var s2 := Next(s1, Whole(s1, WORKING));
    RunConcat(s, a, s1, [Whole(s1, WORKING)], s2);
    assert s2.log == s1.log;
    steps, t, m := EvaluatedSoon(s2, i, p);
    RunConcat(s, a + [Whole(s1, WORKING)], s2, steps, t);
    steps := a + [Whole(s1, WORKING)] + steps;
  }

  lemma EvaluatedSoon(s: Sys, i: nat, p: Policy) returns (steps: seq<Step>, t: Sys, m: seq<Event>)
    requires |s.mem| == |s.stored| && i < |s.stored| && IsDetected(p) && s.stored[i] == p.(status := Ready)
    ensures IsRun(s, steps, t) && |t.mem| == |t.stored| && i < |t.stored|
    ensures t.stored[i].status == Detected && t.stored[i].action == p.action
    ensures Quiet(s.log, m, i) && t.log == m + [Evaluated(i)]
  {
    var ready, x := p.(status := Ready), Telling(p);
    var a, s1 := TickTo(s, i, ready);
    var answer := WORKING.(monitoring := Some([x]));
    ReadyVisit(ready, i, x);
    TellingDetects(p);
    VisitIt(s1, i, answer, Evaluate(ready, Number(x)), [Evaluated(i)]);
    t, m := Next(s1, Whole(s1, answer)), s1.log;
    RunConcat(s, a, s1, [Whole(s1, answer)], t);
    steps := a + [Whole(s1, answer)];
  }

  lemma ActsSoon(s: Sys, i: nat, p: Policy) returns (steps: seq<Step>, t: Sys, m: seq<Event>)
    requires |s.mem| == |s.stored| && i < |s.stored| && s.stored[i] == p && p.status == Detected && !p.action.NoAction?
    ensures IsRun(s, steps, t)
    ensures Quiet(s.log, m, i) && t.log == m + [Acted(i)]
  {
    var a, s1 := TickTo(s, i, p);
    DetectedVisit(p, i);
    VisitIt(s1, i, WORKING, p.(status := Stabilizing), [Acted(i)]);
    t, m := Next(s1, Whole(s1, WORKING)), s1.log;
    RunConcat(s, a, s1, [Whole(s1, WORKING)], t);
    steps := a + [Whole(s1, WORKING)];
  }

  // ---------- main result ----------

  /** Some run from here has policy `i` act again after fewer than `period` evaluations; its last action is the last
      thing logged. */
  ghost predicate ActsEarly(s: Sys, i: nat, period: int) {
    exists steps, t, b :: IsRun(s, steps, t) && 0 < |s.log| <= b < |t.log| && t.log[b] == Acted(i)
                          && Evaluations(t.log, i, |s.log| - 1, b) < period
  }

  lemma {:induction false} QuietEvaluations(before: seq<Event>, after: seq<Event>, i: nat, a: nat, b: nat)
    requires Quiet(before, after, i) && a < |before| <= b <= |after|
    ensures Evaluations(after, i, a, b) == Evaluations(before, i, a, |before|)
    decreases b
  {
    if b > |before| {
      QuietEvaluations(before, after, i, a, b - 1);
    } else {
      SameEvaluations(before, after, i, a, b);
    }
  }

  lemma {:induction false} SameEvaluations(x: seq<Event>, y: seq<Event>, i: nat, a: nat, b: nat)
    requires x <= y && b <= |x|
    ensures Evaluations(x, i, a, b) == Evaluations(y, i, a, b)
  {
    if b > 0 { SameEvaluations(x, y, i, a, b - 1); }
  }

  lemma LastEvaluated(m: seq<Event>, i: nat, a: nat)
    requires a < |m|
    ensures Evaluations(m + [Evaluated(i)], i, a, |m| + 1) == Evaluations(m, i, a, |m|) + 1
  {
    SameEvaluations(m, m + [Evaluated(i)], i, a, |m|);
  }

  /** One evaluation between two stretches without any. */
  lemma OneBetween(first: seq<Event>, m: seq<Event>, k: seq<Event>, i: nat)
    requires 0 < |first| && Quiet(first, m, i) && Quiet(m + [Evaluated(i)], k, i)
    ensures Evaluations(k + [Acted(i)], i, |first| - 1, |k|) == 1
  {
    var a := |first| - 1;
    assert Evaluations(k + [Acted(i)], i, a, |k|) == Evaluations(k, i, a, |k|) by {
      SameEvaluations(k, k + [Acted(i)], i, a, |k|);
    }
    assert Evaluations(k, i, a, |k|) == Evaluations(m + [Evaluated(i)], i, a, |m| + 1) by {
      QuietEvaluations(m + [Evaluated(i)], k, i, a, |k|);
    }
    LastEvaluated(m, i, a);
    QuietEvaluations(first, m, i, a, |m|);
  }

  lemma NoActionNeverActs(p: Policy, a: Answer)
    requires p.status == Detected && p.action.NoAction?
    ensures Act !in Effects(p, a)
  {
  }

  lemma TornEffects(p: Policy, st: Step, log: seq<Event>, i: nat)
    requires st.Visit? && p.status == Detected && IsTorn(p, st) && Paced(p, log, i, false)
    ensures LastSaved(Happening(p, st)) == Some(p.(status := Error)) && Logged(i, Happening(p, st)) == [Acted(i)]
    ensures !p.action.NoAction?
  {
    var effects := Happening(p, st);
    DetectedEffects(p, st.a);
    assert forall k :: 0 <= k < |effects| ==> effects[k] == Effects(p, st.a)[k];
    SavedWhileActing(p, effects);
    VisitAnyResult(p, st, log, i, false);
    ActedWhen(i, effects);
    if p.action.NoAction? { NoActionNeverActs(p, st.a); }
  }

  /** What a torn crash leaves: the saved error of the policy, and its action as the last thing logged. */
  lemma TornResult(s: Sys, periods: seq<int>, st: Step)
    requires Inv(s, periods, false) && st.Visit? && Enabled(s, st) && s.mem[s.at].status == Detected && IsTorn(s.mem[s.at], st)
    ensures var n, i := Next(s, st), s.at;
            && |n.mem| == |n.stored| == |s.mem| && n.stored[i] == s.mem[i].(status := Error)
            && n.log == s.log + [Acted(i)] && !s.mem[i].action.NoAction?
  {
    TornEffects(s.mem[s.at], st, s.log, s.at);
    PerformResult(s, s.at, Happening(s.mem[s.at], st));
  }

  lemma EarlyAfterError(s: Sys, i: nat, p: Policy)
    requires |s.mem| == |s.stored| && i < |s.stored| && IsDetected(p) && s.stored[i] == p.(status := Error)
    requires p.period >= 2 && !p.action.NoAction? && |s.log| > 0
    ensures ActsEarly(s, i, p.period)
  {
    var a, s1, m := DetectedSoon(s, i, p);
    var b, t, k := ActsSoon(s1, i, s1.stored[i]);
    RunConcat(s, a, s1, b, t);
    OneBetween(s.log, m, k, i);
    assert t.log[|k|] == Acted(i) && Evaluations(t.log, i, |s.log| - 1, |k|) < p.period;
  }

  /** After a torn crash, some run has the policy act again before its evaluation period is over, if and only if that
      period is two or more. */
  lemma TornIff(s: Sys, periods: seq<int>, st: Step)
    requires Inv(s, periods, false) && st.Visit? && Enabled(s, st) && s.mem[s.at].status == Detected && IsTorn(s.mem[s.at], st)
    ensures ActsEarly(Next(s, st), s.at, s.mem[s.at].period) <==> s.mem[s.at].period >= 2
  {
    var n, i, p := Next(s, st), s.at, s.mem[s.at];
    TornResult(s, periods, st);
    if p.period >= 2 {
      EarlyAfterError(n, i, p);
    } else {
      VisitKeeps(s, periods, st, false);
      forall steps, t, b | IsRun(n, steps, t) && |n.log| <= b < |t.log| && t.log[b] == Acted(i)
        ensures Evaluations(t.log, i, |n.log| - 1, b) >= p.period
      {
        RunKeeps(n, periods, steps, t, false);
        LogGrows(n, steps, t);
        ActionsApart(t, periods, i, |n.log| - 1, b, false);
      }
    }
  }
}
