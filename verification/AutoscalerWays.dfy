/** What a visit does, and which policies ever act. */
module AutoscalerWays {
  import opened Options
  import opened Autoscaler
  import opened AutoscalerRuns
  import opened AutoscalerTorn

  // ---------- one whole visit ----------

  /** Whether the action of the policy reaches the MCI. */
  predicate Reaches(p: Policy, a: Answer) {
    p.action == ScaleOut || (p.action == ScaleIn && a.hasAutoGen)
  }

  /** What an uninterrupted visit leaves in the store, in memory and in the log, by the status it finds: an MCI that is
      not found makes an Error, failed monitoring leaves Checking in the store and Error in memory, and else the
      policy is evaluated; a detected policy acts and is then stabilizing; from there its window is cleared; an Error
      goes back to Ready; and nothing happens otherwise. */
  lemma WholeVisit(p: Policy, a: Answer, i: nat)
    requires !(p.status == Ready && a.found && a.monitoring.Some? && p.period < 0)
    ensures !Panics(p, a)
    ensures var effects := Effects(p, a);
            var (saved, held, logged) := (LastSaved(effects), LastHeld(p, effects), Logged(i, effects));
            match p.status
            case Ready =>
              if !a.found then saved == Some(p.(status := Error)) && held == p.(status := Error) && logged == []
              else if a.monitoring == None then
                saved == Some(p.(status := Checking)) && held == p.(status := Error) && logged == []
              else
                p.period >= 0 && saved == Some(Evaluate(p, Sample(a.monitoring.value))) && held == saved.value
                && logged == [Evaluated(i)]
            case Detected =>
              saved == Some(p.(status := Stabilizing)) && held == saved.value
              && logged == if Reaches(p, a) then [Acted(i)] else []
            case Stabilizing =>
              saved == Some(p.(status := Ready, history := [], since := [])) && held == saved.value && logged == []
            case Error => saved == Some(p.(status := Ready)) && held == saved.value && logged == []
            case _ => saved == None && held == p && logged == []
  {
    var effects := Effects(p, a);
    if p.status == Ready {
      NothingLogged(i, effects[..|effects| - 1]);
      assert !a.found ==> effects[..1] == [Put(p.(status := Checking))];
      assert a.found ==> effects[..2] == [Put(p.(status := Checking)), Put(p.(status := Checking))];
    } else if p.status == Detected {
      ActionVisit(p, a, i);
    }
  }

  /** A negative period stops the process with Checking in the store. */
  lemma PanickedVisit(p: Policy, a: Answer, i: nat)
    requires p.status == Ready && a.found && a.monitoring.Some? && p.period < 0
    ensures Panics(p, a) && LastSaved(Effects(p, a)) == Some(p.(status := Checking)) && Logged(i, Effects(p, a)) == []
  {
    NothingLogged(i, Effects(p, a));
  }

  /** And with it the tick: the policies after it are not visited. */
  lemma PanicEndsTick(s: Sys, answers: seq<Answer>, i: nat)
    requires |s.mem| == |s.stored| == |answers| && i < |answers|
    requires var p, a := s.mem[i], answers[i]; p.status == Ready && a.found && a.monitoring.Some? && p.period < 0
    ensures var t, checking := Visits(s, answers, i), s.mem[i := s.mem[i].(status := Checking)];
            t.mem == checking && t.stored == checking && t.log == s.log
  {
    PanickedVisit(s.mem[i], answers[i], i);
    PerformResult(s, i, Effects(s.mem[i], answers[i]));
  }

  lemma ActionVisit(p: Policy, a: Answer, i: nat)
    requires p.status == Detected
    ensures var effects := Effects(p, a);
            LastSaved(effects) == Some(p.(status := Stabilizing)) && LastHeld(p, effects) == p.(status := Stabilizing)
            && Logged(i, effects) == if Reaches(p, a) then [Acted(i)] else []
  {
    var effects := Effects(p, a);
    if p.action.ScaleOut? {
      LoggedActing(i, p, Once(a.recommendFails), true, Once(a.createFails) + Once(a.commandFails));
    } else if p.action.ScaleIn? {
      LoggedActing(i, p, Once(a.listFails), a.hasAutoGen, Once(a.hasAutoGen && a.deleteFails));
    } else {
      LoggedActing(i, p, 0, false, 0);
    }
    assert effects[|effects| - 1] == Put(p.(status := Stabilizing));
  }

  /** The saves of an action in order: Operating, an Error where the recommendation or the list fails, the action, an
      Error for every failure of it, and Stabilizing. */
  lemma ActionSteps(p: Policy, a: Answer)
    requires p.status == Detected
    ensures var (operating, error, stabilizing) :=
              (Put(p.(status := Operating)), Put(p.(status := Error)), Put(p.(status := Stabilizing)));
            Effects(p, a) ==
            match p.action
            case ScaleOut =>
              [operating] + (if a.recommendFails then [error] else []) + [Act] + (if a.createFails then [error] else [])
              + (if a.commandFails then [error] else []) + [stabilizing]
            case ScaleIn =>
              [operating] + (if a.listFails then [error] else []) + (if a.hasAutoGen then [Act] else [])
              + (if a.hasAutoGen && a.deleteFails then [error] else []) + [stabilizing]
            case NoAction => [operating, stabilizing]
  {
    var error := Put(p.(status := Error));
    assert ErrorPuts(p, 0) == [] && ErrorPuts(p, 1) == [error] && ErrorPuts(p, 2) == [error] + [error];
  }

  // ---------- policies that never act ----------

  /** A policy whose configuration lets it act. */
  predicate CanAct(p: Policy) {
    p.period >= 1 && p.operator in {">=", ">", "<=", "<"} && p.action != NoAction
  }

  /** The other ones do nothing, or never come to it. */
  ghost predicate IsIdle(p: Policy) {
    p.action == NoAction || ((p.period < 1 || p.operator !in {">=", ">", "<=", "<"}) && p.status != Detected)
  }

  lemma IdleEffects(p: Policy, a: Answer)
    requires IsIdle(p)
    ensures forall k :: 0 <= k < |Effects(p, a)| ==> Effects(p, a)[k] != Act && IsIdle(Effects(p, a)[k].p)
  {
    if p.status == Detected {
      DetectedEffects(p, a);
      NoActionNeverActs(p, a);
    }
  }

  lemma {:induction false} IdleLeaves(p: Policy, effects: seq<Effect>, i: nat)
    requires IsIdle(p) && forall k :: 0 <= k < |effects| ==> effects[k] != Act && IsIdle(effects[k].p)
    ensures IsIdle(LastHeld(p, effects)) && (LastSaved(effects).Some? ==> IsIdle(LastSaved(effects).value))
    ensures Acted(i) !in Logged(i, effects)
    decreases |effects|
  {
    if effects != [] { IdleLeaves(p, effects[..|effects| - 1], i); }
  }

  ghost predicate IsIdleAt(s: Sys, i: nat) {
    |s.mem| == |s.stored| && i < |s.mem| && IsIdle(s.mem[i]) && IsIdle(s.stored[i]) && Acted(i) !in s.log
  }

  lemma IdleKept(s: Sys, st: Step, i: nat)
    requires Enabled(s, st) && IsIdleAt(s, i)
    ensures IsIdleAt(Next(s, st), i)
  {
    if st.Visit? {
      var effects := Happening(s.mem[s.at], st);
      PerformResult(s, s.at, effects);
      LoggedIsOwn(s.at, effects);
      if s.at == i {
        IdleEffects(s.mem[i], st.a);
        IdleLeaves(s.mem[i], effects, i);
      }
    }
  }

  lemma {:induction false} IdleRun(s: Sys, steps: seq<Step>, t: Sys, i: nat)
    requires IsRun(s, steps, t) && IsIdleAt(s, i)
    ensures IsIdleAt(t, i)
    decreases |steps|
  {
    if steps != [] {
      IdleKept(s, steps[0], i);
      IdleRun(Next(s, steps[0]), steps[1..], t, i);
    }
  }

  // ---------- policies that can ----------

  /** The newest `k` values are all the wanted mean. */
  ghost predicate Starts(p: Policy, k: nat) {
    k <= |p.history| && forall j :: 0 <= j < k ==> p.history[j] == Number(Wanted(p.operator, p.operand))
  }

  lemma {:induction false} TotalOfSame(x: real, values: seq<Value>)
    requires forall j :: 0 <= j < |values| ==> values[j] == Number(x)
    ensures Total(values) == Number(x * |values| as real)
  {
    if values != [] { TotalOfSame(x, values[..|values| - 1]); }
  }

  lemma MeanOfSame(x: real, values: seq<Value>)
    requires values != [] && forall j :: 0 <= j < |values| ==> values[j] == Number(x)
    ensures Mean(values, |values|) == Number(x)
  {
    TotalOfSame(x, values);
    Multiplied(x, |values| as real);
  }

  lemma Multiplied(x: real, n: real)
    requires n > 0.0
    ensures x * n / n == x
  {
  }

  /** One more such sample: the policy is detected, or ready with one more of them in the window. */
  lemma OneMore(p: Policy, k: nat)
    requires p.status == Ready && CanAct(p) && Starts(p, k) && k < p.period
    ensures var q := Evaluate(p, Number(Wanted(p.operator, p.operand)));
            && q == p.(status := q.status, history := q.history, since := q.since)
            && (q.status == Detected || (q.status == Ready && Starts(q, k + 1) && k + 1 < p.period))
  {
    var x := Wanted(p.operator, p.operand);
    var q := Evaluate(p, Number(x));
    WantedCompares(p.operator, p.operand);
    if k + 1 == p.period { MeanOfSame(x, q.history); }
  }

  /** With nothing but such samples the policy is detected within a period. */
  lemma {:induction false} DetectedInTime(s: Sys, i: nat, k: nat) returns (steps: seq<Step>, t: Sys)
    requires |s.mem| == |s.stored| && i < |s.stored|
    requires var p := s.stored[i]; p.status == Ready && CanAct(p) && Starts(p, k) && k < p.period
    ensures IsRun(s, steps, t) && |t.mem| == |t.stored| && i < |t.stored| && t.stored[i].status == Detected
    ensures t.stored[i].action == s.stored[i].action
    decreases s.stored[i].period - k
  {
    var p := s.stored[i];
    var a, s1 := TickTo(s, i, p);
    var x := Wanted(p.operator, p.operand);
    var answer := WORKING.(monitoring := Some([x]));
    ReadyVisit(p, i, x);
    OneMore(p, k);
    VisitIt(s1, i, answer, Evaluate(p, Number(x)), [Evaluated(i)]);
    t := Next(s1, Whole(s1, answer));
    RunConcat(s, a, s1, [Whole(s1, answer)], t);
    steps := a + [Whole(s1, answer)];
    if t.stored[i].status != Detected {
      var more, u := DetectedInTime(t, i, k + 1);
      RunConcat(s, steps, t, more, u);
      steps, t := steps + more, u;
    }
  }

  ghost predicate ActsSometime(s: Sys, i: nat) {
    exists steps, t :: IsRun(s, steps, t) && Acted(i) in t.log
  }

  /** From the start, a policy acts in some run if and only if its period is at least one, its operator is one of the
      four, and it has an action. */
  lemma ActsIff(s: Sys, i: nat)
    requires IsInitial(s) && i < |s.stored|
    ensures ActsSometime(s, i) <==> CanAct(s.stored[i])
  {
    if CanAct(s.stored[i]) {
      var a, m := DetectedInTime(s, i, 0);
      var b, t, _ := ActsSoon(m, i, m.stored[i]);
      RunConcat(s, a, m, b, t);
      assert t.log[|t.log| - 1] == Acted(i);
    } else {
      forall steps, t | IsRun(s, steps, t) ensures Acted(i) !in t.log { IdleRun(s, steps, t, i); }
    }
  }
}
