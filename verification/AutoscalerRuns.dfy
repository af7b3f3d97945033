/** Runs of the policy controller, tick after tick, with crashes at any point of a visit. */
module AutoscalerRuns {
  import opened Options
  import opened Autoscaler

  // ---------- steps ----------

  /** A tick loads the persisted list and visits it in order. `cut` is how many effects of the visit
      happen before a crash; the process then starts over from the store. */
  datatype Step = Load | Visit(a: Answer, cut: nat)

  predicate Enabled(s: Sys, st: Step) {
    st.Visit? ==> s.at < |s.mem|
  }

  function Happening(p: Policy, st: Step): seq<Effect>
    requires st.Visit?
  {
    if st.cut < |Effects(p, st.a)| then Effects(p, st.a)[..st.cut] else Effects(p, st.a)
  }

  predicate Crashes(p: Policy, st: Step)
    requires st.Visit?
  {
    st.cut < |Effects(p, st.a)| || Panics(p, st.a)
  }

  function Reloaded(s: Sys): Sys {
    Sys(s.stored, s.stored, s.log, 0)
  }

  function Next(s: Sys, st: Step): Sys
    requires Enabled(s, st)
  {
    if st.Load? then Reloaded(s)
    else
      var t := Perform(s, s.at, Happening(s.mem[s.at], st));
      if Crashes(s.mem[s.at], st) then Reloaded(t) else t.(at := s.at + 1)
  }

  // ---------- what a visit leaves behind ----------

  function LastHeld(p: Policy, effects: seq<Effect>): Policy {
    if effects == [] then p
    else
      var e := effects[|effects| - 1];
      if e.Act? then LastHeld(p, effects[..|effects| - 1]) else e.p
  }

  function LastSaved(effects: seq<Effect>): Option<Policy> {
    if effects == [] then None
    else
      var e := effects[|effects| - 1];
      if e.Put? || e.Record? then Some(e.p) else LastSaved(effects[..|effects| - 1])
  }

  function Logged(i: nat, effects: seq<Effect>): seq<Event> {
    if effects == [] then []
    else
      var e, init := effects[|effects| - 1], Logged(i, effects[..|effects| - 1]);
      if e.Record? then init + [Evaluated(i)] else if e.Act? then init + [Acted(i)] else init
  }

  lemma {:induction false} PerformResult(s: Sys, i: nat, effects: seq<Effect>)
    requires i < |s.mem| == |s.stored|
    ensures var t := Perform(s, i, effects);
            && t.mem == s.mem[i := LastHeld(s.mem[i], effects)] && t.log == s.log + Logged(i, effects)
            && t.stored == match LastSaved(effects) case None => s.stored case Some(p) => s.mem[i := p]
    decreases |effects|
  {
    if effects != [] {
      PerformResult(s, i, effects[..|effects| - 1]);
    }
  }

  lemma {:induction false} LoggedAppend(i: nat, a: seq<Effect>, b: seq<Effect>)
    ensures Logged(i, a + b) == Logged(i, a) + Logged(i, b)
    decreases |b|
  {
    if b == [] {
      assert a + b == a;
    } else {
      LoggedAppend(i, a, b[..|b| - 1]);
      assert (a + b)[..|a + b| - 1] == a + b[..|b| - 1];
    }
  }

  lemma {:induction false} NothingLogged(i: nat, effects: seq<Effect>)
    requires forall k :: 0 <= k < |effects| ==> effects[k].Put?
    ensures Logged(i, effects) == []
    decreases |effects|
  {
    if effects != [] { NothingLogged(i, effects[..|effects| - 1]); }
  }

  lemma LoggedActing(i: nat, p: Policy, before: nat, acts: bool, after: nat)
    ensures Logged(i, Acting(p, before, acts, after)) == if acts then [Acted(i)] else []
  {
    var head, mid, tail := [Put(p.(status := Operating))] + ErrorPuts(p, before), if acts then [Act] else [],
                           ErrorPuts(p, after) + [Put(p.(status := Stabilizing))];
    assert Acting(p, before, acts, after) == head + mid + tail;
    NothingLogged(i, head);
    NothingLogged(i, tail);
    assert Logged(i, [Act]) == [Acted(i)];
    LoggedAppend(i, head, mid);
    LoggedAppend(i, head + mid, tail);
  }

  /** Any part of an action acts at most once. */
  lemma ActsOnce(i: nat, p: Policy, before: nat, acts: bool, after: nat, n: nat)
    requires n <= |Acting(p, before, acts, after)|
    ensures Logged(i, Acting(p, before, acts, after)[..n]) in {[], [Acted(i)]}
  {
    var all := Acting(p, before, acts, after);
    LoggedActing(i, p, before, acts, after);
    LoggedAppend(i, all[..n], all[n..]);
    assert all == all[..n] + all[n..];
    var some, whole := Logged(i, all[..n]), Logged(i, all);
    assert |some| <= 1 && some == whole[..|some|];
    assert |some| == 1 ==> some == whole == [Acted(i)];
    assert |some| == 0 ==> some == [];
  }

  /** A policy in the course of an action. */
  predicate IsActing(q: Policy, p: Policy) {
    q == p.(status := q.status) && q.status in {Operating, Error, Stabilizing}
  }

  predicate InAction(e: Effect, p: Policy) {
    e.Act? || (e.Put? && IsActing(e.p, p))
  }

  lemma ActingEffects(p: Policy, before: nat, acts: bool, after: nat)
    ensures forall k :: 0 <= k < |Acting(p, before, acts, after)| ==> InAction(Acting(p, before, acts, after)[k], p)
  {
    assert forall k :: 0 <= k < before ==> InAction(ErrorPuts(p, before)[k], p);
    assert forall k :: 0 <= k < after ==> InAction(ErrorPuts(p, after)[k], p);
  }

  lemma {:induction false} SavedWhileActing(p: Policy, effects: seq<Effect>)
    requires forall k :: 0 <= k < |effects| ==> InAction(effects[k], p)
    requires effects != [] ==> effects[0].Put?
    ensures effects != [] ==> LastSaved(effects).Some? && IsActing(LastSaved(effects).value, p)
                              && LastHeld(p, effects) == LastSaved(effects).value
    decreases |effects|
  {
    if |effects| > 1 { SavedWhileActing(p, effects[..|effects| - 1]); }
  }

  // ---------- the window ----------

  predicate Live(status: Status) {
    status in {Ready, Checking, Detected, Error}
  }

  /** The window holds the newest samples since it was last cleared: all of them, or at least a period's worth. */
  ghost predicate IsWindow(p: Policy) {
    p.history <= p.since && (|p.history| >= p.period || p.history == p.since)
  }

  predicate HasActed(log: seq<Event>, i: nat) {
    Acted(i) in log
  }

  /** Evaluations of policy `i` since its last action, or since the beginning. */
  function Gap(log: seq<Event>, i: nat): nat {
    if log == [] then 0
    else
      var e, init := log[|log| - 1], log[..|log| - 1];
      if e == Acted(i) then 0 else Gap(init, i) + if e == Evaluated(i) then 1 else 0
  }

  lemma GapAppend(log: seq<Event>, e: Event, i: nat)
    ensures Gap(log + [e], i) == if e == Acted(i) then 0 else Gap(log, i) + if e == Evaluated(i) then 1 else 0
  {
    assert (log + [e])[..|log|] == log;
  }

  /** A detected policy has a full window whose mean is on the operator's side. */
  predicate IsDetected(p: Policy) {
    p.period >= 1 && |p.history| == p.period && Compare(p.operator, Mean(p.history, p.period), p.operand)
  }

  /** What keeps a policy from acting too early: if `strict`, its window holds only what came after its last action;
      in any case it has been evaluated since. */
  ghost predicate Paced(p: Policy, log: seq<Event>, i: nat, strict: bool) {
    && IsWindow(p)
    && (p.status == Detected ==> IsDetected(p))
    && (strict && HasActed(log, i) && Live(p.status) ==> |p.since| <= Gap(log, i))
    && (HasActed(log, i) && p.status == Detected ==> Gap(log, i) >= 1)
  }

  lemma DetectedWhen(p: Policy, v: Value)
    requires IsWindow(p) && p.period >= 0
    ensures IsWindow(Evaluate(p, v)) && (Evaluate(p, v).status == Detected ==> IsDetected(Evaluate(p, v)))
  {
    assert [v] + p.history <= [v] + p.since;
  }

  lemma PacedEvaluate(p: Policy, v: Value, log: seq<Event>, i: nat, strict: bool)
    requires Paced(p, log, i, strict) && p.status == Ready && p.period >= 0
    ensures Paced(Evaluate(p, v), log + [Evaluated(i)], i, strict)
  {
    GapAppend(log, Evaluated(i), i);
    DetectedWhen(p, v);
    assert HasActed(log + [Evaluated(i)], i) ==> HasActed(log, i);
  }

  lemma PacedOther(p: Policy, log: seq<Event>, e: Event, i: nat, strict: bool)
    requires Paced(p, log, i, strict) && e.i != i
    ensures Paced(p, log + [e], i, strict)
  {
    GapAppend(log, e, i);
    assert HasActed(log + [e], i) ==> HasActed(log, i);
  }

  /** An action has been taken, the error it ended with is saved, and a crash comes before that is overwritten. */
  predicate IsTorn(p: Policy, st: Step)
    requires st.Visit?
  {
    var effects := Happening(p, st);
    Act in effects && Crashes(p, st) && LastSaved(effects).Some? && LastSaved(effects).value.status == Error
  }

  /** What one visit makes of its policy, in memory and in the store, and of the log. */
  ghost predicate VisitResult(p: Policy, st: Step, log: seq<Event>, i: nat, strict: bool)
    requires st.Visit?
  {
    var effects := Happening(p, st);
    var log' := log + Logged(i, effects);
    && (LastSaved(effects).Some? ==> Paced(LastSaved(effects).value, log', i, strict) && LastSaved(effects).value.period == p.period)
    && (LastSaved(effects).None? ==> Logged(i, effects) == [])
    && (!Crashes(p, st) ==> Paced(LastHeld(p, effects), log', i, strict))
    && LastHeld(p, effects).period == p.period
    && (Logged(i, effects) == [] || Logged(i, effects) == [Evaluated(i)]
        || (Logged(i, effects) == [Acted(i)] && p.status == Detected))
  }

  /** The visit gets as far as its third effect. */
  lemma VisitReadyEnd(p: Policy, st: Step, log: seq<Event>, i: nat, strict: bool)
    requires st.Visit? && Paced(p, log, i, strict) && p.status == Ready && |Happening(p, st)| == 3
    ensures VisitResult(p, st, log, i, strict)
  {
    var effects, checking := Happening(p, st), Put(p.(status := Checking));
    assert effects == Effects(p, st.a);
    NothingLogged(i, [checking, checking]);
    assert effects[..2] == [checking, checking];
    assert log + [] == log;
    if effects[2].Record? {
      PacedEvaluate(p, Sample(st.a.monitoring.value), log, i, strict);
    } else {
      assert LastSaved(effects[..2]) == Some(checking.p);
    }
  }

  lemma VisitReadyResult(p: Policy, st: Step, log: seq<Event>, i: nat, strict: bool)
    requires st.Visit? && Paced(p, log, i, strict) && p.status == Ready
    ensures VisitResult(p, st, log, i, strict)
  {
    var all, effects := Effects(p, st.a), Happening(p, st);
    assert effects == all[..|effects|];
    if |effects| <= 2 {
      assert log + [] == log;
      NothingLogged(i, effects);
    } else {
      VisitReadyEnd(p, st, log, i, strict);
    }
  }

  lemma VisitShortResult(p: Policy, st: Step, log: seq<Event>, i: nat, strict: bool)
    requires st.Visit? && Paced(p, log, i, strict) && p.status != Ready && p.status != Detected
    ensures VisitResult(p, st, log, i, strict)
  {
    var all, effects := Effects(p, st.a), Happening(p, st);
    assert |all| <= 1;
    assert effects == [] || effects == all;
    assert log + [] == log;
    if p.status == Stabilizing || p.status == Error {
      assert all == [all[0]];
    }
  }

  lemma VisitDetectedResult(p: Policy, st: Step, log: seq<Event>, i: nat, strict: bool, before: nat, acts: bool, after: nat)
    requires st.Visit? && Paced(p, log, i, strict) && p.status == Detected && (strict ==> !IsTorn(p, st))
    requires Effects(p, st.a) == Acting(p, before, acts, after)
    ensures VisitResult(p, st, log, i, strict)
  {
    var all, effects := Effects(p, st.a), Happening(p, st);
    assert effects == all[..|effects|];
    ActsOnce(i, p, before, acts, after, |effects|);
    ActingEffects(p, before, acts, after);
    SavedWhileActing(p, effects);
    ActedWhen(i, effects);
    if effects == [] {
      assert log + [] == log;
    } else {
      assert effects == all ==> effects[|effects| - 1] == Put(p.(status := Stabilizing));
      PacedActing(p, LastSaved(effects).value, log, i, strict, Act in effects);
    }
  }

  lemma PacedActing(p: Policy, q: Policy, log: seq<Event>, i: nat, strict: bool, acted: bool)
    requires Paced(p, log, i, strict) && p.status == Detected && IsActing(q, p)
    requires strict && acted ==> q.status != Error
    ensures Paced(q, log + if acted then [Acted(i)] else [], i, strict)
  {
    GapAppend(log, Acted(i), i);
    if !acted { assert log + [] == log; }
  }

  lemma {:induction false} ActedWhen(i: nat, effects: seq<Effect>)
    ensures Acted(i) in Logged(i, effects) <==> Act in effects
    decreases |effects|
  {
    if effects != [] {
      ActedWhen(i, effects[..|effects| - 1]);
      assert effects == effects[..|effects| - 1] + [effects[|effects| - 1]];
    }
  }

  lemma VisitAnyResult(p: Policy, st: Step, log: seq<Event>, i: nat, strict: bool)
    requires st.Visit? && Paced(p, log, i, strict) && (strict ==> !IsTorn(p, st))
    ensures VisitResult(p, st, log, i, strict)
  {
    var a := st.a;
    if p.status == Ready {
      VisitReadyResult(p, st, log, i, strict);
    } else if p.status != Detected {
      VisitShortResult(p, st, log, i, strict);
    } else if p.action.ScaleOut? {
      VisitDetectedResult(p, st, log, i, strict, Once(a.recommendFails), true, Once(a.createFails) + Once(a.commandFails));
    } else if p.action.ScaleIn? {
      VisitDetectedResult(p, st, log, i, strict, Once(a.listFails), a.hasAutoGen, Once(a.hasAutoGen && a.deleteFails));
    } else {
      VisitDetectedResult(p, st, log, i, strict, 0, false, 0);
    }
  }

  // ---------- whole runs ----------

  ghost predicate AllPaced(list: seq<Policy>, periods: seq<int>, log: seq<Event>, strict: bool) {
    |list| == |periods| && forall j :: 0 <= j < |list| ==> Paced(list[j], log, j, strict) && list[j].period == periods[j]
  }

  /** How many evaluations lie between two actions: a period's worth, or at least one. */
  function Pace(period: int, strict: bool): int {
    if strict || period <= 1 then period else 1
  }

  ghost predicate Spaced(log: seq<Event>, periods: seq<int>, strict: bool) {
    forall b :: 0 <= b < |log| && log[b].Acted? && HasActed(log[..b], log[b].i) ==>
      log[b].i < |periods| && Gap(log[..b], log[b].i) >= Pace(periods[log[b].i], strict)
  }

  ghost predicate Inv(s: Sys, periods: seq<int>, strict: bool) {
    AllPaced(s.mem, periods, s.log, strict) && AllPaced(s.stored, periods, s.log, strict) && Spaced(s.log, periods, strict)
  }

  lemma ListPaced(list: seq<Policy>, periods: seq<int>, log: seq<Event>, i: nat, q: Policy, events: seq<Event>,
                  strict: bool)
    requires AllPaced(list, periods, log, strict) && i < |list| && q.period == periods[i]
    requires Paced(q, log + events, i, strict) && (events == [] || (|events| == 1 && events[0].i == i))
    ensures AllPaced(list[i := q], periods, log + events, strict)
  {
    forall j | 0 <= j < |list| && j != i ensures Paced(list[j], log + events, j, strict) {
      if events == [] {
        assert log + events == log;
      } else {
        assert events == [events[0]];
        PacedOther(list[j], log, events[0], j, strict);
      }
    }
  }

  lemma SpacedAppend(log: seq<Event>, periods: seq<int>, e: Event, strict: bool)
    requires Spaced(log, periods, strict)
    requires e.Acted? && HasActed(log, e.i) ==> e.i < |periods| && Gap(log, e.i) >= Pace(periods[e.i], strict)
    ensures Spaced(log + [e], periods, strict)
  {
    var l := log + [e];
    forall b | 0 <= b < |l| && l[b].Acted? && HasActed(l[..b], l[b].i)
      ensures l[b].i < |periods| && Gap(l[..b], l[b].i) >= Pace(periods[l[b].i], strict)
    {
      assert b < |log| ==> l[..b] == log[..b] && l[b] == log[b];
      assert b == |log| ==> l[..b] == log;
    }
  }

  lemma VisitKeeps(s: Sys, periods: seq<int>, st: Step, strict: bool)
    requires Inv(s, periods, strict) && st.Visit? && Enabled(s, st) && (strict ==> !IsTorn(s.mem[s.at], st))
    ensures Inv(Next(s, st), periods, strict)
  {
    var i, p := s.at, s.mem[s.at];
    var effects := Happening(p, st);
    var events := Logged(i, effects);
    PerformResult(s, i, effects);
    VisitAnyResult(p, st, s.log, i, strict);
    if events == [] {
      assert s.log + events == s.log;
    } else {
      assert events == [events[0]];
      SpacedAppend(s.log, periods, events[0], strict);
    }
    if LastSaved(effects).Some? {
      ListPaced(s.mem, periods, s.log, i, LastSaved(effects).value, events, strict);
    }
    if !Crashes(p, st) {
      ListPaced(s.mem, periods, s.log, i, LastHeld(p, effects), events, strict);
    }
  }

  ghost predicate IsRun(s: Sys, steps: seq<Step>, t: Sys)
    decreases |steps|
  {
    if steps == [] then t == s
    else Enabled(s, steps[0]) && IsRun(Next(s, steps[0]), steps[1..], t)
  }

  /** A run in which no crash is torn. */
  ghost predicate IsCleanRun(s: Sys, steps: seq<Step>, t: Sys)
    decreases |steps|
  {
    if steps == [] then t == s
    else
      Enabled(s, steps[0]) && (steps[0].Visit? ==> !IsTorn(s.mem[s.at], steps[0]))
      && IsCleanRun(Next(s, steps[0]), steps[1..], t)
  }

  lemma {:induction false} RunKeeps(s: Sys, periods: seq<int>, steps: seq<Step>, t: Sys, strict: bool)
    requires Inv(s, periods, strict) && if strict then IsCleanRun(s, steps, t) else IsRun(s, steps, t)
    ensures Inv(t, periods, strict)
    decreases |steps|
  {
    if steps != [] {
      if steps[0].Visit? { VisitKeeps(s, periods, steps[0], strict); }
      RunKeeps(Next(s, steps[0]), periods, steps[1..], t, strict);
    }
  }

  /** As `CreateMciPolicy` leaves the store: everything Ready, with whatever values the request carried. */
  ghost predicate IsInitial(s: Sys) {
    && s.mem == s.stored && s.log == [] && s.at == 0
    && forall j :: 0 <= j < |s.stored| ==> s.stored[j].status == Ready && s.stored[j].history == s.stored[j].since
  }

  function Periods(list: seq<Policy>): seq<int> {
    seq(|list|, j requires 0 <= j < |list| => list[j].period)
  }

  /** Evaluations of policy `i` strictly between two positions of the log. */
  function Evaluations(log: seq<Event>, i: nat, a: int, b: nat): nat
    requires b <= |log|
  {
    if b == 0 || b - 1 <= a then 0 else Evaluations(log, i, a, b - 1) + if log[b - 1] == Evaluated(i) then 1 else 0
  }

  lemma {:induction false} GapWithin(log: seq<Event>, i: nat, a: nat, b: nat)
    requires a < b <= |log| && log[a] == Acted(i)
    ensures Gap(log[..b], i) <= Evaluations(log, i, a, b)
  {
    assert log[..b][..b - 1] == log[..b - 1];
    if b > a + 1 { GapWithin(log, i, a, b - 1); }
  }

  lemma ActionsApart(t: Sys, periods: seq<int>, i: nat, a: nat, b: nat, strict: bool)
    requires Inv(t, periods, strict) && a < b < |t.log| && t.log[a] == t.log[b] == Acted(i)
    ensures i < |periods| && Evaluations(t.log, i, a, b) >= Pace(periods[i], strict)
  {
    assert t.log[..b][a] == Acted(i);
    GapWithin(t.log, i, a, b);
  }

  /** Any two actions of one policy are at least its evaluation period apart, counted in evaluations, over every run
      of ticks with crashes anywhere but between a failed action's saved error and the save that overwrites it; and
      at least one evaluation apart over every run at all. */
  lemma Spacing(s: Sys, steps: seq<Step>, t: Sys, i: nat, a: nat, b: nat)
    requires IsInitial(s) && IsRun(s, steps, t)
    requires a < b < |t.log| && t.log[a] == t.log[b] == Acted(i)
    ensures i < |s.stored| && Evaluations(t.log, i, a, b) >= Pace(s.stored[i].period, false)
    ensures IsCleanRun(s, steps, t) ==> Evaluations(t.log, i, a, b) >= s.stored[i].period
  {
    RunKeeps(s, Periods(s.stored), steps, t, false);
    ActionsApart(t, Periods(s.stored), i, a, b, false);
    if IsCleanRun(s, steps, t) {
      RunKeeps(s, Periods(s.stored), steps, t, true);
      ActionsApart(t, Periods(s.stored), i, a, b, true);
    }
  }

  // ---------- the persisted window ----------

  predicate IsWithin(p: Policy) {
    0 <= p.period && |p.history| <= p.period
  }

  lemma {:induction false} LastWithin(p: Policy, effects: seq<Effect>)
    requires IsWithin(p) && forall k :: 0 <= k < |effects| ==> !effects[k].Act? ==> IsWithin(effects[k].p)
    ensures IsWithin(LastHeld(p, effects)) && (LastSaved(effects).Some? ==> IsWithin(LastSaved(effects).value))
    decreases |effects|
  {
    if effects != [] { LastWithin(p, effects[..|effects| - 1]); }
  }

  lemma EffectsWithin(p: Policy, a: Answer)
    requires IsWithin(p)
    ensures forall k :: 0 <= k < |Effects(p, a)| ==> !Effects(p, a)[k].Act? ==> IsWithin(Effects(p, a)[k].p)
  {
    if p.status == Detected {
      DetectedEffects(p, a);
    }
  }

  lemma DetectedEffects(p: Policy, a: Answer)
    requires p.status == Detected
    ensures forall k :: 0 <= k < |Effects(p, a)| ==> InAction(Effects(p, a)[k], p)
  {
    if p.action.ScaleOut? {
      ActingEffects(p, Once(a.recommendFails), true, Once(a.createFails) + Once(a.commandFails));
    } else if p.action.ScaleIn? {
      ActingEffects(p, Once(a.listFails), a.hasAutoGen, Once(a.hasAutoGen && a.deleteFails));
    } else {
      ActingEffects(p, 0, false, 0);
    }
  }

  lemma WithinKept(s: Sys, st: Step, i: nat)
    requires Enabled(s, st) && |s.mem| == |s.stored| && i < |s.mem| && IsWithin(s.mem[i]) && IsWithin(s.stored[i])
    ensures var t := Next(s, st); |t.mem| == |t.stored| == |s.mem| && IsWithin(t.mem[i]) && IsWithin(t.stored[i])
  {
    if st.Visit? {
      var effects := Happening(s.mem[s.at], st);
      PerformResult(s, s.at, effects);
      if s.at == i {
        EffectsWithin(s.mem[i], st.a);
        LastWithin(s.mem[i], effects);
      }
    }
  }

  lemma {:induction false} WithinRun(s: Sys, steps: seq<Step>, t: Sys, i: nat)
    requires IsRun(s, steps, t) && |s.mem| == |s.stored| && i < |s.mem| && IsWithin(s.mem[i]) && IsWithin(s.stored[i])
    ensures i < |t.stored| && IsWithin(t.stored[i])
    decreases |steps|
  {
    if steps != [] {
      WithinKept(s, steps[0], i);
      WithinRun(Next(s, steps[0]), steps[1..], t, i);
    }
  }

  /** In every reachable store the window is the newest part of the values since it was last cleared, at least a
      period's worth or all; and exactly the newest values up to the period, if the request carried no more. */
  lemma StoredWindow(s: Sys, steps: seq<Step>, t: Sys, i: nat)
    requires IsInitial(s) && IsRun(s, steps, t) && i < |s.stored|
    ensures i < |t.stored| && IsWindow(t.stored[i])
    ensures IsWithin(s.stored[i]) ==>
              t.stored[i].period >= 0 && t.stored[i].history == Newest(t.stored[i].since, t.stored[i].period)
  {
    RunKeeps(s, Periods(s.stored), steps, t, false);
    if IsWithin(s.stored[i]) { WithinRun(s, steps, t, i); }
  }

  /** A mean on the operator's side of the operand. */
  ghost predicate Meets(operator: string, mean: Value, operand: real) {
    mean.Number? && ((operator == ">=" && mean.x >= operand) || (operator == ">" && mean.x > operand)
                     || (operator == "<=" && mean.x <= operand) || (operator == "<" && mean.x < operand))
  }

  /** An evaluation keeps exactly the newest `period` values. With a period of zero it ends in Error; with too few
      values, or a mean that stands for too few, in Ready; else with an unknown operator in Error, with a mean on the
      operator's side of the operand in Detected, and in Ready otherwise. */
  lemma Detection(p: Policy, v: Value)
    requires IsWindow(p) && p.period >= 0
    ensures var q, all := Evaluate(p, v), [v] + p.since;
            var newest := if |all| > p.period then all[..p.period] else all;
            && q.history == newest && q.since == all
            && q == p.(status := q.status, history := q.history, since := q.since)
            && (p.period == 0 ==> q.status == Error)
            && (p.period > 0 ==>
                  var enough := |p.since| + 1 >= p.period && Mean(newest, p.period) != Number(-0.1);
                  && (q.status == Detected <==> enough && Meets(p.operator, Mean(newest, p.period), p.operand))
                  && (q.status == Error <==> enough && p.operator !in {">=", ">", "<=", "<"})
                  && (q.status != Detected && q.status != Error ==> q.status == Ready))
  {
    assert [v] + p.history <= [v] + p.since;
    assert p.history == p.since[..|p.history|];
    assert ([v] + p.history)[..|p.history| + 1] == ([v] + p.since)[..|p.history| + 1];
  }

  /** The mean of values of which one is not a number is not one either; else it times their number is their sum. */
  lemma {:induction false} TotalIsSum(values: seq<Value>)
    ensures Total(values).NaN? <==> NaN in values
    ensures forall n: int :: n > 0 ==> (Mean(values, n).NaN? <==> NaN in values)
    ensures forall n: int :: n > 0 && NaN !in values ==> Mean(values, n).x * n as real == Total(values).x
  {
    if values != [] {
      var init := values[..|values| - 1];
      TotalIsSum(init);
      assert values == init + [values[|values| - 1]];
      assert NaN in values <==> NaN in init || values[|values| - 1] == NaN;
    }
  }
}
