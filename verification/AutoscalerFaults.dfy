/** Where the policy controller loses an error: monitoring failures that are never persisted, and a
    crash that undoes the pause after an action. */
module AutoscalerFaults {
  import opened Options
  import opened Autoscaler
  import opened AutoscalerRuns
  import opened AutoscalerTorn

  // ---------- a tick that ends in Checking ----------

  predicate MonitoringFails(p: Policy, a: Answer) {
    p.status == Ready && a.found && a.monitoring.None?
  }

  predicate Saves(p: Policy, a: Answer) {
    Effects(p, a) != []
  }

  function After(p: Policy, a: Answer): Policy {
    LastHeld(p, Effects(p, a))
  }

  lemma VisitSettles(p: Policy, a: Answer)
    requires !Panics(p, a)
    ensures Saves(p, a) ==> LastSaved(Effects(p, a)).Some? && After(p, a).status != Checking
    ensures Saves(p, a) ==> LastSaved(Effects(p, a)).value
                            == if MonitoringFails(p, a) then p.(status := Checking) else After(p, a)
    ensures !Saves(p, a) ==> After(p, a) == p && LastSaved(Effects(p, a)).None?
  {
    var effects := Effects(p, a);
    if MonitoringFails(p, a) {
      assert effects[..2][|effects[..2]| - 1] == Put(p.(status := Checking));
    } else if p.status == Detected {
      assert effects[|effects| - 1] == Put(p.(status := Stabilizing));
    }
  }

  ghost predicate SavesFrom(list: seq<Policy>, answers: seq<Answer>, i: nat)
    requires |answers| == |list|
  {
    exists k :: i <= k < |list| && Saves(list[k], answers[k])
  }

  ghost predicate NoPanicFrom(list: seq<Policy>, answers: seq<Answer>, i: nat)
    requires |answers| == |list|
  {
    forall k :: i <= k < |list| ==> !Panics(list[k], answers[k])
  }

  lemma OneVisit(s: Sys, answers: seq<Answer>, i: nat)
    requires i < |s.mem| == |s.stored| == |answers| && !Panics(s.mem[i], answers[i]) && s.mem[i] == s.stored[i]
    ensures var p, a := s.mem[i], answers[i];
            var t := Perform(s, i, Effects(p, a));
            && |t.stored| == |s.stored| && t.mem == s.mem[i := After(p, a)]
            && t.stored[i] == (if MonitoringFails(p, a) then p.(status := Checking) else t.mem[i])
            && forall j :: 0 <= j < |s.mem| && j != i ==> t.stored[j] == if Saves(p, a) then s.mem[j] else s.stored[j]
  {
    PerformResult(s, i, Effects(s.mem[i], answers[i]));
    VisitSettles(s.mem[i], answers[i]);
  }

  /** What visiting the policies from `i` on, from `s` to `t`, makes of policy `j`: what is stored is what is
      in memory, unless its monitoring fails and no later visit saves. */
  ghost predicate Outcome(s: Sys, t: Sys, answers: seq<Answer>, i: nat, j: nat)
    requires |s.mem| == |s.stored| == |t.mem| == |t.stored| == |answers| && j < |s.mem|
  {
    if j < i then t.mem[j] == s.mem[j] && t.stored[j] == if SavesFrom(s.mem, answers, i) then s.mem[j] else s.stored[j]
    else
      && t.mem[j] == After(s.mem[j], answers[j])
      && t.stored[j] == if MonitoringFails(s.mem[j], answers[j]) && !SavesFrom(s.mem, answers, j + 1)
                        then s.mem[j].(status := Checking) else t.mem[j]
  }

  lemma SavesFromNext(list: seq<Policy>, next: seq<Policy>, answers: seq<Answer>, i: nat)
    requires |answers| == |list| == |next| && i < |list| && next == list[i := next[i]]
    ensures SavesFrom(list, answers, i) <==> Saves(list[i], answers[i]) || SavesFrom(next, answers, i + 1)
    ensures forall j: nat :: i < j ==> SavesFrom(next, answers, j) == SavesFrom(list, answers, j)
  {
  }

  /** The outcome of the visits from `i` on, from that of the later ones. */
  lemma OutcomeBack(s: Sys, u: Sys, t: Sys, answers: seq<Answer>, i: nat, j: nat)
    requires |s.mem| == |s.stored| == |u.mem| == |u.stored| == |t.mem| == |t.stored| == |answers| && i < |answers|
    requires j < |answers| && u.mem == s.mem[i := After(s.mem[i], answers[i])]
    requires u.stored[j] == if j == i then if MonitoringFails(s.mem[i], answers[i]) then s.mem[i].(status := Checking) else u.mem[i]
                            else if Saves(s.mem[i], answers[i]) then s.mem[j] else s.stored[j]
    requires Outcome(u, t, answers, i + 1, j)
    ensures Outcome(s, t, answers, i, j)
  {
    SavesFromNext(s.mem, u.mem, answers, i);
  }

  lemma {:induction false} VisitsResult(s: Sys, answers: seq<Answer>, i: nat)
    requires |s.mem| == |s.stored| == |answers| && i <= |answers| && NoPanicFrom(s.mem, answers, i)
    requires forall j :: i <= j < |s.mem| ==> s.mem[j] == s.stored[j]
    ensures var t := Visits(s, answers, i);
            && |t.mem| == |t.stored| == |s.mem|
            && forall j :: 0 <= j < |s.mem| ==> Outcome(s, t, answers, i, j)
    decreases |answers| - i
  {
    if i < |answers| {
      var u := Perform(s, i, Effects(s.mem[i], answers[i]));
      OneVisit(s, answers, i);
      VisitsResult(u, answers, i + 1);
      var t := Visits(s, answers, i);
      forall j | 0 <= j < |s.mem| ensures Outcome(s, t, answers, i, j) { OutcomeBack(s, u, t, answers, i, j); }
    }
  }

  /** An uninterrupted tick leaves a policy in Checking if and only if it was there before, or its monitoring
      failed and no policy after it in the list is saved in the same tick. */
  lemma StuckInChecking(stored: seq<Policy>, log: seq<Event>, answers: seq<Answer>, i: nat)
    requires |answers| == |stored| && NoPanicFrom(stored, answers, 0) && i < |stored|
    ensures var t := Visits(Sys(stored, stored, log, 0), answers, 0);
            && |t.stored| == |stored|
            && (t.stored[i].status == Checking <==>
                || stored[i].status == Checking
                || (MonitoringFails(stored[i], answers[i]) && !SavesFrom(stored, answers, i + 1)))
  {
    var s := Sys(stored, stored, log, 0);
    VisitsResult(s, answers, 0);
    assert Outcome(s, Visits(s, answers, 0), answers, 0, i);
    VisitSettles(stored[i], answers[i]);
  }

  /** And there it stays: no tick, interrupted or not, takes a policy out of Checking, or out of an
      interrupted action. */
  lemma {:induction false} StuckForever(s: Sys, steps: seq<Step>, t: Sys, i: nat)
    requires |s.mem| == |s.stored| && i < |s.mem| && IsRun(s, steps, t)
    requires s.mem[i] == s.stored[i] && s.mem[i].status in {Checking, Operating}
    ensures i < |t.stored| && t.stored[i] == s.stored[i]
    decreases |steps|
  {
    if steps != [] {
      if steps[0].Visit? {
        PerformResult(s, s.at, Happening(s.mem[s.at], steps[0]));
      }
      StuckForever(Next(s, steps[0]), steps[1..], t, i);
    }
  }

  // ---------- the torn crash ----------

  const BUSY := Policy(Detected, 2, ">=", 0.0, ScaleOut, [Number(1.0), Number(1.0)], [Number(1.0), Number(1.0)])
  const FAILING := Answer(true, Some([1.0]), false, true, false, false, false, false)

  /** The action fails, its error is saved, and the process stops there. */
  lemma TornVisit()
    ensures IsTorn(BUSY, Visit(FAILING, 3))
  {
    var st, error := Visit(FAILING, 3), Put(BUSY.(status := Error));
    var effects := Happening(BUSY, st);
    assert Effects(BUSY, FAILING) == [Put(BUSY.(status := Operating)), Act, error, Put(BUSY.(status := Stabilizing))];
    assert effects == [Put(BUSY.(status := Operating)), Act, error];
    assert effects[1] == Act && effects[2] == error;
  }

  lemma BusyIsDetected()
    ensures IsDetected(BUSY) && Inv(Sys([BUSY], [BUSY], [], 0), [2], false)
  {
    var h := BUSY.history;
    assert h[..1] == [Number(1.0)] && h[..1][..0] == [];
    assert Total(h[..1]) == Number(1.0);
    assert Total(h) == Number(2.0);
    assert BUSY.history <= BUSY.since;
  }

  /** For example, with a period of two: the policy may act again after a single evaluation. */
  lemma TornCrash()
    ensures ActsEarly(Next(Sys([BUSY], [BUSY], [], 0), Visit(FAILING, 3)), 0, 2)
  {
    TornVisit();
    BusyIsDetected();
    TornIff(Sys([BUSY], [BUSY], [], 0), [2], Visit(FAILING, 3));
  }
}
