/** The provisioning history of src/core/infra/provisioning.go: one log per spec, fed by provisioning events,
    and the risk verdicts read off it. */
module ProvisioningLog {

  datatype Event = Event(spec: string, image: string, success: bool, message: string, time: int)

  datatype Log = Log(failures: nat, successes: nat, failureTimes: seq<int>, successTimes: seq<int>,
                     messages: seq<string>, failedImages: seq<string>, succeededImages: seq<string>)

  const EMPTY_LOG := Log(0, 0, [], [], [], [], [])

  datatype Level = Low | Medium | High

  datatype Factor = NoFactor | SpecFactor | ImageFactor | Combination

  datatype Verdict = Verdict(spec: Level, image: Level, overall: Level, factor: Factor, newCombination: bool)

  // ---------- recording ----------

  function AddImage(images: seq<string>, image: string): seq<string> {
    if image != "" && image !in images then images + [image] else images
  }

  /** One event added to a log. A success without an earlier failure is not recorded. */
  function Added(log: Log, e: Event): Log {
    if !e.success then
      log.(failures := log.failures + 1, failureTimes := log.failureTimes + [e.time],
           messages := if e.message != "" then log.messages + [e.message] else log.messages,
           failedImages := AddImage(log.failedImages, e.image))
    else if log.failures > 0 then
      log.(successes := log.successes + 1, successTimes := log.successTimes + [e.time],
           succeededImages := AddImage(log.succeededImages, e.image))
    else log
  }

  function LogOf(logs: map<string, Log>, spec: string): Log {
    if spec in logs then logs[spec] else EMPTY_LOG
  }

  /** The store after `RecordProvisioningEvent`; `getOk`, `specKnown` and `putOk` are the answers of the store. */
  function Recorded(logs: map<string, Log>, e: Event, getOk: bool, specKnown: bool, putOk: bool): map<string, Log> {
    if !getOk || (e.spec !in logs && !specKnown) then logs
    else if e.success && LogOf(logs, e.spec).failures == 0 then logs
    else if !putOk then logs
    else logs[e.spec := Added(LogOf(logs, e.spec), e)]
  }

  // ---------- verdicts ----------

  function Rate(log: Log): real
    requires log.failures + log.successes > 0
  {
    log.failures as real / (log.failures + log.successes) as real
  }

  function SpecLevel(failedImages: nat, succeededImages: nat, rate: real): Level {
    if failedImages >= 10 then High
    else if failedImages >= 5 then Medium
    else if failedImages >= 3 && succeededImages == 0 then Medium
    else if rate >= 0.8 then High
    else if rate >= 0.5 then Medium
    else Low
  }

  /** High for ten failed images, or for a failure rate from four in five up, but there only with fewer than three, or
      with fewer than five of which some succeeded; low only below one in two, with as few. */
  lemma SpecLevelIff(failedImages: nat, succeededImages: nat, rate: real)
    ensures var level := SpecLevel(failedImages, succeededImages, rate);
            var few := failedImages < 3 || (failedImages < 5 && succeededImages > 0);
            && (level == High <==> failedImages >= 10 || (few && rate >= 0.8))
            && (level == Low <==> few && rate < 0.5)
  {
  }

  function ImageLevel(hasFailed: bool): Level {
    if hasFailed then High else Low
  }

  /** `getRiskValue`. */
  function RiskValue(level: Level): nat {
    match level case High => 3 case Medium => 2 case Low => 1
  }

  predicate AtLeast(a: Level, b: Level) {
    RiskValue(a) >= RiskValue(b)
  }

  /** `determineOverallRisk`. */
  function Overall(spec: Level, image: Level, newCombination: bool): (r: (Level, Factor))
    ensures AtLeast(r.0, spec) && AtLeast(r.0, image) && (r.0 == spec || r.0 == image)
    ensures r.1 == NoFactor <==> r.0 == Low
    ensures r.1 == Combination <==> newCombination && spec != Low
    ensures r.1 == ImageFactor <==> !AtLeast(spec, image) && !(newCombination && spec != Low)
  {
    var level := if RiskValue(spec) >= RiskValue(image) then spec else image;
    var factor := if RiskValue(spec) >= RiskValue(image) then SpecFactor else ImageFactor;
    if spec == Low && image == Low then (level, NoFactor)
    else if newCombination && spec != Low then (level, Combination)
    else (level, factor)
  }

  class History {
    var logs: map<string, Log>

    constructor ()
      ensures logs == map[]
    {
      logs := map[];
    }

    method RecordProvisioningEvent(e: Event, getOk: bool, specKnown: bool, putOk: bool) returns (ok: bool)
      modifies this
      ensures logs == Recorded(old(logs), e, getOk, specKnown, putOk)
      ensures ok <==> getOk && (e.spec in old(logs) || specKnown)
                      && (putOk || (e.success && LogOf(old(logs), e.spec).failures == 0))
    {
      if !getOk {
        return false;
      }
      var log := EMPTY_LOG;
      if e.spec !in logs {
        if !specKnown {
          return false;
        }
      } else {
        log := logs[e.spec];
      }
      if e.success {
        if log.failures > 0 {
          log := log.(successes := log.successes + 1, successTimes := log.successTimes + [e.time]);
          if e.image != "" && e.image !in log.succeededImages {
            log := log.(succeededImages := log.succeededImages + [e.image]);
          }
        } else {
          return true;
        }
      } else {
        log := log.(failures := log.failures + 1, failureTimes := log.failureTimes + [e.time]);
        if e.message != "" {
          log := log.(messages := log.messages + [e.message]);
        }
        if e.image != "" && e.image !in log.failedImages {
          log := log.(failedImages := log.failedImages + [e.image]);
        }
      }
      if !putOk {
        return false;
      }
      logs := logs[e.spec := log];
      return true;
    }

    method DeleteProvisioningLog(spec: string)
      modifies this
      ensures logs == old(logs) - {spec}
    {
      logs := logs - {spec};
    }

    /** `AnalyzeProvisioningRiskDetailed`. */
    function Analyze(spec: string, image: string, getOk: bool): Verdict
      reads this
    {
      Analysis(logs, spec, image, getOk)
    }
  }

  /** A lookup that fails counts as no history. */
  function Analysis(logs: map<string, Log>, spec: string, image: string, getOk: bool): Verdict {
    VerdictOf(if getOk then LogOf(logs, spec) else EMPTY_LOG, image)
  }

  function VerdictOf(log: Log, image: string): Verdict {
    if log.failures + log.successes == 0 then Verdict(Low, Low, Low, NoFactor, true)
    else
      var hasFailed, hasSucceeded := image in log.failedImages, image in log.succeededImages;
      var isNew := !hasFailed && !hasSucceeded;
      var specLevel := SpecLevel(|log.failedImages|, |log.succeededImages|, Rate(log));
      var overall := Overall(specLevel, ImageLevel(hasFailed), isNew);
      Verdict(specLevel, ImageLevel(hasFailed), overall.0, overall.1, isNew)
  }

  // ---------- what a log says about the events behind it ----------

  function CountOf(events: seq<Event>, success: bool): nat {
    if events == [] then 0
    else CountOf(events[..|events| - 1], success) + if events[|events| - 1].success == success then 1 else 0
  }

  /** The first failure and everything after it. */
  function FromFirstFailure(events: seq<Event>): seq<Event> {
    if events == [] || !events[0].success then events else FromFirstFailure(events[1..])
  }

  ghost predicate Mentions(events: seq<Event>, success: bool, image: string) {
    exists k :: 0 <= k < |events| && events[k].success == success && events[k].image == image
  }

  ghost predicate NoneTwice(images: seq<string>) {
    forall i, j :: 0 <= i < j < |images| ==> images[i] != images[j]
  }

  /** The log tells, of the events from the first failure on, how many failed and succeeded and with which images. */
  ghost predicate Summarizes(log: Log, events: seq<Event>) {
    var seen := FromFirstFailure(events);
    && log.failures == CountOf(seen, false) == |log.failureTimes| && log.successes == CountOf(seen, true) == |log.successTimes|
    && (forall image :: image in log.failedImages <==> image != "" && Mentions(seen, false, image))
    && (forall image :: image in log.succeededImages <==> image != "" && Mentions(seen, true, image))
    && NoneTwice(log.failedImages) && NoneTwice(log.succeededImages)
    && |log.failedImages| <= log.failures && |log.succeededImages| <= log.successes
  }

  lemma {:induction false} FirstFailureAppend(events: seq<Event>, e: Event)
    ensures FromFirstFailure(events + [e])
            == if FromFirstFailure(events) == [] && e.success then [] else FromFirstFailure(events) + [e]
  {
    if events == [] {
      assert events + [e] == [e];
      assert [e][1..] == [];
    } else if events[0].success {
      assert (events + [e])[1..] == events[1..] + [e];
      FirstFailureAppend(events[1..], e);
    }
  }

  lemma {:induction false} FirstFailureCounts(events: seq<Event>)
    ensures CountOf(FromFirstFailure(events), false) == 0 <==> FromFirstFailure(events) == []
  {
    if events != [] && events[0].success {
      FirstFailureCounts(events[1..]);
    } else if events != [] {
      FirstCounts(events);
    }
  }

  lemma {:induction false} FirstCounts(events: seq<Event>)
    requires events != [] && !events[0].success
    ensures CountOf(events, false) > 0
  {
    if |events| > 1 { FirstCounts(events[..|events| - 1]); }
  }

  lemma Append(events: seq<Event>, e: Event)
    ensures forall s :: CountOf(events + [e], s) == CountOf(events, s) + if e.success == s then 1 else 0
    ensures forall s, image :: Mentions(events + [e], s, image) <==>
              Mentions(events, s, image) || (e.success == s && e.image == image)
  {
    var all := events + [e];
    assert all[..|events|] == events;
    forall s, image | Mentions(events, s, image) ensures Mentions(all, s, image) {
      var k :| 0 <= k < |events| && events[k].success == s && events[k].image == image;
      assert all[k] == events[k];
    }
    assert all[|events|] == e;
  }

  /** Adding an event to a log is adding it to what the log summarizes. */
  lemma AddedSummarizes(log: Log, events: seq<Event>, e: Event)
    requires Summarizes(log, events)
    ensures Summarizes(Added(log, e), events + [e])
  {
    FirstFailureAppend(events, e);
    FirstFailureCounts(events);
    Append(FromFirstFailure(events), e);
  }

  // ---------- runs ----------

  datatype Step = Record(e: Event, getOk: bool, specKnown: bool, putOk: bool) | Delete(spec: string)

  function Next(logs: map<string, Log>, st: Step): map<string, Log> {
    match st
    case Record(e, getOk, specKnown, putOk) => Recorded(logs, e, getOk, specKnown, putOk)
    case Delete(spec) => logs - {spec}
  }

  function Run(logs: map<string, Log>, steps: seq<Step>): map<string, Log> {
    if steps == [] then logs else Next(Run(logs, steps[..|steps| - 1]), steps[|steps| - 1])
  }

  /** The events of a spec since its log was last deleted, but for those lost to a failed lookup or save. */
  function EventsOf(steps: seq<Step>, spec: string): seq<Event> {
    if steps == [] then []
    else
      var init, st := steps[..|steps| - 1], steps[|steps| - 1];
      var events := EventsOf(init, spec);
      if st.Delete? then if st.spec == spec then [] else events
      else if st.e.spec == spec && st.getOk && st.putOk && (st.specKnown || spec in Run(map[], init)) then events + [st.e]
      else events
  }

  /** Over every run, the log of a spec summarizes the events recorded for it, and there is one exactly if
      one of them failed. */
  lemma {:induction false} LogIsSummary(steps: seq<Step>, spec: string)
    ensures var logs, events := Run(map[], steps), EventsOf(steps, spec);
            && Summarizes(LogOf(logs, spec), events)
            && (spec in logs <==> FromFirstFailure(events) != [])
  {
    if steps != [] {
      var init, st := steps[..|steps| - 1], steps[|steps| - 1];
      LogIsSummary(init, spec);
      var logs, events := Run(map[], init), EventsOf(init, spec);
      FirstFailureCounts(events);
      if st.Record? && st.e.spec == spec && st.getOk && st.putOk && (st.specKnown || spec in logs) {
        AddedSummarizes(LogOf(logs, spec), events, st.e);
        FirstFailureAppend(events, st.e);
      }
    }
  }

  /** A log on record has a failure, so the branch for a failure rate of zero is never reached. */
  lemma RateIsPositive(steps: seq<Step>, spec: string)
    requires spec in Run(map[], steps)
    ensures var log := Run(map[], steps)[spec]; log.failures > 0 && Rate(log) > 0.0
  {
    LogIsSummary(steps, spec);
    FirstFailureCounts(EventsOf(steps, spec));
    FailureRate(Run(map[], steps)[spec]);
  }

  lemma FailureRate(log: Log)
    requires log.failures > 0
    ensures Rate(log) > 0.0
  {
  }

  /** The verdict on an image is high if and only if the log can be read and some recorded event of the spec failed
      with the image; then so is the overall verdict, whatever succeeded since. */
  lemma HighOnceFailed(steps: seq<Step>, spec: string, image: string, getOk: bool)
    ensures var v := Analysis(Run(map[], steps), spec, image, getOk);
            && (v.image == High <==> getOk && image != "" && Mentions(EventsOf(steps, spec), false, image))
            && (v.image == High ==> v.overall == High)
  {
    LogIsSummary(steps, spec);
    FailuresAreSeen(EventsOf(steps, spec), image);
    FirstFailureCounts(EventsOf(steps, spec));
  }

  lemma {:induction false} FailuresAreSeen(events: seq<Event>, image: string)
    ensures Mentions(FromFirstFailure(events), false, image) <==> Mentions(events, false, image)
  {
    if events != [] && events[0].success {
      FailuresAreSeen(events[1..], image);
      forall k | 1 <= k < |events| ensures events[1..][k - 1] == events[k] {}
    }
  }

  /** Such a failure stays on record until the log is deleted. */
  lemma {:induction false} FailureStays(steps: seq<Step>, more: seq<Step>, spec: string, image: string)
    requires Mentions(EventsOf(steps, spec), false, image) && image != ""
    requires forall k :: 0 <= k < |more| ==> more[k] != Delete(spec)
    ensures Analysis(Run(map[], steps + more), spec, image, true).overall == High
  {
    FailureKept(steps, more, spec, image);
    HighOnceFailed(steps + more, spec, image, true);
  }

  lemma {:induction false} FailureKept(steps: seq<Step>, more: seq<Step>, spec: string, image: string)
    requires Mentions(EventsOf(steps, spec), false, image)
    requires forall k :: 0 <= k < |more| ==> more[k] != Delete(spec)
    ensures Mentions(EventsOf(steps + more, spec), false, image)
    decreases |more|
  {
    if more == [] {
      assert steps + more == steps;
    } else {
      var init := more[..|more| - 1];
      FailureKept(steps, init, spec, image);
      assert (steps + more)[..|steps + more| - 1] == steps + init;
      var st := more[|more| - 1];
      if st.Record? { Append(EventsOf(steps + init, spec), st.e); }
    }
  }

  /** One more failure can lower the risk of a spec: exactly when it brings a third failed image to a spec none has
      succeeded with, or a fifth to one where some has, at a failure rate of at least four in five. */
  lemma FailureLowersRiskIff(log: Log, e: Event)
    requires log.failures > 0 && !e.success && |log.failedImages| <= log.failures
    ensures var before := SpecLevel(|log.failedImages|, |log.succeededImages|, Rate(log));
            var after := Added(log, e);
            !AtLeast(SpecLevel(|after.failedImages|, |after.succeededImages|, Rate(after)), before) <==>
              && e.image != "" && e.image !in log.failedImages && Rate(log) >= 0.8
              && ((|log.failedImages| == 2 && log.succeededImages == [])
                  || (|log.failedImages| == 4 && log.succeededImages != []))
  {
    RateGrows(log.failures, log.successes);
  }

  lemma RateGrows(f: nat, s: nat)
    requires f > 0
    ensures (f + 1) as real / (f + 1 + s) as real >= f as real / (f + s) as real
  {
    var a, b := f as real, (f + s) as real;
    assert (a + 1.0) * b >= a * (b + 1.0);
    Fractions(a + 1.0, b + 1.0, a, b);
  }

  lemma Fractions(a: real, b: real, c: real, d: real)
    requires b > 0.0 && d > 0.0 && a * d >= c * b
    ensures a / b >= c / d
  {
    assert a / b == (a * d) / (b * d) && c / d == (c * b) / (b * d);
  }

  /** The images of the events that failed. */
  function FailedOnes(events: seq<Event>): set<string> {
    set k | 0 <= k < |events| && !events[k].success && events[k].image != "" :: events[k].image
  }

  lemma {:induction false} ListSize(list: seq<string>)
    requires forall i, j :: 0 <= i < j < |list| ==> list[i] != list[j]
    ensures |list| == |set x | x in list|
  {
    if list != [] {
      var last := |list| - 1;
      ListSize(list[..last]);
      assert (set x | x in list) == (set x | x in list[..last]) + {list[last]};
    }
  }

  /** Ten images that failed with a spec make it high, and the overall verdict with it, whatever succeeded since. */
  lemma TenImagesAreHigh(steps: seq<Step>, spec: string, image: string)
    requires |FailedOnes(EventsOf(steps, spec))| >= 10
    ensures var v := Analysis(Run(map[], steps), spec, image, true); v.spec == High && v.overall == High
  {
    var events, log := EventsOf(steps, spec), LogOf(Run(map[], steps), spec);
    LogIsSummary(steps, spec);
    FirstFailureCounts(events);
    ListSize(log.failedImages);
    forall x | x in FailedOnes(events) ensures x in log.failedImages { FailuresAreSeen(events, x); }
    assert FailedOnes(events) <= set x | x in log.failedImages;
    SubsetSize(FailedOnes(events), set x | x in log.failedImages);
  }

  lemma SubsetSize(a: set<string>, b: set<string>)
    requires a <= b
    ensures |a| <= |b|
  {
    assert b == a + (b - a);
  }

  // ---------- what is kept of every event ----------

  /** The times of the events of one outcome, in order. */
  function TimesOf(events: seq<Event>, success: bool): seq<int> {
    if events == [] then []
    else
      var e := events[|events| - 1];
      TimesOf(events[..|events| - 1], success) + if e.success == success then [e.time] else []
  }

  /** The messages of the failures, but for empty ones, in order. */
  function MessagesOf(events: seq<Event>): seq<string> {
    if events == [] then []
    else
      var e := events[|events| - 1];
      MessagesOf(events[..|events| - 1]) + if !e.success && e.message != "" then [e.message] else []
  }

  ghost predicate Keeps(log: Log, events: seq<Event>) {
    var seen := FromFirstFailure(events);
    log.failureTimes == TimesOf(seen, false) && log.successTimes == TimesOf(seen, true) && log.messages == MessagesOf(seen)
  }

  lemma AddedKeeps(log: Log, events: seq<Event>, e: Event)
    requires Keeps(log, events) && Summarizes(log, events)
    ensures Keeps(Added(log, e), events + [e])
  {
    var seen := FromFirstFailure(events);
    FirstFailureAppend(events, e);
    FirstFailureCounts(events);
    assert (seen + [e])[..|seen|] == seen;
  }

  /** Over every run, the log of a spec lists the times of its failures and of the successes since the first failure,
      and the messages of the failures, each in order. */
  lemma {:induction false} LogKeeps(steps: seq<Step>, spec: string)
    ensures Keeps(LogOf(Run(map[], steps), spec), EventsOf(steps, spec))
  {
    if steps != [] {
      var init, st := steps[..|steps| - 1], steps[|steps| - 1];
      LogKeeps(init, spec);
      LogIsSummary(init, spec);
      var logs, events := Run(map[], init), EventsOf(init, spec);
      FirstFailureCounts(events);
      if st.Record? && st.e.spec == spec && st.getOk && st.putOk && (st.specKnown || spec in logs) {
        AddedKeeps(LogOf(logs, spec), events, st.e);
        FirstFailureAppend(events, st.e);
      }
    }
  }

  /** Without a log that can be read every level is low, and the combination counts as new; with one it is new if and
      only if the image is in none of the recorded events. */
  lemma NewCombinationIff(steps: seq<Step>, spec: string, image: string, getOk: bool)
    requires image != ""
    ensures var v, seen := Analysis(Run(map[], steps), spec, image, getOk), FromFirstFailure(EventsOf(steps, spec));
            && (!getOk || seen == [] ==> v == Verdict(Low, Low, Low, NoFactor, true))
            && (v.newCombination <==> !getOk || (!Mentions(seen, false, image) && !Mentions(seen, true, image)))
  {
    LogIsSummary(steps, spec);
    FirstFailureCounts(EventsOf(steps, spec));
  }
}
