/**
 * Alert rules evaluated against metric points. An event suppresses another one
 * of its rule for a minute, but only while it is still in the truncated,
 * newest-first list of events.
 */
module Alerts {
  import opened JsText
  import opened Outcome
  import opened FiniteSets

  type Id = Text

  datatype Operator = Above | AtLeast | Below | AtMost | Equal

  datatype Rule = Rule(id: Id, enabled: bool, metric: Text, project: Option<Text>, operator: Operator, threshold: real)

  datatype Point = Point(name: Text, project: Option<Text>, value: real)

  /** Every event of the engine has status open. */
  datatype Event = Event(ruleId: Id, createdAt: nat, value: real)

  const MINUTE := 60_000

  predicate Crosses(operator: Operator, value: real, threshold: real) {
    match operator
    case Above => value > threshold
    case AtLeast => value >= threshold
    case Below => value < threshold
    case AtMost => value <= threshold
    case Equal => value == threshold
  }

  predicate Matches(rule: Rule, point: Point) {
    && rule.enabled && rule.metric == point.name
    && (rule.project.Some? && rule.project.value != [] ==> rule.project == point.project)
    && Crosses(rule.operator, point.value, rule.threshold)
  }

  /**
   * What a rule is for, by the sign of the distance to its threshold: an enabled
   * rule on the metric of the point, of its project unless it names none.
   */
  predicate Alarming(rule: Rule, point: Point) {
    var distance := point.value - rule.threshold;
    && rule.enabled && point.name == rule.metric
    && (rule.project == None || rule.project == Some([]) || rule.project == point.project)
    && match rule.operator
       case Above => distance > 0.0
       case AtLeast => !(distance < 0.0)
       case Below => distance < 0.0
       case AtMost => !(distance > 0.0)
       case Equal => !(distance > 0.0) && !(distance < 0.0)
  }

  lemma MatchesExactlyWhenAlarming(rule: Rule, point: Point)
    ensures Matches(rule, point) <==> Alarming(rule, point)
  {
  }

  /** The five operators: three that exclude each other, and two that join them. */
  lemma OperatorLaws(value: real, threshold: real)
    ensures Crosses(Above, value, threshold) || Crosses(Equal, value, threshold) || Crosses(Below, value, threshold)
    ensures !(Crosses(Above, value, threshold) && Crosses(Below, value, threshold))
    ensures Crosses(Equal, value, threshold) ==> !Crosses(Above, value, threshold) && !Crosses(Below, value, threshold)
    ensures Crosses(AtLeast, value, threshold) <==> Crosses(Above, value, threshold) || Crosses(Equal, value, threshold)
    ensures Crosses(AtMost, value, threshold) <==> Crosses(Below, value, threshold) || Crosses(Equal, value, threshold)
    ensures forall more :: more >= value && Crosses(Above, value, threshold) ==> Crosses(Above, more, threshold)
    ensures forall less :: less <= value && Crosses(Below, value, threshold) ==> Crosses(Below, less, threshold)
  {
  }

  predicate Suppressed(events: seq<Event>, id: Id, now: nat) {
    exists e <- events :: e.ruleId == id && now < e.createdAt + MINUTE
  }

  /** The new events, newest first; times[i] is the clock when rule i is looked at. */
  function Emitted(rules: seq<Rule>, point: Point, times: seq<nat>, events: seq<Event>, newer: seq<Event>): seq<Event>
    requires |times| == |rules|
    decreases |rules|
  {
    if |rules| == 0 then newer
    else
      var rule, now := rules[0], times[0];
      var fires := Matches(rule, point) && !Suppressed(newer + events, rule.id, now);
      Emitted(rules[1..], point, times[1..], events, if fires then [Event(rule.id, now, point.value)] + newer else newer)
  }

  function Truncate<A>(s: seq<A>, n: nat): seq<A> { if |s| <= n then s else s[..n] }

  function Since(events: seq<Event>, before: nat): seq<Event> {
    if |events| == 0 then []
    else (if events[0].createdAt >= before then [events[0]] else []) + Since(events[1..], before)
  }

  function Find(rules: seq<Rule>, id: Id): (i: nat)
    ensures i <= |rules| && (i < |rules| ==> rules[i].id == id) && forall k :: 0 <= k < i ==> rules[k].id != id
  {
    if |rules| == 0 || rules[0].id == id then 0 else 1 + Find(rules[1..], id)
  }

  function Reversed(s: seq<Event>): seq<Event> { if |s| == 0 then [] else Reversed(s[1..]) + [s[0]] }

  class Engine {
    var rules: seq<Rule>
    var events: seq<Event>

    constructor ()
      ensures rules == [] && events == []
    {
      rules, events := [], [];
    }

    method Create(rule: Rule)
      modifies this
      ensures events == old(events) && rules == Put(old(rules), rule)
    {
      var i := Find(rules, rule.id);
      rules := if i < |rules| then rules[i := rule] else rules + [rule];
    }

    method Remove(id: Id) returns (found: bool)
      modifies this
      ensures events == old(events) && rules == Without(old(rules), id)
      ensures found <==> exists r <- old(rules) :: r.id == id
    {
      var i := Find(rules, id);
      found := i < |rules|;
      if found {
        assert rules[i] in rules;
        rules := rules[..i] + rules[i + 1..];
      }
    }

    method Evaluate(point: Point, times: seq<nat>, maxEntries: nat) returns (created: seq<Event>)
      requires |times| == |rules|
      modifies this
      ensures rules == old(rules)
      ensures Reversed(Emitted(old(rules), point, times, old(events), [])) == created
      ensures events == Truncate(Emitted(old(rules), point, times, old(events), []) + old(events), maxEntries)
      ensures forall e <- created :: HasCause(e, rules, point, times)
      ensures DistinctIds(rules) ==> forall i :: 0 <= i < |rules| ==>
        (EventOf(rules[i], point, times[i]) in created <==> Alarming(rules[i], point) && Quiet(old(events), rules[i].id, times[i]))
    {
      created := [];
      ghost var newer: seq<Event> := [];
      for i := 0 to |rules|
        invariant rules == old(rules) && events == newer + old(events) && created == Reversed(newer)
        invariant Emitted(rules, point, times, old(events), []) == Emitted(rules[i..], point, times[i..], old(events), newer)
      {
        var rule := rules[i];
        assert rules[i..][1..] == rules[i + 1..] && times[i..][1..] == times[i + 1..];
        if !Matches(rule, point) { continue; }
        if exists e <- events :: e.ruleId == rule.id && times[i] - e.createdAt < MINUTE { continue; }
        var event := Event(rule.id, times[i], point.value);
        assert [event] + (newer + old(events)) == ([event] + newer) + old(events);
        newer := [event] + newer;
        events := [event] + events;
        created := created + [event];
      }
      if |events| > maxEntries { events := events[..maxEntries]; }
      ReversedHas(newer);
      EmittedHaveCauses(rules, point, times, old(events), []);
      if DistinctIds(rules) { EmittedExactly(rules, point, times, old(events), []); }
    }

    method Prune(before: nat) returns (removed: nat)
      modifies this
      ensures rules == old(rules) && events == Since(old(events), before) && removed == |old(events)| - |events|
    {
      var size := |events|;
      var kept: seq<Event> := [];
      for i := 0 to |events|
        invariant events == old(events) && rules == old(rules)
        invariant |kept| <= i && kept + Since(events[i..], before) == Since(events, before)
      {
        assert events[i..][0] == events[i] && events[i..][1..] == events[i + 1..];
        if events[i].createdAt >= before { kept := kept + [events[i]]; }
      }
      assert kept + [] == kept;
      events := kept;
      removed := size - |events|;
    }
  }

  function EventOf(rule: Rule, point: Point, now: nat): Event { Event(rule.id, now, point.value) }

  /** Every event of the rule is at least a minute old. */
  predicate Quiet(events: seq<Event>, id: Id, now: nat) {
    forall e <- events :: e.ruleId == id ==> now - e.createdAt >= 60_000
  }

  predicate DistinctIds(rules: seq<Rule>) { forall i, j :: 0 <= i < j < |rules| ==> rules[i].id != rules[j].id }

  lemma {:induction false} ReversedHas(s: seq<Event>)
    ensures forall e :: e in Reversed(s) <==> e in s
  {
    if |s| > 0 { ReversedHas(s[1..]); }
  }

  /** The event is that of a rule which the point alarms. */
  predicate HasCause(e: Event, rules: seq<Rule>, point: Point, times: seq<nat>)
    requires |times| == |rules|
  {
    exists i :: 0 <= i < |rules| && Alarming(rules[i], point) && e == EventOf(rules[i], point, times[i])
  }

  /** Every new event comes from a rule that the point alarms. */
  lemma {:induction false} EmittedHaveCauses(rules: seq<Rule>, point: Point, times: seq<nat>, events: seq<Event>, newer: seq<Event>)
    requires |times| == |rules|
    ensures forall e <- Emitted(rules, point, times, events, newer) :: e in newer || HasCause(e, rules, point, times)
    decreases |rules|
  {
    hide Matches, Suppressed, Alarming;
    if |rules| > 0 {
      MatchesExactlyWhenAlarming(rules[0], point);
      var e := EventOf(rules[0], point, times[0]);
      var fires := Matches(rules[0], point) && !Suppressed(newer + events, rules[0].id, times[0]);
      var newer' := if fires then [e] + newer else newer;
      EmittedHaveCauses(rules[1..], point, times[1..], events, newer');
      forall x | x in Emitted(rules, point, times, events, newer) && x !in newer
        ensures HasCause(x, rules, point, times)
      {
        if x !in newer' {
          var i :| 0 <= i < |rules[1..]| && Alarming(rules[1..][i], point) && x == EventOf(rules[1..][i], point, times[1..][i]);
          assert rules[i + 1] == rules[1..][i] && times[i + 1] == times[1..][i];
        }
      }
    }
  }

  lemma QuietMeans(events: seq<Event>, newer: seq<Event>, id: Id, now: nat)
    requires forall e <- newer :: e.ruleId != id
    ensures Suppressed(newer + events, id, now) <==> !Quiet(events, id, now)
  {
    if !Quiet(events, id, now) {
      var e :| e in events && e.ruleId == id && now - e.createdAt < 60_000;
      assert e in newer + events;
    }
  }

  /** With one rule for each id, a rule has its event exactly when the point alarms it and its earlier events are old. */
  lemma {:induction false} EmittedExactly(rules: seq<Rule>, point: Point, times: seq<nat>, events: seq<Event>, newer: seq<Event>)
    requires |times| == |rules| && DistinctIds(rules)
    requires forall e, i :: e in newer && 0 <= i < |rules| ==> e.ruleId != rules[i].id
    ensures forall i :: 0 <= i < |rules| ==>
      (EventOf(rules[i], point, times[i]) in Emitted(rules, point, times, events, newer)
       <==> Alarming(rules[i], point) && Quiet(events, rules[i].id, times[i]))
    decreases |rules|
  {
    hide Matches, Suppressed, Alarming, Quiet;
    if |rules| > 0 {
      MatchesExactlyWhenAlarming(rules[0], point);
      QuietMeans(events, newer, rules[0].id, times[0]);
      var e := EventOf(rules[0], point, times[0]);
      var fires := Matches(rules[0], point) && !Suppressed(newer + events, rules[0].id, times[0]);
      var newer' := if fires then [e] + newer else newer;
      var rest, later := rules[1..], times[1..];
      assert forall i :: 0 <= i < |rest| ==> rest[i] == rules[i + 1] && later[i] == times[i + 1];
      EmittedExactly(rest, point, later, events, newer');
      EmittedHaveCauses(rest, point, later, events, newer');
      EmittedGrows(rest, point, later, events, newer');
      assert Emitted(rules, point, times, events, newer) == Emitted(rest, point, later, events, newer');
      forall i | 0 <= i < |rules|
        ensures EventOf(rules[i], point, times[i]) in Emitted(rules, point, times, events, newer)
          <==> Alarming(rules[i], point) && Quiet(events, rules[i].id, times[i])
      {
        if i > 0 { assert rules[i] == rest[i - 1] && times[i] == later[i - 1]; }
      }
    }
  }

  function Put(rules: seq<Rule>, rule: Rule): seq<Rule> {
    var i := Find(rules, rule.id);
    if i < |rules| then rules[i := rule] else rules + [rule]
  }

  function Without(rules: seq<Rule>, id: Id): seq<Rule> {
    var i := Find(rules, id);
    if i < |rules| then rules[..i] + rules[i + 1..] else rules
  }

  // ----------------------------------------------------------------- runs

  datatype Step =
    | PutRule(rule: Rule)
    | RemoveRule(id: Id)
    | Evaluation(point: Point, times: seq<nat>, maxEntries: nat)
    | Pruning(before: nat, now: nat)

  /** `log` holds every event ever emitted, newest first; `ids` every rule id ever created. */
  datatype State = State(rules: seq<Rule>, events: seq<Event>, log: seq<Event>, ids: set<Id>, clock: nat)

  const START := State([], [], [], {}, 0)

  predicate Ascending(clock: nat, times: seq<nat>) {
    (forall t <- times :: clock <= t) && forall i, j :: 0 <= i < j < |times| ==> times[i] <= times[j]
  }

  predicate Enabled(s: State, step: Step) {
    match step
    case PutRule(_) => true
    case RemoveRule(_) => true
    case Evaluation(_, times, _) => |times| == |s.rules| && Ascending(s.clock, times)
    case Pruning(_, now) => s.clock <= now
  }

  function Last(clock: nat, times: seq<nat>): nat { if |times| == 0 then clock else times[|times| - 1] }

  function Apply(s: State, step: Step): State
    requires Enabled(s, step)
  {
    match step
    case PutRule(rule) => s.(rules := Put(s.rules, rule), ids := s.ids + {rule.id})
    case RemoveRule(id) => s.(rules := Without(s.rules, id))
    case Evaluation(point, times, maxEntries) =>
      var newer := Emitted(s.rules, point, times, s.events, []);
      s.(events := Truncate(newer + s.events, maxEntries), log := newer + s.log, clock := Last(s.clock, times))
    case Pruning(before, now) => s.(events := Since(s.events, before), clock := now)
  }

  /** Room for one event of every rule id, and no pruning of events younger than a minute. */
  predicate Roomy(s: State, step: Step) {
    && (step.Evaluation? ==> |s.ids| <= step.maxEntries)
    && (step.Pruning? ==> step.before + MINUTE <= step.now + 1)
  }

  ghost predicate RoomyRun(s: State, steps: seq<Step>, t: State)
    decreases |steps|
  {
    if |steps| == 0 then s == t
    else Enabled(s, steps[0]) && Roomy(s, steps[0]) && RoomyRun(Apply(s, steps[0]), steps[1..], t)
  }

  // ------------------------------------------------------------ invariant

  predicate Spaced(log: seq<Event>) {
    forall i, j :: 0 <= i < j < |log| && log[i].ruleId == log[j].ruleId ==> log[i].createdAt >= log[j].createdAt + MINUTE
  }

  predicate NewestFirst(log: seq<Event>) { forall i, j :: 0 <= i < j < |log| ==> log[i].createdAt >= log[j].createdAt }

  /** The kept events are the newest ones, and what was dropped is at least a minute old. */
  predicate Covers(events: seq<Event>, log: seq<Event>, clock: nat) {
    && events <= log && NewestFirst(log) && Spaced(log)
    && (|log| > 0 ==> log[0].createdAt <= clock)
    && (forall i :: |events| <= i < |log| ==> log[i].createdAt + MINUTE <= clock)
  }

  predicate Known(log: seq<Event>, ids: set<Id>) { forall i :: 0 <= i < |log| ==> log[i].ruleId in ids }

  predicate RulesKnown(rules: seq<Rule>, ids: set<Id>) { forall i :: 0 <= i < |rules| ==> rules[i].id in ids }

  predicate Inv(s: State) { Covers(s.events, s.log, s.clock) && Known(s.log, s.ids) && RulesKnown(s.rules, s.ids) }

  /** Looking only at the kept events decides suppression as looking at all of them would. */
  lemma SuppressionIsComplete(events: seq<Event>, log: seq<Event>, clock: nat, id: Id, now: nat)
    requires Covers(events, log, clock) && clock <= now
    ensures Suppressed(events, id, now) <==> Suppressed(log, id, now)
  {
    if Suppressed(events, id, now) {
      var e :| e in events && e.ruleId == id && now < e.createdAt + MINUTE;
      assert e in log;
    }
    if Suppressed(log, id, now) {
      var e :| e in log && e.ruleId == id && now < e.createdAt + MINUTE;
      var i :| 0 <= i < |log| && log[i] == e;
      assert events[i] == e;
    }
  }

  lemma EmitKeepsCover(events: seq<Event>, log: seq<Event>, clock: nat, e: Event)
    requires Covers(events, log, clock) && clock <= e.createdAt && !Suppressed(events, e.ruleId, e.createdAt)
    ensures Covers([e] + events, [e] + log, e.createdAt)
  {
    SuppressionIsComplete(events, log, clock, e.ruleId, e.createdAt);
    var next := [e] + log;
    forall i, j | 0 <= i < j < |next| ensures next[i].createdAt >= next[j].createdAt
      && (next[i].ruleId == next[j].ruleId ==> next[i].createdAt >= next[j].createdAt + MINUTE) {
      assert next[j] == log[j - 1];
      if i == 0 { assert log[j - 1] in log; } else { assert next[i] == log[i - 1]; }
    }
  }

  lemma LaterStillCovers(events: seq<Event>, log: seq<Event>, clock: nat, now: nat)
    requires Covers(events, log, clock) && clock <= now
    ensures Covers(events, log, now)
  {
  }

  lemma AscendingRest(clock: nat, times: seq<nat>)
    requires Ascending(clock, times) && |times| > 0
    ensures clock <= times[0] && Ascending(times[0], times[1..]) && Last(clock, times) == Last(times[0], times[1..])
  {
    assert times[0] in times;
    forall t | t in times[1..] ensures times[0] <= t {
      var i :| 0 <= i < |times[1..]| && times[1..][i] == t;
    }
  }

  lemma {:induction false} EmittedCovers(rules: seq<Rule>, point: Point, times: seq<nat>, events: seq<Event>,
                                         newer: seq<Event>, log: seq<Event>, clock: nat, ids: set<Id>)
    requires |times| == |rules| && Ascending(clock, times) && RulesKnown(rules, ids)
    requires Covers(newer + events, newer + log, clock) && Known(newer + log, ids)
    ensures var all := Emitted(rules, point, times, events, newer);
      Covers(all + events, all + log, Last(clock, times)) && Known(all + log, ids)
    decreases |rules|
  {
    if |rules| > 0 {
      hide Covers, Ascending, Last, Matches, Suppressed;
      AscendingRest(clock, times);
      var rule, now := rules[0], times[0];
      LaterStillCovers(newer + events, newer + log, clock, now);
      if Matches(rule, point) && !Suppressed(newer + events, rule.id, now) {
        var e := Event(rule.id, now, point.value);
        EmitKeepsCover(newer + events, newer + log, now, e);
        assert [e] + (newer + events) == [e] + newer + events && [e] + (newer + log) == [e] + newer + log;
        EmittedCovers(rules[1..], point, times[1..], events, [e] + newer, log, now, ids);
      } else {
        EmittedCovers(rules[1..], point, times[1..], events, newer, log, now, ids);
      }
    } else {
      assert Last(clock, times) == clock;
    }
  }

  /** The ids of the first n events. */
  function Ids(log: seq<Event>, n: nat): set<Id>
    requires n <= |log|
  {
    if n == 0 then {} else Ids(log, n - 1) + {log[n - 1].ruleId}
  }

  lemma YoungApart(log: seq<Event>, n: nat, now: nat)
    requires 0 < n <= |log| && Spaced(log) && NewestFirst(log) && log[0].createdAt <= now < log[n - 1].createdAt + MINUTE
    ensures forall i :: 0 <= i < n - 1 ==> log[i].ruleId != log[n - 1].ruleId
  {
    forall i | 0 <= i < n - 1 ensures log[i].ruleId != log[n - 1].ruleId {
      assert i > 0 ==> log[0].createdAt >= log[i].createdAt;
    }
  }

  /** Events younger than a minute belong to different rules. */
  lemma {:induction false} YoungIdsDiffer(log: seq<Event>, n: nat, now: nat, ids: set<Id>)
    requires n <= |log| && Spaced(log) && NewestFirst(log) && Known(log, ids) && (|log| > 0 ==> log[0].createdAt <= now)
    requires forall i :: 0 <= i < n ==> now < log[i].createdAt + MINUTE
    ensures |Ids(log, n)| == n && Ids(log, n) <= ids
    ensures forall x <- Ids(log, n) :: exists i :: 0 <= i < n && log[i].ruleId == x
  {
    hide Spaced, NewestFirst;
    if n > 0 {
      YoungIdsDiffer(log, n - 1, now, ids);
      YoungApart(log, n, now);
      var before, id := Ids(log, n - 1), log[n - 1].ruleId;
      assert id !in before;
      assert Ids(log, n) == before + {id};
      forall x | x in Ids(log, n) ensures exists i :: 0 <= i < n && log[i].ruleId == x {
        if x == id { assert log[n - 1].ruleId == x; }
      }
    }
  }

  /** The pigeonhole: behind as many events as there are rules, every event is old. */
  lemma BehindTheRoomIsOld(log: seq<Event>, clock: nat, ids: set<Id>, n: nat, k: nat)
    requires Spaced(log) && NewestFirst(log) && Known(log, ids) && |ids| <= n <= k < |log| && log[0].createdAt <= clock
    ensures log[k].createdAt + MINUTE <= clock
  {
    if clock < log[k].createdAt + MINUTE {
      forall i | 0 <= i < k + 1 ensures clock < log[i].createdAt + MINUTE {
        assert i < k ==> log[i].createdAt >= log[k].createdAt;
      }
      hide Spaced, NewestFirst, Known, Ids;
      YoungIdsDiffer(log, k + 1, clock, ids);
      SubsetSize(Ids(log, k + 1), ids);
    }
  }

  /** With room for one event of each rule, truncation drops only old events. */
  lemma TruncationDropsOldOnly(events: seq<Event>, log: seq<Event>, clock: nat, ids: set<Id>, n: nat)
    requires Covers(events, log, clock) && Known(log, ids) && |ids| <= n
    ensures Covers(Truncate(events, n), log, clock)
  {
    hide Spaced, NewestFirst, Known;
    forall k | |Truncate(events, n)| <= k < |log| ensures log[k].createdAt + MINUTE <= clock {
      if k < |events| { BehindTheRoomIsOld(log, clock, ids, n, k); }
    }
  }

  lemma {:induction false} SinceIsPrefix(events: seq<Event>, before: nat)
    requires NewestFirst(events)
    ensures Since(events, before) <= events
    ensures forall i :: |Since(events, before)| <= i < |events| ==> events[i].createdAt < before
  {
    if |events| > 0 {
      SinceIsPrefix(events[1..], before);
      if events[0].createdAt < before {
        forall i | 0 <= i < |events| ensures events[i].createdAt < before { assert events[0].createdAt >= events[i].createdAt; }
        AllOldGone(events[1..], before);
      } else {
        forall i | 1 + |Since(events[1..], before)| <= i < |events| ensures events[i].createdAt < before {
          assert events[i] == events[1..][i - 1];
        }
      }
    }
  }

  lemma {:induction false} AllOldGone(events: seq<Event>, before: nat)
    requires forall i :: 0 <= i < |events| ==> events[i].createdAt < before
    ensures Since(events, before) == []
  {
    if |events| > 0 { AllOldGone(events[1..], before); }
  }

  lemma PruningKeepsCover(events: seq<Event>, log: seq<Event>, clock: nat, before: nat, now: nat)
    requires Covers(events, log, clock) && clock <= now && before + MINUTE <= now + 1
    ensures Covers(Since(events, before), log, now)
  {
    forall i, j | 0 <= i < j < |events| ensures events[i].createdAt >= events[j].createdAt {
      assert events[i] == log[i] && events[j] == log[j];
    }
    SinceIsPrefix(events, before);
    var kept := Since(events, before);
    forall i | |kept| <= i < |log| ensures log[i].createdAt + MINUTE <= now {
      if i < |events| { assert log[i] == events[i]; }
    }
  }

  lemma StepKeepsInv(s: State, step: Step)
    requires Inv(s) && Enabled(s, step) && Roomy(s, step)
    ensures Inv(Apply(s, step))
  {
    hide Covers;
    match step
    case PutRule(rule) =>
    case RemoveRule(id) =>
    case Evaluation(point, times, maxEntries) =>
      assert [] + s.events == s.events && [] + s.log == s.log;
      EmittedCovers(s.rules, point, times, s.events, [], s.log, s.clock, s.ids);
      var newer := Emitted(s.rules, point, times, s.events, []);
      TruncationDropsOldOnly(newer + s.events, newer + s.log, Last(s.clock, times), s.ids, maxEntries);
    case Pruning(before, now) =>
      PruningKeepsCover(s.events, s.log, s.clock, before, now);
  }

  lemma {:induction false} RunKeepsInv(s: State, steps: seq<Step>, t: State)
    requires Inv(s) && RoomyRun(s, steps, t)
    ensures Inv(t)
    decreases |steps|
  {
    hide Inv, Apply, Enabled, Roomy;
    if |steps| > 0 {
      StepKeepsInv(s, steps[0]);
      RunKeepsInv(Apply(s, steps[0]), steps[1..], t);
    }
  }

  ghost predicate Reached(s: State, steps: seq<Step>, t: State)
    decreases |steps|
  {
    if |steps| == 0 then s == t else Enabled(s, steps[0]) && Reached(Apply(s, steps[0]), steps[1..], t)
  }

  /** Whatever the caps and the prunings, no two rules ever share an id. */
  lemma {:induction false} RuleIdsStayDistinct(s: State, steps: seq<Step>, t: State)
    requires DistinctIds(s.rules) && Reached(s, steps, t)
    ensures DistinctIds(t.rules)
    decreases |steps|
  {
    hide Emitted, Truncate, Since, Last;
    if |steps| > 0 {
      assert DistinctIds(Apply(s, steps[0]).rules);
      RuleIdsStayDistinct(Apply(s, steps[0]), steps[1..], t);
    }
  }

  /** In every roomy run any two events of one rule are at least a minute apart. */
  lemma EventsAreSpaced(steps: seq<Step>, s: State, i: nat, j: nat)
    requires RoomyRun(START, steps, s) && i < j < |s.log| && s.log[i].ruleId == s.log[j].ruleId
    ensures s.log[i].createdAt >= s.log[j].createdAt + 60_000
  {
    RunKeepsInv(START, steps, s);
  }

  /** A rule fires exactly when the point alarms it and none of its events, kept or not, is younger than a minute. */
  lemma FiresExactlyWhenQuiet(steps: seq<Step>, s: State, rule: Rule, point: Point, now: nat)
    requires RoomyRun(START, steps, s) && s.clock <= now
    ensures Emitted([rule], point, [now], s.events, []) ==
      if Alarming(rule, point) && (forall e <- s.log :: e.ruleId == rule.id ==> now - e.createdAt >= 60_000)
      then [Event(rule.id, now, point.value)] else []
  {
    MatchesExactlyWhenAlarming(rule, point);
    RunKeepsInv(START, steps, s);
    OneRule(rule, point, now, s.events);
    SuppressedMeans(s.log, rule.id, now);
    hide RoomyRun, Covers, Matches, Alarming, Emitted, Suppressed, Known, RulesKnown;
    SuppressionIsComplete(s.events, s.log, s.clock, rule.id, now);
  }

  lemma OneRule(rule: Rule, point: Point, now: nat, events: seq<Event>)
    ensures Emitted([rule], point, [now], events, []) ==
      if Matches(rule, point) && !Suppressed(events, rule.id, now) then [Event(rule.id, now, point.value)] else []
  {
    hide Matches, Suppressed;
    assert [] + events == events;
    var out: seq<Event> :=
      if Matches(rule, point) && !Suppressed(events, rule.id, now) then [Event(rule.id, now, point.value)] + [] else [];
    assert Emitted([rule], point, [now], events, []) == Emitted([rule][1..], point, [now][1..], events, out) == out;
  }

  lemma SuppressedMeans(events: seq<Event>, id: Id, now: nat)
    ensures !Suppressed(events, id, now) <==> forall e <- events :: e.ruleId == id ==> e.createdAt + MINUTE <= now
  {
  }

  // ------------------------------------------- exactly the room it takes

  /** How many events are younger than a minute. */
  function YoungCount(log: seq<Event>, clock: nat): nat {
    if |log| == 0 then 0 else (if clock < log[0].createdAt + MINUTE then 1 else 0) + YoungCount(log[1..], clock)
  }

  lemma {:induction false} NoneYoung(log: seq<Event>, clock: nat)
    requires forall i :: 0 <= i < |log| ==> log[i].createdAt + MINUTE <= clock
    ensures YoungCount(log, clock) == 0
  {
    if |log| > 0 { NoneYoung(log[1..], clock); }
  }

  /** The young events are the first ones. */
  lemma {:induction false} YoungPrefix(log: seq<Event>, clock: nat)
    requires NewestFirst(log)
    ensures YoungCount(log, clock) <= |log|
    ensures forall i :: 0 <= i < |log| ==> (clock < log[i].createdAt + MINUTE <==> i < YoungCount(log, clock))
  {
    if |log| > 0 {
      YoungPrefix(log[1..], clock);
      assert forall i :: 0 < i < |log| ==> log[i] == log[1..][i - 1];
      if log[0].createdAt + MINUTE <= clock {
        forall i | 0 <= i < |log| ensures log[i].createdAt + MINUTE <= clock { assert log[0].createdAt >= log[i].createdAt; }
        NoneYoung(log[1..], clock);
      }
    }
  }

  /** Truncation keeps the cover exactly when it leaves room for the young events. */
  lemma TruncationKeepsExactlyWhen(events: seq<Event>, log: seq<Event>, clock: nat, n: nat)
    requires Covers(events, log, clock)
    ensures Covers(Truncate(events, n), log, clock) <==> YoungCount(log, clock) <= n
  {
    YoungPrefix(log, clock);
    hide Spaced, NewestFirst;
    if YoungCount(log, clock) > n {
      assert clock < log[n].createdAt + MINUTE && n < |events|;
    }
  }

  /** Pruning keeps the cover exactly when it spares the young events. */
  lemma PruningKeepsExactlyWhen(events: seq<Event>, log: seq<Event>, clock: nat, before: nat, now: nat)
    requires Covers(events, log, clock) && clock <= now
    ensures Covers(Since(events, before), log, now) <==>
      forall i :: 0 <= i < |log| ==> log[i].createdAt < before ==> log[i].createdAt + MINUTE <= now
  {
    forall i, j | 0 <= i < j < |events| ensures events[i].createdAt >= events[j].createdAt {
      assert events[i] == log[i] && events[j] == log[j];
    }
    SinceIsPrefix(events, before);
    SinceKeepsYounger(events, before);
    var kept := Since(events, before);
    hide Spaced, NewestFirst, Since;
    forall i | 0 <= i < |events| ensures log[i] == events[i] {}
    if Covers(kept, log, now) {
      forall i | 0 <= i < |log| && log[i].createdAt < before ensures log[i].createdAt + MINUTE <= now {
        assert i >= |kept|;
      }
    }
  }

  lemma {:induction false} SinceKeepsYounger(events: seq<Event>, before: nat)
    ensures forall i :: 0 <= i < |Since(events, before)| ==> Since(events, before)[i].createdAt >= before
  {
    if |events| > 0 { SinceKeepsYounger(events[1..], before); }
  }

  /** The step drops no event younger than a minute. */
  predicate KeepsYoung(s: State, step: Step)
    requires Enabled(s, step)
  {
    match step
    case PutRule(_) => true
    case RemoveRule(_) => true
    case Evaluation(point, times, maxEntries) =>
      YoungCount(Emitted(s.rules, point, times, s.events, []) + s.log, Last(s.clock, times)) <= maxEntries
    case Pruning(before, now) =>
      forall i :: 0 <= i < |s.log| ==> s.log[i].createdAt < before ==> s.log[i].createdAt + MINUTE <= now
  }

  /** Up to the events that are kept, every step keeps the invariant. */
  predicate LogOk(s: State) {
    s.events <= s.log && NewestFirst(s.log) && Spaced(s.log) && (|s.log| > 0 ==> s.log[0].createdAt <= s.clock)
  }

  lemma EvaluationKeepsExactlyWhen(s: State, point: Point, times: seq<nat>, n: nat)
    requires Inv(s) && Enabled(s, Evaluation(point, times, n))
    ensures Inv(Apply(s, Evaluation(point, times, n))) <==> KeepsYoung(s, Evaluation(point, times, n))
    ensures LogOk(Apply(s, Evaluation(point, times, n)))
  {
    hide Covers, Known, Last, NewestFirst, Spaced, RulesKnown, Emitted, YoungCount, Truncate, Ascending;
    assert [] + s.events == s.events && [] + s.log == s.log;
    EmittedCovers(s.rules, point, times, s.events, [], s.log, s.clock, s.ids);
    var newer := Emitted(s.rules, point, times, s.events, []);
    TruncationKeepsExactlyWhen(newer + s.events, newer + s.log, Last(s.clock, times), n);
    CoverMeans(newer + s.events, newer + s.log, Last(s.clock, times));
    TruncatedPrefix(newer + s.events, newer + s.log, n);
  }

  lemma TruncatedPrefix(events: seq<Event>, log: seq<Event>, n: nat)
    requires events <= log
    ensures Truncate(events, n) <= log
  {
  }

  lemma CoverMeans(events: seq<Event>, log: seq<Event>, clock: nat)
    requires Covers(events, log, clock)
    ensures events <= log && NewestFirst(log) && Spaced(log) && (|log| > 0 ==> log[0].createdAt <= clock)
  {
  }

  lemma PruneKeepsExactlyWhen(s: State, before: nat, now: nat)
    requires Inv(s) && Enabled(s, Pruning(before, now))
    ensures Inv(Apply(s, Pruning(before, now))) <==> KeepsYoung(s, Pruning(before, now))
    ensures LogOk(Apply(s, Pruning(before, now)))
  {
    PruningKeepsExactlyWhen(s.events, s.log, s.clock, before, now);
    forall i, j | 0 <= i < j < |s.events| ensures s.events[i].createdAt >= s.events[j].createdAt {
      assert s.events[i] == s.log[i] && s.events[j] == s.log[j];
    }
    SinceIsPrefix(s.events, before);
    CoverMeans(s.events, s.log, s.clock);
    hide NewestFirst, Spaced, Since, Covers;
  }

  /** A step keeps the young events among the kept ones exactly when it drops none. */
  lemma KeepsCoverExactlyWhen(s: State, step: Step)
    requires Inv(s) && Enabled(s, step)
    ensures Inv(Apply(s, step)) <==> KeepsYoung(s, step)
    ensures LogOk(Apply(s, step))
  {
    match step
    case PutRule(rule) => CoverMeans(s.events, s.log, s.clock);
    case RemoveRule(id) => CoverMeans(s.events, s.log, s.clock);
    case Evaluation(point, times, n) => EvaluationKeepsExactlyWhen(s, point, times, n);
    case Pruning(before, now) => PruneKeepsExactlyWhen(s, before, now);
  }

  lemma {:induction false} EmittedGrows(rules: seq<Rule>, point: Point, times: seq<nat>, events: seq<Event>, newer: seq<Event>)
    requires |times| == |rules|
    ensures forall e <- newer :: e in Emitted(rules, point, times, events, newer)
    decreases |rules|
  {
    hide Matches, Suppressed;
    if |rules| > 0 {
      var e := Event(rules[0].id, times[0], point.value);
      var fires := Matches(rules[0], point) && !Suppressed(newer + events, rules[0].id, times[0]);
      EmittedGrows(rules[1..], point, times[1..], events, if fires then [e] + newer else newer);
    }
  }

  /** A matching rule of an id without a young event brings an event of that id. */
  lemma {:induction false} SomeFires(rules: seq<Rule>, point: Point, times: seq<nat>, now: nat, events: seq<Event>,
                                     newer: seq<Event>, k: nat)
    requires |times| == |rules| && k < |rules| && Matches(rules[k], point)
    requires forall i :: 0 <= i < |times| ==> times[i] == now
    requires !Suppressed(newer + events, rules[k].id, now)
    ensures exists e <- Emitted(rules, point, times, events, newer) :: e.ruleId == rules[k].id && e.createdAt == now
    decreases |rules|
  {
    hide Matches;
    var id, e := rules[k].id, Event(rules[0].id, now, point.value);
    if rules[0].id == id && Matches(rules[0], point) {
      EmittedGrows(rules[1..], point, times[1..], events, [e] + newer);
      assert e in [e] + newer;
    } else {
      assert k > 0 && rules[1..][k - 1] == rules[k];
      var fires := Matches(rules[0], point) && !Suppressed(newer + events, rules[0].id, now);
      var newer' := if fires then [e] + newer else newer;
      assert !Suppressed(newer' + events, id, now);
      SomeFires(rules[1..], point, times[1..], now, events, newer', k - 1);
    }
  }

  const ALWAYS := Rule([], true, [], None, AtLeast, 0.0)
  const SIGNAL := Point([], None, 0.0)

  /** No kept event of the rule is young: it would be too close to the dropped one. */
  lemma NotSuppressed(t: State, k: nat)
    requires LogOk(t) && |t.events| <= k < |t.log| && t.clock < t.log[k].createdAt + MINUTE
    ensures !Suppressed(t.events, t.log[k].ruleId, t.clock)
  {
    var id := t.log[k].ruleId;
    forall j | 0 <= j < |t.events| ensures t.events[j].ruleId != id {
      assert t.log[j] == t.events[j] && t.log[0].createdAt >= t.log[j].createdAt;
    }
  }

  lemma TooClose(newer: seq<Event>, log: seq<Event>, i: nat, k: nat)
    requires i < |newer| && k < |log| && newer[i].ruleId == log[k].ruleId && newer[i].createdAt < log[k].createdAt + MINUTE
    ensures !Spaced(newer + log)
  {
    var all := newer + log;
    assert all[i] == newer[i] && all[|newer| + k] == log[k];
  }

  /** Whatever else fires, a matching rule of the dropped event's id brings its event too soon. */
  lemma RepeatsTooSoon(t: State, k: nat, rules: seq<Rule>, place: nat, times: seq<nat>)
    requires LogOk(t) && |t.events| <= k < |t.log| && t.clock < t.log[k].createdAt + MINUTE
    requires |times| == |rules| && (forall i :: 0 <= i < |times| ==> times[i] == t.clock)
    requires place < |rules| && rules[place].id == t.log[k].ruleId && Matches(rules[place], SIGNAL)
    ensures !Spaced(Emitted(rules, SIGNAL, times, t.events, []) + t.log)
  {
    hide Emitted, Matches, LogOk, Suppressed, Spaced;
    NotSuppressed(t, k);
    assert [] + t.events == t.events;
    SomeFires(rules, SIGNAL, times, t.clock, t.events, [], place);
    var newer := Emitted(rules, SIGNAL, times, t.events, []);
    var e :| e in newer && e.ruleId == rules[place].id && e.createdAt == t.clock;
    var i :| 0 <= i < |newer| && newer[i] == e;
    TooClose(newer, t.log, i, k);
  }

  /** Once a young event is dropped, a rule of its id fires again within the minute. */
  lemma DroppedEventRepeats(t: State, k: nat)
    requires LogOk(t) && |t.events| <= k < |t.log| && t.clock < t.log[k].createdAt + MINUTE
    ensures var put := PutRule(ALWAYS.(id := t.log[k].ruleId));
      var u := Apply(t, put);
      var evaluation := Evaluation(SIGNAL, seq(|u.rules|, i => t.clock), 0);
      Enabled(u, evaluation) && !Spaced(Apply(u, evaluation).log)
  {
    var id := t.log[k].ruleId;
    var u := Apply(t, PutRule(ALWAYS.(id := id)));
    var times := seq(|u.rules|, i => t.clock);
    var place := Find(t.rules, id);
    assert u.rules[place] == ALWAYS.(id := id) && Matches(u.rules[place], SIGNAL);
    hide Emitted, Matches, LogOk, Spaced, Put;
    RepeatsTooSoon(t, k, u.rules, place, times);
  }

  /** A step that drops a young event can be followed by two events of one rule within a minute. */
  lemma DroppingYoungFails(s: State, step: Step) returns (put: Step, evaluation: Step)
    requires Inv(s) && Enabled(s, step) && !KeepsYoung(s, step)
    ensures var t := Apply(s, step);
      Enabled(t, put) && Enabled(Apply(t, put), evaluation) && !Spaced(Apply(Apply(t, put), evaluation).log)
  {
    KeepsCoverExactlyWhen(s, step);
    var t := Apply(s, step);
    var k := FirstDropped(s, step);
    DroppedEventRepeats(t, k);
    put := PutRule(ALWAYS.(id := t.log[k].ruleId));
    evaluation := Evaluation(SIGNAL, seq(|Apply(t, put).rules|, i => t.clock), 0);
  }

  lemma FirstDropped(s: State, step: Step) returns (k: nat)
    requires Inv(s) && Enabled(s, step) && !KeepsYoung(s, step)
    ensures var t := Apply(s, step); |t.events| <= k < |t.log| && t.clock < t.log[k].createdAt + MINUTE
  {
    KeepsCoverExactlyWhen(s, step);
    var t := Apply(s, step);
    hide NewestFirst, Spaced, Emitted, YoungCount, Since, KeepsYoung;
    assert step.Evaluation? || step.Pruning? by { OnlyThese(s, step); }
    StillKnown(s, step);
    assert !Covers(t.events, t.log, t.clock);
    k :| |t.events| <= k < |t.log| && t.clock < t.log[k].createdAt + MINUTE;
  }

  lemma OnlyThese(s: State, step: Step)
    requires Enabled(s, step) && !KeepsYoung(s, step)
    ensures step.Evaluation? || step.Pruning?
  {
    hide YoungCount, Emitted;
  }

  lemma StillKnown(s: State, step: Step)
    requires Inv(s) && Enabled(s, step)
    ensures Known(Apply(s, step).log, Apply(s, step).ids) && RulesKnown(Apply(s, step).rules, Apply(s, step).ids)
  {
    if step.Evaluation? {
      assert [] + s.events == s.events && [] + s.log == s.log;
      EmittedCovers(s.rules, step.point, step.times, s.events, [], s.log, s.clock, s.ids);
    }
    hide Covers, Emitted;
  }

  // ------------------------------------------------- one cap for all runs

  /** A run over at most n rule ids whose evaluations keep m events and whose prunings spare the last minute. */
  ghost predicate CappedRun(s: State, steps: seq<Step>, t: State, n: nat, m: nat)
    decreases |steps|
  {
    |s.ids| <= n &&
    if |steps| == 0 then s == t
    else
      && Enabled(s, steps[0]) && (steps[0].Evaluation? ==> steps[0].maxEntries == m)
      && (steps[0].Pruning? ==> steps[0].before + MINUTE <= steps[0].now + 1)
      && CappedRun(Apply(s, steps[0]), steps[1..], t, n, m)
  }

  lemma {:induction false} CappedIsRoomy(s: State, steps: seq<Step>, t: State, n: nat, m: nat)
    requires CappedRun(s, steps, t, n, m) && n <= m
    ensures RoomyRun(s, steps, t)
    decreases |steps|
  {
    hide Apply, Enabled;
    if |steps| > 0 { CappedIsRoomy(Apply(s, steps[0]), steps[1..], t, n, m); }
  }

  lemma {:induction false} CappedJoin(s: State, a: seq<Step>, t: State, step: Step, n: nat, m: nat)
    requires CappedRun(s, a, t, n, m) && Enabled(t, step) && !step.Pruning?
    requires step.Evaluation? ==> step.maxEntries == m
    requires |Apply(t, step).ids| <= n
    ensures CappedRun(s, a + [step], Apply(t, step), n, m)
    decreases |a|
  {
    hide Apply, Enabled;
    if |a| == 0 {
      assert a + [step] == [step] && [step][1..] == [];
      assert CappedRun(Apply(t, step), [], Apply(t, step), n, m);
    } else {
      assert (a + [step])[1..] == a[1..] + [step];
      CappedJoin(Apply(s, a[0]), a[1..], t, step, n, m);
    }
  }

  function Name(i: nat): Id { seq(i, _ => 0) }

  /** n rules that fire whenever they may. */
  function Alarms(n: nat): seq<Rule> { seq(n, i requires 0 <= i < n => ALWAYS.(id := Name(i))) }

  function Names(n: nat): set<Id> { if n == 0 then {} else Names(n - 1) + {Name(n - 1)} }

  lemma {:induction false} NamesSize(n: nat)
    ensures |Names(n)| == n && forall id <- Names(n) :: |id| < n
  {
    if n > 0 {
      NamesSize(n - 1);
      assert Name(n - 1) !in Names(n - 1);
    }
  }

  /** Installing the alarms one by one. */
  lemma {:induction false} Installed(k: nat, n: nat, m: nat) returns (steps: seq<Step>)
    requires k <= n
    ensures CappedRun(START, steps, State(Alarms(k), [], [], Names(k), 0), n, m)
  {
    NamesSize(k);
    if k == 0 {
      steps := [];
      assert Alarms(0) == [];
    } else {
      var before := Installed(k - 1, n, m);
      var s, step := State(Alarms(k - 1), [], [], Names(k - 1), 0), PutRule(ALWAYS.(id := Name(k - 1)));
      assert Find(Alarms(k - 1), Name(k - 1)) == k - 1 by {
        var alarms := Alarms(k - 1);
        forall i | 0 <= i < k - 1 ensures alarms[i].id != Name(k - 1) { assert |alarms[i].id| == i; }
      }
      assert Alarms(k - 1) + [ALWAYS.(id := Name(k - 1))] == Alarms(k);
      CappedJoin(START, before, s, step, n, m);
      steps := before + [step];
    }
  }

  /** Alarms that have no event yet all fire, and nothing else does. */
  lemma {:induction false} AllFire(rules: seq<Rule>, times: seq<nat>, newer: seq<Event>)
    requires |times| == |rules| && (forall i :: 0 <= i < |times| ==> times[i] == 0)
    requires forall i :: 0 <= i < |rules| ==> Matches(rules[i], SIGNAL) && |rules[i].id| == |newer| + i
    requires forall e <- newer :: |e.ruleId| < |newer|
    ensures |Emitted(rules, SIGNAL, times, [], newer)| == |newer| + |rules|
    ensures forall e <- Emitted(rules, SIGNAL, times, [], newer) :: e in newer || e.createdAt == 0
    decreases |rules|
  {
    if |rules| > 0 {
      hide Matches;
      var e := Event(rules[0].id, 0, 0.0);
      assert newer + [] == newer;
      assert forall i :: 0 <= i < |rules[1..]| ==> rules[1..][i] == rules[i + 1];
      AllFire(rules[1..], times[1..], [e] + newer);
    }
  }

  lemma {:induction false} AllYoung(log: seq<Event>)
    requires forall e <- log :: e.createdAt == 0
    ensures YoungCount(log, 0) == |log|
  {
    if |log| > 0 {
      assert log[0] in log && forall e :: e in log[1..] ==> e in log;
      AllYoung(log[1..]);
    }
  }

  lemma AlarmsFire(n: nat)
    requires n > 0
    ensures var s := State(Alarms(n), [], [], Names(n), 0);
      var times := seq(n, i => 0);
      && Inv(s) && Enabled(s, Evaluation(SIGNAL, times, 0)) && Last(0, times) == 0
      && YoungCount(Emitted(s.rules, SIGNAL, times, [], []) + [], 0) == n
  {
    var times := seq(n, i => 0);
    AllFire(Alarms(n), times, []);
    var newer := Emitted(Alarms(n), SIGNAL, times, [], []);
    assert newer + [] == newer;
    AllYoung(newer);
    forall i | 0 <= i < n ensures Alarms(n)[i].id in Names(n) { NameIn(i, n); }
  }

  lemma {:induction false} NameIn(i: nat, n: nat)
    requires i < n
    ensures Name(i) in Names(n)
  {
    if i < n - 1 { NameIn(i, n - 1); }
  }

  /** With fewer entries than rules there is a run from the start with two events of one rule within a minute. */
  lemma TooFewEntries(n: nat, m: nat) returns (steps: seq<Step>, t: State)
    requires m < n
    ensures CappedRun(START, steps, t, n, m) && !Spaced(t.log)
  {
    var s := State(Alarms(n), [], [], Names(n), 0);
    var first := Evaluation(SIGNAL, seq(n, i => 0), m);
    NamesSize(n);
    AlarmsFire(n);
    hide Emitted, YoungCount, CappedRun, Covers, Spaced, Alarms, Names, Name;
    steps := Installed(n, n, m);
    CappedJoin(START, steps, s, first, n, m);
    var u := Apply(s, first);
    var k := FirstDropped(s, first);
    steps := steps + [first];
    KeepsCoverExactlyWhen(s, first);
    StillKnown(s, first);
    var again := Evaluation(SIGNAL, seq(n, i => 0), m);
    RepeatsOnItsOwn(n, u, k, m);
    CappedJoin(START, steps, u, again, n, m);
    steps, t := steps + [again], Apply(u, again);
  }

  /** The alarm whose event was dropped fires in the next evaluation. */
  lemma RepeatsOnItsOwn(n: nat, t: State, k: nat, m: nat)
    requires LogOk(t) && |t.events| <= k < |t.log| && t.clock == 0
    requires t.rules == Alarms(n) && t.ids == Names(n) && Known(t.log, t.ids)
    ensures var evaluation := Evaluation(SIGNAL, seq(n, i => 0), m);
      Enabled(t, evaluation) && !Spaced(Apply(t, evaluation).log) && Apply(t, evaluation).ids == t.ids
  {
    var times := seq(n, i => 0);
    var place := PlaceOf(t.log[k].ruleId, n);
    assert |Alarms(n)| == n;
    hide Emitted, Matches, LogOk, Spaced, Alarms;
    RepeatsTooSoon(t, k, t.rules, place, times);
  }

  lemma {:induction false} PlaceOf(id: Id, n: nat) returns (i: nat)
    requires id in Names(n)
    ensures i < n && Alarms(n)[i].id == id && Matches(Alarms(n)[i], SIGNAL)
  {
    if id == Name(n - 1) { i := n - 1; } else { i := PlaceOf(id, n - 1); }
  }

  /** All runs over at most n rules that keep m events space the events of each rule exactly when n <= m. */
  lemma SpacedExactlyWhenRoomForEach(n: nat, m: nat)
    ensures (forall steps: seq<Step>, t: State :: CappedRun(START, steps, t, n, m) ==> Spaced(t.log)) <==> n <= m
  {
    if n <= m {
      forall steps: seq<Step>, t: State | CappedRun(START, steps, t, n, m) ensures Spaced(t.log) {
        CappedIsRoomy(START, steps, t, n, m);
        RunKeepsInv(START, steps, t);
      }
    } else {
      var steps, t := TooFewEntries(n, m);
    }
  }

  lemma AlarmKept() returns (steps: seq<Step>, s: State)
    ensures CappedRun(START, steps, s, 1, 1) && Inv(s) && s.rules == Alarms(1) && s.ids == Names(1)
    ensures s.clock == 0 && |s.log| == 1 && s.log[0].createdAt == 0
  {
    AlarmsFire(1);
    NamesSize(1);
    var before := State(Alarms(1), [], [], Names(1), 0);
    var evaluation := Evaluation(SIGNAL, seq(1, i => 0), 1);
    AllFire(Alarms(1), seq(1, i => 0), []);
    hide Emitted, YoungCount, Covers, Alarms, Names, Name;
    steps := Installed(1, 1, 1);
    CappedJoin(START, steps, before, evaluation, 1, 1);
    steps, s := steps + [evaluation], Apply(before, evaluation);
    KeepsCoverExactlyWhen(before, evaluation);
    assert s.log[0] in s.log;
  }

  /** Pruning within the minute fails as well: an event at 0 is pruned at once and comes again. */
  lemma EarlyPruningFails() returns (steps: seq<Step>, s: State)
    ensures CappedRun(START, steps, s, 1, 1) && Enabled(s, Pruning(1, 0))
    ensures var evaluation := Evaluation(SIGNAL, seq(1, i => 0), 1);
      var t := Apply(s, Pruning(1, 0));
      Enabled(t, evaluation) && !Spaced(Apply(t, evaluation).log)
  {
    hide CappedRun, Inv, Alarms, Names, Spaced, Emitted, Known, LogOk;
    steps, s := AlarmKept();
    assert s.log[0].createdAt < 1 && !KeepsYoung(s, Pruning(1, 0));
    var k := FirstDropped(s, Pruning(1, 0));
    KeepsCoverExactlyWhen(s, Pruning(1, 0));
    StillKnown(s, Pruning(1, 0));
    RepeatsOnItsOwn(1, Apply(s, Pruning(1, 0)), k, 1);
  }
}
