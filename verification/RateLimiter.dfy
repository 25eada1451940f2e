/**
 * The login rate limiter: failures per key in a window that starts with the
 * first failure, and a lock once there are too many.
 */
module RateLimiter {
  import opened Outcome
  import opened JsText
  import opened FiniteSets

  type Key = Text

  datatype Limits = Limits(maxAttempts: nat, windowMs: nat, lockoutMs: nat)

  datatype Entry = Entry(count: nat, firstAttemptAt: nat, lockedUntil: Option<nat>)

  datatype Verdict = Allowed | Denied(retryAfterSeconds: nat)

  type Attempts = map<Key, Entry>

  function Seconds(ms: nat): nat { (ms + 999) / 1000 }

  predicate Expired(l: Limits, e: Entry, now: nat) { now > e.firstAttemptAt + l.windowMs }

  predicate LockedAt(e: Entry, now: nat) { e.lockedUntil.Some? && e.lockedUntil.value > now }

  function CheckOf(l: Limits, a: Attempts, key: Key, now: nat): (Attempts, Verdict) {
    if key !in a then (a, Allowed)
    else
      var e := a[key];
      if LockedAt(e, now) then (a, Denied(Seconds(e.lockedUntil.value - now)))
      else if Expired(l, e, now) then (a - {key}, Allowed)
      else if e.count >= l.maxAttempts then
        (a[key := e.(lockedUntil := Some(now + l.lockoutMs))], Denied(Seconds(l.lockoutMs)))
      else (a, Allowed)
  }

  function FailureOf(l: Limits, a: Attempts, key: Key, now: nat): Attempts {
    if key !in a || Expired(l, a[key], now) then a[key := Entry(1, now, None)]
    else
      var e := a[key].(count := a[key].count + 1);
      a[key := if e.count >= l.maxAttempts then e.(lockedUntil := Some(now + l.lockoutMs)) else e]
  }

  class Limiter {
    const limits: Limits
    var attempts: Attempts

    constructor (limits: Limits)
      ensures this.limits == limits && attempts == map[]
    {
      this.limits, this.attempts := limits, map[];
    }

    method Check(key: Key, now: nat) returns (v: Verdict)
      modifies this
      ensures (attempts, v) == CheckOf(limits, old(attempts), key, now)
    {
      if key !in attempts { return Allowed; }
      var entry := attempts[key];
      if entry.lockedUntil.Some? && entry.lockedUntil.value > now {
        return Denied(Seconds(entry.lockedUntil.value - now));
      }
      if now - entry.firstAttemptAt > limits.windowMs {
        attempts := attempts - {key};
        return Allowed;
      }
      if entry.count >= limits.maxAttempts {
        attempts := attempts[key := entry.(lockedUntil := Some(now + limits.lockoutMs))];
        return Denied(Seconds(limits.lockoutMs));
      }
      return Allowed;
    }

    method RecordFailure(key: Key, now: nat)
      modifies this
      ensures attempts == FailureOf(limits, old(attempts), key, now)
    {
      if key !in attempts || now - attempts[key].firstAttemptAt > limits.windowMs {
        attempts := attempts[key := Entry(1, now, None)];
      } else {
        var entry := attempts[key];
        entry := entry.(count := entry.count + 1);
        if entry.count >= limits.maxAttempts {
          entry := entry.(lockedUntil := Some(now + limits.lockoutMs));
        }
        attempts := attempts[key := entry];
      }
    }

    method Reset(key: Key)
      modifies this
      ensures attempts == old(attempts) - {key}
    {
      attempts := attempts - {key};
    }
  }

  // ----------------------------------------------------------------- runs

  datatype Event = Check(key: Key, now: nat) | Failure(key: Key, now: nat) | Reset(key: Key, now: nat)

  /** `permits` are the keys whose last event is an allowed check. */
  datatype State = State(attempts: Attempts, clock: nat, permits: set<Key>)

  const START := State(map[], 0, {})

  /** The clock never runs backwards, and a failure is recorded only after an allowed check of its key. */
  predicate Enabled(s: State, e: Event) { s.clock <= e.now && (e.Failure? ==> e.key in s.permits) }

  function Apply(l: Limits, s: State, e: Event): State {
    match e
    case Check(key, now) =>
      var (attempts, verdict) := CheckOf(l, s.attempts, key, now);
      State(attempts, now, if verdict == Allowed then s.permits + {key} else s.permits - {key})
    case Failure(key, now) => State(FailureOf(l, s.attempts, key, now), now, s.permits - {key})
    case Reset(key, now) => State(s.attempts - {key}, now, s.permits - {key})
  }

  ghost predicate Run(l: Limits, s: State, events: seq<Event>, t: State)
    decreases |events|
  {
    if |events| == 0 then s == t else Enabled(s, events[0]) && Run(l, Apply(l, s, events[0]), events[1..], t)
  }

  predicate NeverReset(events: seq<Event>, key: Key) { forall e <- events :: !(e.Reset? && e.key == key) }

  function FailureTimes(events: seq<Event>, key: Key): seq<nat> {
    if |events| == 0 then []
    else (if events[0].Failure? && events[0].key == key then [events[0].now] else []) + FailureTimes(events[1..], key)
  }

  // --------------------------------------------------- at most 2 max - 1

  /** A recorded failure with the counter and the start of the window just after it. */
  datatype Mark = Mark(time: nat, count: nat, first: nat)

  function Cap(l: Limits): nat { if l.maxAttempts == 0 then 1 else l.maxAttempts }

  /**
   * A failure either opens a new window, more than windowMs after the previous
   * one opened and past the lockout that may have ended it, or counts up in it.
   */
  predicate Follows(l: Limits, before: Mark, m: Mark) {
    && before.time <= m.time
    && (m.count == 1 && 2 <= l.maxAttempts <= before.count ==> m.time >= before.time + l.lockoutMs)
    && if m.count == 1 then m.first == m.time > before.first + l.windowMs
       else m.count == before.count + 1 && m.first == before.first
  }

  predicate MarksOk(l: Limits, marks: seq<Mark>) {
    && (forall i :: 0 <= i < |marks| ==> 
          1 <= marks[i].count <= Cap(l) && marks[i].first <= marks[i].time <= marks[i].first + l.windowMs)
    && (|marks| > 0 ==> marks[0].count == 1 && marks[0].first == marks[0].time)
    && (forall i :: 1 <= i < |marks| ==> Follows(l, marks[i - 1], marks[i]))
  }

  predicate Tracks(l: Limits, s: State, key: Key, marks: seq<Mark>) {
    && MarksOk(l, marks)
    && (|marks| > 0 ==> marks[|marks| - 1].time <= s.clock)
    && (key in s.attempts ==>
        |marks| > 0 && s.attempts[key].count == marks[|marks| - 1].count && s.attempts[key].firstAttemptAt == marks[|marks| - 1].first)
    && (key !in s.attempts && |marks| > 0 ==> s.clock > marks[|marks| - 1].first + l.windowMs)
    && (key in s.permits && key in s.attempts ==> s.attempts[key].count < l.maxAttempts)
    && (|marks| > 0 && 2 <= l.maxAttempts <= marks[|marks| - 1].count ==>
        var until := marks[|marks| - 1].time + l.lockoutMs;
        if key in s.attempts then s.attempts[key].lockedUntil.Some? && s.attempts[key].lockedUntil.value >= until
        else s.clock >= until)
  }

  function NextMarks(l: Limits, s: State, e: Event, key: Key, marks: seq<Mark>): seq<Mark> {
    if e.Failure? && e.key == key then
      var entry := FailureOf(l, s.attempts, key, e.now)[key];
      marks + [Mark(e.now, entry.count, entry.firstAttemptAt)]
    else marks
  }

  lemma EventKeepsTrack(l: Limits, s: State, e: Event, key: Key, marks: seq<Mark>)
    requires Tracks(l, s, key, marks) && Enabled(s, e) && !(e.Reset? && e.key == key)
    ensures Tracks(l, Apply(l, s, e), key, NextMarks(l, s, e, key, marks))
  {
    var next := NextMarks(l, s, e, key, marks);
    if e.Failure? && e.key == key {
      forall i | 1 <= i < |next| ensures Follows(l, next[i - 1], next[i]) {
        if i < |marks| { assert Follows(l, marks[i - 1], marks[i]); }
      }
    }
  }

  function AllMarks(l: Limits, s: State, events: seq<Event>, key: Key, marks: seq<Mark>): seq<Mark>
    decreases |events|
  {
    if |events| == 0 then marks
    else AllMarks(l, Apply(l, s, events[0]), events[1..], key, NextMarks(l, s, events[0], key, marks))
  }

  lemma {:induction false} RunKeepsTrack(l: Limits, s: State, events: seq<Event>, t: State, key: Key, marks: seq<Mark>)
    requires Run(l, s, events, t) && NeverReset(events, key) && Tracks(l, s, key, marks)
    ensures Tracks(l, t, key, AllMarks(l, s, events, key, marks))
    decreases |events|
  {
    hide Tracks, Apply, NextMarks;
    if |events| > 0 {
      EventKeepsTrack(l, s, events[0], key, marks);
      RunKeepsTrack(l, Apply(l, s, events[0]), events[1..], t, key, NextMarks(l, s, events[0], key, marks));
    }
  }

  lemma {:induction false} MarksTellTimes(l: Limits, s: State, events: seq<Event>, key: Key, marks: seq<Mark>)
    ensures |AllMarks(l, s, events, key, marks)| == |marks| + |FailureTimes(events, key)|
    ensures forall i :: 0 <= i < |marks| ==> AllMarks(l, s, events, key, marks)[i] == marks[i]
    ensures forall i :: 0 <= i < |FailureTimes(events, key)| ==>
      AllMarks(l, s, events, key, marks)[|marks| + i].time == FailureTimes(events, key)[i]
    decreases |events|
  {
    if |events| > 0 {
      hide Apply;
      var next := NextMarks(l, s, events[0], key, marks);
      MarksTellTimes(l, Apply(l, s, events[0]), events[1..], key, next);
      var all := AllMarks(l, s, events, key, marks);
      forall i | 0 <= i < |FailureTimes(events, key)| ensures all[|marks| + i].time == FailureTimes(events, key)[i] {
        if |next| > |marks| {
          if i == 0 {
            assert all[|marks|] == next[|marks|];
          } else {
            assert all[|next| + (i - 1)].time == FailureTimes(events[1..], key)[i - 1];
          }
        }
      }
    }
  }

  lemma {:induction false} TimesAscend(l: Limits, marks: seq<Mark>, i: nat, j: nat)
    requires MarksOk(l, marks) && i <= j < |marks|
    ensures marks[i].time <= marks[j].time
    decreases j - i
  {
    if i < j {
      assert Follows(l, marks[j - 1], marks[j]);
      TimesAscend(l, marks, i, j - 1);
    }
  }

  /** From failure i on, a new window opens before the counter can pass the maximum. */
  lemma {:induction false} NextWindow(l: Limits, marks: seq<Mark>, i: nat) returns (j: nat)
    requires MarksOk(l, marks) && i < |marks| && i + Cap(l) - marks[i].count + 1 < |marks|
    ensures i < j <= i + Cap(l) - marks[i].count + 1
    ensures marks[j].count == 1 && marks[j].first == marks[j].time > marks[i].first + l.windowMs
    ensures marks[j - 1].count == marks[i].count + (j - 1 - i) && Follows(l, marks[j - 1], marks[j])
    decreases Cap(l) - marks[i].count
  {
    assert Follows(l, marks[i], marks[i + 1]);
    if marks[i + 1].count == 1 { return i + 1; }
    j := NextWindow(l, marks, i + 1);
  }

  lemma SpanOfMarks(l: Limits, marks: seq<Mark>, p: nat)
    requires MarksOk(l, marks) && p + 2 * Cap(l) - 1 < |marks|
    ensures marks[p + 2 * Cap(l) - 1].time > marks[p].time + l.windowMs
  {
    var q := NextWindow(l, marks, p);
    if marks[p].count == 1 {
      if p > 0 { assert Follows(l, marks[p - 1], marks[p]); }
      TimesAscend(l, marks, q, p + 2 * Cap(l) - 1);
    } else {
      TimesAscend(l, marks, p, q);
      var r := NextWindow(l, marks, q);
      TimesAscend(l, marks, r, p + 2 * Cap(l) - 1);
    }
  }

  lemma StartTracks(l: Limits, key: Key)
    ensures Tracks(l, START, key, [])
  {
  }

  lemma RunMarks(l: Limits, events: seq<Event>, t: State, key: Key) returns (marks: seq<Mark>)
    requires Run(l, START, events, t) && NeverReset(events, key)
    ensures MarksOk(l, marks) && |marks| == |FailureTimes(events, key)|
    ensures forall i :: 0 <= i < |marks| ==> marks[i].time == FailureTimes(events, key)[i]
  {
    StartTracks(l, key);
    marks := AllMarks(l, START, events, key, []);
    hide AllMarks, FailureTimes, Run, NeverReset;
    RunKeepsTrack(l, START, events, t, key, []);
    MarksTellTimes(l, START, events, key, []);
    forall i | 0 <= i < |marks| ensures marks[i].time == FailureTimes(events, key)[i] {
      assert marks[0 + i].time == FailureTimes(events, key)[i];
    }
  }

  /** Any 2 * maxAttempts failures of one key in a row span more than the window. */
  lemma ManyFailuresTakeLong(l: Limits, events: seq<Event>, t: State, key: Key, p: nat)
    requires Run(l, START, events, t) && NeverReset(events, key)
    requires p + 2 * Cap(l) - 1 < |FailureTimes(events, key)|
    ensures FailureTimes(events, key)[p + 2 * Cap(l) - 1] > FailureTimes(events, key)[p] + l.windowMs
  {
    var marks := RunMarks(l, events, t, key);
    SpanOfMarks(l, marks, p);
  }

  /** The failures, by position, whose time lies in a closed interval. */
  function Within(times: seq<nat>, a: nat, b: nat): set<nat> {
    set i: nat | i < |times| && a <= times[i] <= b :: i
  }

  /** Every closed interval of the window's length holds at most 2 * maxAttempts - 1 failures of a key. */
  lemma AtMostTwiceTheLimit(l: Limits, events: seq<Event>, t: State, key: Key, a: nat)
    requires Run(l, START, events, t) && NeverReset(events, key)
    ensures |Within(FailureTimes(events, key), a, a + l.windowMs)| <= 2 * Cap(l) - 1
  {
    hide Run, FailureTimes, NeverReset;
    var times := FailureTimes(events, key);
    var inside := Within(times, a, a + l.windowMs);
    if inside != {} {
      var p := Least(inside);
      var n := 2 * Cap(l) - 1;
      var marks := RunMarks(l, events, t, key);
      forall i | i in inside ensures i < p + n {
        if i >= p + n {
          ManyFailuresTakeLong(l, events, t, key, p);
          TimesAscend(l, marks, p + n, i);
        }
      }
      RangeFacts(p, n);
      SubsetSize(inside, Range(p, n));
    }
  }

  lemma PrependEvent(l: Limits, s: State, e: Event, events: seq<Event>, t: State, key: Key)
    requires Enabled(s, e) && e.key == key && !e.Reset? && Run(l, Apply(l, s, e), events, t) && NeverReset(events, key)
    ensures Run(l, s, [e] + events, t) && NeverReset([e] + events, key)
    ensures FailureTimes([e] + events, key) == (if e.Failure? then [e.now] else []) + FailureTimes(events, key)
  {
    assert ([e] + events)[1..] == events;
  }

  /** When the lockout outlasts the window, one failure less already spans more than the window. */
  lemma SpanUnderLongLockout(l: Limits, marks: seq<Mark>, p: nat)
    requires MarksOk(l, marks) && l.maxAttempts >= 2 && l.lockoutMs > l.windowMs && p + 2 * l.maxAttempts - 2 < |marks|
    ensures marks[p + 2 * l.maxAttempts - 2].time > marks[p].time + l.windowMs
  {
    var end := p + 2 * l.maxAttempts - 2;
    var q := NextWindow(l, marks, p);
    TimesAscend(l, marks, p, q - 1);
    TimesAscend(l, marks, q, end);
    if marks[p].count == 1 {
      if p > 0 { assert Follows(l, marks[p - 1], marks[p]); }
    } else if marks[q - 1].count < l.maxAttempts {
      var r := NextWindow(l, marks, q);
      TimesAscend(l, marks, p, q);
      TimesAscend(l, marks, r, end);
    }
  }

  /** In a window without length all failures fall on one moment. */
  lemma SpanWithoutWindow(l: Limits, marks: seq<Mark>, p: nat)
    requires MarksOk(l, marks) && l.maxAttempts >= 2 && l.windowMs == 0 && p + 2 * l.maxAttempts - 2 < |marks|
    ensures marks[p + 2 * l.maxAttempts - 2].time > marks[p].time
  {
    var q := NextWindow(l, marks, p);
    TimesAscend(l, marks, q, p + 2 * l.maxAttempts - 2);
  }

  /** So then an interval of the window's length holds at most 2 * maxAttempts - 2 failures. */
  lemma FewerWhenLockedLonger(l: Limits, events: seq<Event>, t: State, key: Key, a: nat)
    requires Run(l, START, events, t) && NeverReset(events, key)
    requires l.maxAttempts >= 2 && (l.lockoutMs > l.windowMs || l.windowMs == 0)
    ensures |Within(FailureTimes(events, key), a, a + l.windowMs)| <= 2 * l.maxAttempts - 2
  {
    hide Run, FailureTimes, NeverReset;
    var times := FailureTimes(events, key);
    var inside := Within(times, a, a + l.windowMs);
    if inside != {} {
      var p := Least(inside);
      var n := 2 * l.maxAttempts - 2;
      var marks := RunMarks(l, events, t, key);
      forall i | i in inside ensures i < p + n {
        if i >= p + n {
          if l.lockoutMs > l.windowMs { SpanUnderLongLockout(l, marks, p); } else { SpanWithoutWindow(l, marks, p); }
          TimesAscend(l, marks, p + n, i);
        }
      }
      RangeFacts(p, n);
      SubsetSize(inside, Range(p, n));
    }
  }

  // ----------------------------------------------------- reaching the bound

  const ME: Key := []

  function Repeat(now: nat, n: nat): seq<nat> { seq(n, _ => now) }

  /** The key has c failures in a window opened at f, the last of them at now. */
  function Counted(l: Limits, c: nat, f: nat, now: nat): State {
    State(map[ME := Entry(c, f, if c >= 2 && c >= l.maxAttempts then Some(now + l.lockoutMs) else None)], now, {})
  }

  lemma OneMoreFailure(l: Limits, c: nat, f: nat, before: nat, now: nat)
    requires 1 <= c < l.maxAttempts && before <= now && f <= now <= f + l.windowMs
    ensures var s := Counted(l, c, f, before);
      && CheckOf(l, s.attempts, ME, now).1 == Allowed
      && Apply(l, Apply(l, s, Check(ME, now)), Failure(ME, now)) == Counted(l, c + 1, f, now)
  {
    var s := Counted(l, c, f, before);
    assert CheckOf(l, s.attempts, ME, now).0 == s.attempts;
    assert ({} + {ME}) - {ME} == {};
    assert FailureOf(l, s.attempts, ME, now) == Counted(l, c + 1, f, now).attempts;
  }

  lemma WindowOpens(l: Limits, s: State, now: nat)
    requires s.permits == {} && (s.attempts == map[] || (s.attempts.Keys == {ME} && Expired(l, s.attempts[ME], now)))
    requires ME in s.attempts ==> !LockedAt(s.attempts[ME], now)
    ensures CheckOf(l, s.attempts, ME, now).1 == Allowed
    ensures Apply(l, Apply(l, s, Check(ME, now)), Failure(ME, now)) == Counted(l, 1, now, now)
  {
    assert ({} + {ME}) - {ME} == {};
    var a := CheckOf(l, s.attempts, ME, now).0;
    assert a == map[];
    assert FailureOf(l, a, ME, now) == map[ME := Entry(1, now, None)];
  }

  /** Failures up to a count of c + n at one moment, and what follows. */
  lemma {:induction false} Burst(l: Limits, c: nat, n: nat, f: nat, before: nat, now: nat, rest: seq<Event>, t: State)
    returns (r: seq<Event>)
    requires 1 <= c && 1 <= n && c + n <= l.maxAttempts && before <= now && f <= now <= f + l.windowMs
    requires Run(l, Counted(l, c + n, f, now), rest, t) && NeverReset(rest, ME)
    ensures Run(l, Counted(l, c, f, before), r, t) && NeverReset(r, ME)
    ensures FailureTimes(r, ME) == Repeat(now, n) + FailureTimes(rest, ME)
    decreases n
  {
    hide CheckOf, FailureOf, Apply, Run, NeverReset, FailureTimes;
    OneMoreFailure(l, c, f, before, now);
    var tail := rest;
    if n > 1 { tail := Burst(l, c + 1, n - 1, f, now, now, rest, t); }
    r := CheckThenFailure(l, Counted(l, c, f, before), now, tail, t, ME);
    assert [now] + (Repeat(now, n - 1) + FailureTimes(rest, ME)) == Repeat(now, n) + FailureTimes(rest, ME);
    assert n == 1 ==> Repeat(now, n) == [now];
  }

  /** A window filled at its end, and the next one filled as soon as it can open. */
  lemma TwoFullWindows(l: Limits) returns (events: seq<Event>, t: State)
    requires l.maxAttempts >= 2 && 1 <= l.windowMs && l.lockoutMs <= l.windowMs
    ensures Run(l, START, events, t) && NeverReset(events, ME)
    ensures var w := l.windowMs;
      var next := w + if l.lockoutMs == 0 then 1 else l.lockoutMs;
      FailureTimes(events, ME) == [0] + (Repeat(w, l.maxAttempts - 1) + ([next] + Repeat(next, l.maxAttempts - 1)))
  {
    var m, w := l.maxAttempts, l.windowMs;
    var next := w + if l.lockoutMs == 0 then 1 else l.lockoutMs;
    WindowOpens(l, START, 0);
    WindowOpens(l, Counted(l, m, 0, w), next);
    t := Counted(l, m, next, next);
    Nothing(l, t);
    hide CheckOf, FailureOf, Apply, Run, NeverReset, FailureTimes, Counted;
    var r3 := Burst(l, 1, m - 1, next, next, next, [], t);
    assert Repeat(next, m - 1) + [] == Repeat(next, m - 1);
    ClockOf(l, m, 0, w);
    var r2 := CheckThenFailure(l, Counted(l, m, 0, w), next, r3, t, ME);
    var r1 := Burst(l, 1, m - 1, 0, 0, w, r2, t);
    events := CheckThenFailure(l, START, 0, r1, t, ME);
  }

  lemma ClockOf(l: Limits, c: nat, f: nat, now: nat)
    ensures Counted(l, c, f, now).clock == now
  {
  }

  lemma Nothing(l: Limits, t: State)
    ensures Run(l, t, [], t) && NeverReset([], ME) && FailureTimes([], ME) == []
  {
  }

  lemma OneFailure(l: Limits) returns (events: seq<Event>, t: State)
    ensures Run(l, START, events, t) && NeverReset(events, ME) && FailureTimes(events, ME) == [0]
  {
    WindowOpens(l, START, 0);
    t := Counted(l, 1, 0, 0);
    Nothing(l, t);
    hide CheckOf, FailureOf, Apply, Run, NeverReset, FailureTimes, Counted;
    events := CheckThenFailure(l, START, 0, [], t, ME);
    assert [0] + [] == [0 as nat];
  }

  /** The run puts 2 * maxAttempts - 1 failures into the interval of the window's length from a on. */
  ghost predicate Reaches(l: Limits, events: seq<Event>, t: State, a: nat) {
    Run(l, START, events, t) && NeverReset(events, ME) && |Within(FailureTimes(events, ME), a, a + l.windowMs)| == 2 * Cap(l) - 1
  }

  ghost predicate BoundReached(l: Limits) { exists events: seq<Event>, t: State, a: nat :: Reaches(l, events, t, a) }

  lemma TwoWindowsReach(l: Limits)
    requires l.maxAttempts >= 2 && 1 <= l.windowMs && l.lockoutMs <= l.windowMs
    ensures BoundReached(l)
  {
    hide Run, NeverReset, FailureTimes;
    var events, t := TwoFullWindows(l);
    var times, w, n := FailureTimes(events, ME), l.windowMs, 2 * l.maxAttempts - 1;
    RangeFacts(1, n);
    forall i | i in Range(1, n) ensures i in Within(times, w, w + w) {
      assert i < |times| && w <= times[i] <= w + w;
    }
    SubsetSize(Range(1, n), Within(times, w, w + w));
    AtMostTwiceTheLimit(l, events, t, ME, w);
    assert Reaches(l, events, t, w);
  }

  lemma OneReaches(l: Limits)
    requires l.maxAttempts <= 1
    ensures BoundReached(l)
  {
    hide Run, NeverReset, FailureTimes;
    var events, t := OneFailure(l);
    var times := FailureTimes(events, ME);
    assert times[0] == 0;
    assert Within(times, 0, 0 + l.windowMs) == {0};
    assert Reaches(l, events, t, 0);
  }

  /** The bound is reached exactly when one attempt is the limit, or a window has length and outlasts the lockout. */
  lemma BoundIsReachedExactlyWhen(l: Limits)
    ensures BoundReached(l) <==> l.maxAttempts <= 1 || (1 <= l.windowMs && l.lockoutMs <= l.windowMs)
  {
    hide Run, NeverReset, FailureTimes, Within;
    if l.maxAttempts <= 1 {
      OneReaches(l);
    } else if 1 <= l.windowMs && l.lockoutMs <= l.windowMs {
      TwoWindowsReach(l);
    } else {
      forall events: seq<Event>, t: State, a: nat ensures !Reaches(l, events, t, a) {
        if Run(l, START, events, t) && NeverReset(events, ME) { FewerWhenLockedLonger(l, events, t, ME, a); }
      }
    }
  }

  lemma CheckThenFailure(l: Limits, s: State, now: nat, rest: seq<Event>, t: State, key: Key) returns (r: seq<Event>)
    requires s.clock <= now && CheckOf(l, s.attempts, key, now).1 == Allowed && NeverReset(rest, key)
    requires Run(l, Apply(l, Apply(l, s, Check(key, now)), Failure(key, now)), rest, t)
    ensures Run(l, s, r, t) && NeverReset(r, key) && FailureTimes(r, key) == [now] + FailureTimes(rest, key)
  {
    var checked := Apply(l, s, Check(key, now));
    assert key in checked.permits && checked.clock == now;
    hide CheckOf, FailureOf, Apply, Run, FailureTimes;
    PrependEvent(l, checked, Failure(key, now), rest, t, key);
    var tail := [Failure(key, now)] + rest;
    PrependEvent(l, s, Check(key, now), tail, t, key);
    r := [Check(key, now)] + tail;
    assert [] + FailureTimes(tail, key) == FailureTimes(tail, key);
  }

  // ------------------------------------------------------------- lockout

  /** The key is locked at least until `until`, unless that time has come. */
  predicate Barred(s: State, key: Key, until: nat) {
    s.clock >= until ||
    (key in s.attempts && s.attempts[key].lockedUntil.Some? && s.attempts[key].lockedUntil.value >= until && key !in s.permits)
  }

  lemma {:induction false} BarredStays(l: Limits, s: State, events: seq<Event>, t: State, key: Key, until: nat)
    requires Run(l, s, events, t) && NeverReset(events, key) && Barred(s, key, until)
    ensures Barred(t, key, until) && s.clock <= t.clock
    decreases |events|
  {
    if |events| > 0 { BarredStays(l, Apply(l, s, events[0]), events[1..], t, key, until); }
  }

  /** After the failure that reaches the limit nothing is allowed for that key until the lockout is over. */
  lemma LockoutHolds(l: Limits, before: State, key: Key, at: nat, events: seq<Event>, s: State, now: nat)
    requires Enabled(before, Failure(key, at)) && Run(l, Apply(l, before, Failure(key, at)), events, s)
    requires NeverReset(events, key) && s.clock <= now < at + l.lockoutMs
    requires key in before.attempts && !Expired(l, before.attempts[key], at)
    requires before.attempts[key].count + 1 >= l.maxAttempts
    ensures CheckOf(l, s.attempts, key, now).1.Denied?
  {
    BarredStays(l, Apply(l, before, Failure(key, at)), events, s, key, at + l.lockoutMs);
  }

  /** A denial names a waiting time that is honest: up to less than a second before it ends, everything is denied. */
  lemma RetryAfterIsHonest(l: Limits, before: State, key: Key, at: nat, events: seq<Event>, s: State, now: nat)
    requires Enabled(before, Check(key, at)) && CheckOf(l, before.attempts, key, at).1.Denied?
    requires Run(l, Apply(l, before, Check(key, at)), events, s) && NeverReset(events, key) && s.clock <= now
    requires now + 1000 <= at + 1000 * CheckOf(l, before.attempts, key, at).1.retryAfterSeconds
    ensures CheckOf(l, s.attempts, key, now).1.Denied?
  {
    var first := Apply(l, before, Check(key, at));
    BarredStays(l, first, events, s, key, first.attempts[key].lockedUntil.value);
  }

  /** A waiting time in seconds covers the milliseconds and exceeds them by less than a second. */
  lemma SecondsRoundUp(ms: nat)
    ensures 1000 * Seconds(ms) - 1000 < ms <= 1000 * Seconds(ms)
  {
  }

  predicate OthersOnly(events: seq<Event>, key: Key) { forall e <- events :: e.key != key }

  lemma {:induction false} OthersLeaveKey(l: Limits, s: State, events: seq<Event>, t: State, key: Key)
    requires Run(l, s, events, t) && OthersOnly(events, key)
    ensures (key in t.attempts <==> key in s.attempts) && (key in s.attempts ==> t.attempts[key] == s.attempts[key])
    decreases |events|
  {
    if |events| > 0 {
      assert events[0] in events && forall e :: e in events[1..] ==> e in events;
      OthersLeaveKey(l, Apply(l, s, events[0]), events[1..], t, key);
    }
  }

  predicate LocksAreFull(l: Limits, a: Attempts) { forall k :: k in a && a[k].lockedUntil.Some? ==> a[k].count >= l.maxAttempts }

  /** Only a key that has used up its attempts is ever locked. */
  lemma {:induction false} RunKeepsLocksFull(l: Limits, s: State, events: seq<Event>, t: State)
    requires Run(l, s, events, t) && LocksAreFull(l, s.attempts)
    ensures LocksAreFull(l, t.attempts)
    decreases |events|
  {
    if |events| > 0 { RunKeepsLocksFull(l, Apply(l, s, events[0]), events[1..], t); }
  }

  /**
   * Once the announced time is over, that lock refuses nothing any more: the next
   * check of the key is allowed exactly when the window of its failures is over
   * too, and otherwise starts a lockout of full length.
   */
  lemma RetryAfterIsEnough(l: Limits, earlier: seq<Event>, before: State, key: Key, at: nat, events: seq<Event>, s: State, now: nat)
    requires Run(l, START, earlier, before)
    requires Enabled(before, Check(key, at)) && CheckOf(l, before.attempts, key, at).1.Denied?
    requires Run(l, Apply(l, before, Check(key, at)), events, s) && OthersOnly(events, key)
    requires now >= at + 1000 * CheckOf(l, before.attempts, key, at).1.retryAfterSeconds
    ensures key in before.attempts && key in s.attempts
    ensures var v := CheckOf(l, s.attempts, key, now).1;
      if now > before.attempts[key].firstAttemptAt + l.windowMs then v == Allowed
      else v.Denied? && 1000 * v.retryAfterSeconds - 1000 < l.lockoutMs <= 1000 * v.retryAfterSeconds
           && CheckOf(l, s.attempts, key, now).0[key].lockedUntil == Some(now + l.lockoutMs)
  {
    RunKeepsLocksFull(l, START, earlier, before);
    var first := Apply(l, before, Check(key, at));
    OthersLeaveKey(l, first, events, s, key);
    SecondsRoundUp(first.attempts[key].lockedUntil.value - at);
    SecondsRoundUp(l.lockoutMs);
  }
}
