/**
 * What the job queue guarantees about executions: the exact steps that end the
 * exclusiveness of claims, what every run without such a step keeps (crashes and
 * the recovery of orphaned rows included), and two runs with such a step in
 * which a job has two executors and a completed job is queued again.
 */
module JobQueueSafety {
  import opened Outcome
  import opened JobQueue

  /**
   * The steps that take a row away from a call that still holds its ticket: an
   * unacknowledged completion of a row that still exists, and a start while a
   * claimed or executing row that still exists is in some live call's hands.
   */
  ghost predicate Breaks(s: State, step: Step)
    requires Enabled(s, step)
  {
    || (step.CompleteUnacked? && s.calls[step.call].phase.ticket.job in s.jobs)
    || (step.Start? && exists c :: Holds(s, c) && TicketOf(s, c).job in s.jobs)
  }

  /** A run without such a step; its starts may recover rows of crashed workers. */
  ghost predicate UnbrokenRun(states: seq<State>, steps: seq<Step>) {
    Run(states, steps) && forall i :: 0 <= i < |steps| ==> !Breaks(states[i], steps[i])
  }

  /** Attempts exceed the limit by at most one for each start that recovered the row. */
  predicate RowOk(s: State, j: JobId)
    requires j in s.jobs
  {
    var row := s.jobs[j];
    && j in s.log && 1 <= row.maxAttempts && row.attempts <= row.maxAttempts + s.log[j].recoveries
    && (row.status == Queued ==> row.attempts < row.maxAttempts + s.log[j].recoveries)
  }

  /** A ticket is the current claim of its row. */
  predicate Current(s: State, t: Ticket) {
    && t.job in s.log
    && (t.job in s.jobs ==>
          var row := s.jobs[t.job];
          row.status == Processing && t.attempt == row.attempts && t.maxAttempts == row.maxAttempts)
  }

  /** Every held ticket is the current claim of its row, and no job is in two calls' hands. */
  ghost predicate Excl(s: State) {
    && (forall c :: Holds(s, c) ==> Current(s, TicketOf(s, c)))
    && (forall c, d :: c != d && Holds(s, c) && Holds(s, d) ==> TicketOf(s, c).job != TicketOf(s, d).job)
  }

  ghost predicate SafeInv(s: State) {
    Excl(s) && forall j :: j in s.jobs ==> RowOk(s, j)
  }

  // ------------------------------------------------- exclusiveness, exactly

  /** Tickets survive unchanged, and so do their rows, which stay on record. */
  ghost predicate Settles(s: State, s': State) {
    && s.log.Keys <= s'.log.Keys
    && (forall d :: Holds(s', d) ==> Holds(s, d) && TicketOf(s', d) == TicketOf(s, d))
    && (forall d :: Holds(s', d) && TicketOf(s', d).job in s'.jobs ==>
          TicketOf(s', d).job in s.jobs && s'.jobs[TicketOf(s', d).job] == s.jobs[TicketOf(s', d).job])
  }

  lemma SettlesKeepsExcl(s: State, s': State)
    requires Excl(s) && Settles(s, s')
    ensures Excl(s')
  {
    forall d | Holds(s', d) ensures Current(s', TicketOf(s', d)) { assert Current(s, TicketOf(s, d)); }
  }

  lemma OtherStepsSettle(s: State, step: Step)
    requires Excl(s) && Enabled(s, step) && !Breaks(s, step) && !step.Claim?
    ensures Settles(s, Apply(s, step))
  {
    var s' := Apply(s, step);
    forall d | Holds(s', d)
      ensures Holds(s, d) && TicketOf(s', d) == TicketOf(s, d)
      ensures TicketOf(s', d).job in s'.jobs ==>
                TicketOf(s', d).job in s.jobs && s'.jobs[TicketOf(s', d).job] == s.jobs[TicketOf(s', d).job]
    {
      assert Holds(s, d) && Current(s, TicketOf(s, d));
      if step.Complete? || step.Fail? { assert Holds(s, step.call) && d != step.call; }
    }
  }

  lemma ClaimKeepsExcl(s: State, c: CallId, j: JobId, locked: set<JobId>)
    requires Excl(s) && Enabled(s, Claim(c, j, locked))
    ensures Excl(Apply(s, Claim(c, j, locked)))
  {
    var s' := ApplyClaim(s, c, j);
    forall d | Holds(s', d) && d != c ensures Holds(s, d) && TicketOf(s', d).job != j && Current(s', TicketOf(s', d)) {
      assert Holds(s, d) && Current(s, TicketOf(s, d));
    }
  }

  /** After such a step some call holds a ticket whose row is no longer processing. */
  lemma BreakingEndsExcl(s: State, step: Step)
    requires Excl(s) && Enabled(s, step) && Breaks(s, step)
    ensures !Excl(Apply(s, step))
  {
    var s' := Apply(s, step);
    var c := if step.CompleteUnacked? then step.call else var c :| Holds(s, c) && TicketOf(s, c).job in s.jobs; c;
    assert Holds(s, c) && Current(s, TicketOf(s, c));
    assert Holds(s', c) && !Current(s', TicketOf(s', c));
  }

  /** An exclusive state stays exclusive exactly when the step takes no held row away. */
  lemma ExclusiveExactlyUnlessBroken(s: State, step: Step)
    requires Excl(s) && Enabled(s, step)
    ensures Excl(Apply(s, step)) <==> !Breaks(s, step)
  {
    if Breaks(s, step) {
      BreakingEndsExcl(s, step);
    } else if step.Claim? {
      ClaimKeepsExcl(s, step.call, step.job, step.locked);
    } else {
      OtherStepsSettle(s, step);
      SettlesKeepsExcl(s, Apply(s, step));
    }
  }

  lemma {:induction false} ExclAlong(states: seq<State>, steps: seq<Step>, i: nat)
    requires UnbrokenRun(states, steps) && i < |states|
    ensures Excl(states[i])
  {
    if i > 0 {
      ExclAlong(states, steps, i - 1);
      ExclusiveExactlyUnlessBroken(states[i - 1], steps[i - 1]);
    }
  }

  /** A run is exclusive in all its states exactly when none of its steps takes a held row away. */
  lemma RunsAreExclusiveExactlyWhen(states: seq<State>, steps: seq<Step>)
    requires Run(states, steps)
    ensures (forall i :: 0 <= i < |states| ==> Excl(states[i])) <==> UnbrokenRun(states, steps)
  {
    if forall i :: 0 <= i < |states| ==> Excl(states[i]) {
      forall i | 0 <= i < |steps| ensures !Breaks(states[i], steps[i]) {
        assert Excl(states[i]) && Excl(states[i + 1]);
        ExclusiveExactlyUnlessBroken(states[i], steps[i]);
      }
    }
    if UnbrokenRun(states, steps) {
      forall i | 0 <= i < |states| ensures Excl(states[i]) { ExclAlong(states, steps, i); }
    }
  }

  // ---------------------------------------------- what unbroken runs keep

  lemma FailKeepsRows(s: State, c: CallId, j: JobId)
    requires SafeInv(s) && Enabled(s, Fail(c)) && j in s.jobs
    ensures j in ApplyFail(s, c).jobs ==> RowOk(ApplyFail(s, c), j)
  {
    assert RowOk(s, j);
    assert Holds(s, c) && Current(s, TicketOf(s, c));
  }

  /** Outcomes, workers and calls leave the counts of a row alone and queue nothing. */
  lemma OtherStepsKeepRows(s: State, step: Step, j: JobId)
    requires SafeInv(s) && Enabled(s, step) && j in s.jobs
    requires !step.Fail? && !step.Claim? && !step.Start? && !step.Enqueue? && !step.Retry?
    ensures j in Apply(s, step).jobs ==> RowOk(Apply(s, step), j)
  {
    assert RowOk(s, j);
  }

  lemma StepKeepsRows(s: State, step: Step, j: JobId)
    requires SafeInv(s) && Enabled(s, step) && j in Apply(s, step).jobs
    ensures RowOk(Apply(s, step), j)
  {
    if step.Fail? { FailKeepsRows(s, step.call, j); }
    else if step.Claim? { assert RowOk(s, j); }
    else if step.Start? { assert RowOk(s, j); }
    else if step.Enqueue? { if j in s.jobs { assert RowOk(s, j); } }
    else if step.Retry? { assert RowOk(s, j); }
    else { OtherStepsKeepRows(s, step, j); }
  }

  lemma {:induction false} UnbrokenRunKeepsSafe(states: seq<State>, steps: seq<Step>, i: nat)
    requires UnbrokenRun(states, steps) && i < |states|
    ensures SafeInv(states[i])
  {
    if i > 0 {
      var s, step := states[i - 1], steps[i - 1];
      UnbrokenRunKeepsSafe(states, steps, i - 1);
      ExclusiveExactlyUnlessBroken(s, step);
      forall j | j in states[i].jobs ensures RowOk(states[i], j) { StepKeepsRows(s, step, j); }
    }
  }

  /**
   * One execution at a time; attempts and claims within the limits, plus one for
   * each start that recovered the row of a crashed worker.
   */
  lemma UnbrokenRunsAreSafe(states: seq<State>, steps: seq<Step>, i: nat)
    requires UnbrokenRun(states, steps) && i < |states|
    ensures forall c, d, j :: Runs(states[i], c, j) && Runs(states[i], d, j) ==> c == d
    ensures forall j :: j in states[i].jobs ==>
              j in states[i].log
              && states[i].jobs[j].attempts <= states[i].jobs[j].maxAttempts + states[i].log[j].recoveries
    ensures forall j :: j in states[i].log ==>
              var h := states[i].log[j]; h.claims <= (1 + h.retries) * h.maxAttempts + h.recoveries
  {
    var s := states[i];
    UnbrokenRunKeepsSafe(states, steps, i);
    forall j | j in s.jobs ensures j in s.log && s.jobs[j].attempts <= s.jobs[j].maxAttempts + s.log[j].recoveries {
      assert RowOk(s, j);
    }
    forall c, d, j | Runs(s, c, j) && Runs(s, d, j) ensures c == d { assert Holds(s, c) && Holds(s, d); }
    forall j | j in s.log
      ensures var h := s.log[j]; h.claims <= (1 + h.retries) * h.maxAttempts + h.recoveries
    {
      ClaimsAreBounded(states, steps, i, j);
    }
  }

  // ------------------------------------------ when the plain limit is kept

  predicate RowWithin(s: State, j: JobId)
    requires j in s.jobs
  {
    var row := s.jobs[j];
    row.attempts <= row.maxAttempts && (row.status == Queued ==> row.attempts < row.maxAttempts)
  }

  /** No row has used more attempts than it may, and no queued one has used all of them. */
  ghost predicate WithinLimit(s: State) { forall j :: j in s.jobs ==> RowWithin(s, j) }

  /** A start that finds a row in its last attempt and queues it for one more. */
  ghost predicate Overdraws(s: State, step: Step) {
    step.Start? && exists j :: j in s.jobs && s.jobs[j].status == Processing && s.jobs[j].attempts == s.jobs[j].maxAttempts
  }

  lemma StepKeepsRowWithin(s: State, step: Step, j: JobId)
    requires SafeInv(s) && WithinLimit(s) && Enabled(s, step) && !Overdraws(s, step) && j in Apply(s, step).jobs
    ensures RowWithin(Apply(s, step), j)
  {
    if j in s.jobs { assert RowOk(s, j) && RowWithin(s, j); }
    if step.Fail? { assert Holds(s, step.call) && Current(s, TicketOf(s, step.call)); }
    if step.Claim? { assert RowWithin(s, step.job); }
  }

  lemma OverdrawingExceeds(s: State, step: Step)
    requires Enabled(s, step) && Overdraws(s, step)
    ensures !WithinLimit(Apply(s, step))
  {
    var j :| j in s.jobs && s.jobs[j].status == Processing && s.jobs[j].attempts == s.jobs[j].maxAttempts;
    assert j in Apply(s, step).jobs && !RowWithin(Apply(s, step), j);
  }

  /** A step keeps the attempts within the limit exactly when it recovers no row in its last attempt. */
  lemma LimitKeptExactlyUnlessOverdrawn(s: State, step: Step)
    requires SafeInv(s) && WithinLimit(s) && Enabled(s, step) && !Breaks(s, step)
    ensures WithinLimit(Apply(s, step)) <==> !Overdraws(s, step)
  {
    if Overdraws(s, step) {
      OverdrawingExceeds(s, step);
    } else {
      forall j | j in Apply(s, step).jobs ensures RowWithin(Apply(s, step), j) { StepKeepsRowWithin(s, step, j); }
    }
  }

  lemma {:induction false} WithinAlong(states: seq<State>, steps: seq<Step>, i: nat)
    requires UnbrokenRun(states, steps) && i < |states| && forall k :: 0 <= k < |steps| ==> !Overdraws(states[k], steps[k])
    ensures WithinLimit(states[i])
  {
    if i > 0 {
      WithinAlong(states, steps, i - 1);
      UnbrokenRunKeepsSafe(states, steps, i - 1);
      LimitKeptExactlyUnlessOverdrawn(states[i - 1], steps[i - 1]);
    }
  }

  /** In an unbroken run attempts never exceed the limit exactly when no start recovers a row in its last attempt. */
  lemma LimitHoldsExactlyWhen(states: seq<State>, steps: seq<Step>)
    requires UnbrokenRun(states, steps)
    ensures (forall i :: 0 <= i < |states| ==> WithinLimit(states[i])) <==>
            (forall i :: 0 <= i < |steps| ==> !Overdraws(states[i], steps[i]))
  {
    if forall i :: 0 <= i < |states| ==> WithinLimit(states[i]) {
      forall i | 0 <= i < |steps| ensures !Overdraws(states[i], steps[i]) {
        assert WithinLimit(states[i]) && WithinLimit(states[i + 1]);
        UnbrokenRunKeepsSafe(states, steps, i);
        LimitKeptExactlyUnlessOverdrawn(states[i], steps[i]);
      }
    }
    if forall i :: 0 <= i < |steps| ==> !Overdraws(states[i], steps[i]) {
      forall i | 0 <= i < |states| ensures WithinLimit(states[i]) { WithinAlong(states, steps, i); }
    }
  }

  /** A completed row never changes, and a dead-lettered one only by a manual retry. */
  lemma TerminalRowsStay(s: State, step: Step, j: JobId)
    requires SafeInv(s) && Enabled(s, step) && !Breaks(s, step) && j in s.jobs
    requires s.jobs[j].status == Completed || s.jobs[j].status == DeadLetter
    ensures var s' := Apply(s, step);
            j in s'.jobs ==> s'.jobs[j] == s.jobs[j] || (s.jobs[j].status == DeadLetter && step == Retry(j))
    ensures Apply(s, step).jobs.Keys <= s.jobs.Keys + (set k | k !in s.log && step.Enqueue? && k == step.job)
  {
    if step.Complete? || step.Fail? {
      assert Holds(s, step.call) && Current(s, TicketOf(s, step.call));
    }
  }

  /** A queued row is only touched by its next claim or by deletion. */
  lemma QueuedRowWaits(s: State, step: Step, j: JobId)
    requires SafeInv(s) && Enabled(s, step) && !Breaks(s, step) && j in s.jobs && s.jobs[j].status == Queued
    requires !(step.Claim? && step.job == j)
    ensures var s' := Apply(s, step); j in s.log && j in s'.log && (j in s'.jobs ==> s'.jobs[j] == s.jobs[j])
  {
    assert RowOk(s, j);
    if step.Complete? || step.Fail? {
      assert Holds(s, step.call) && Current(s, TicketOf(s, step.call));
    }
  }

  /** From s to s' row j neither appears nor changes while it is in the given status. */
  predicate Frozen(s: State, s': State, j: JobId, status: Status) {
    j in s.log ==>
      && j in s'.log
      && (j in s'.jobs ==> j in s.jobs && (s.jobs[j].status == status ==> s'.jobs[j] == s.jobs[j]))
  }

  lemma {:induction false} FrozenChain(states: seq<State>, i: nat, k: nat, j: JobId, status: Status)
    requires i <= k < |states|
    requires j in states[i].log && j in states[i].jobs && states[i].jobs[j].status == status
    requires forall m :: i <= m < k ==> Frozen(states[m], states[m + 1], j, status)
    ensures j in states[k].log && (j in states[k].jobs ==> states[k].jobs[j] == states[i].jobs[j])
    decreases k
  {
    if i < k {
      FrozenChain(states, i, k - 1, j, status);
      assert Frozen(states[k - 1], states[k - 1 + 1], j, status);
    }
  }

  lemma UnbrokenStepFreezes(states: seq<State>, steps: seq<Step>, m: nat, j: JobId, status: Status)
    requires UnbrokenRun(states, steps) && m < |steps|
    requires
      || status == Completed
      || (status == DeadLetter && steps[m] != Retry(j))
      || (status == Queued && !(steps[m].Claim? && steps[m].job == j))
    ensures Frozen(states[m], states[m + 1], j, status)
  {
    UnbrokenRunKeepsSafe(states, steps, m);
    var s, step := states[m], steps[m];
    assert Enabled(s, step) && !Breaks(s, step) && states[m + 1] == Apply(s, step);
    if j in s.jobs && s.jobs[j].status == status {
      if status == Queued { QueuedRowWaits(s, step, j); } else { TerminalRowsStay(s, step, j); }
    }
  }

  lemma CompletedStays(states: seq<State>, steps: seq<Step>, i: nat, k: nat, j: JobId)
    requires UnbrokenRun(states, steps) && i <= k < |states|
    requires j in states[i].jobs && states[i].jobs[j].status == Completed
    ensures j in states[k].jobs ==> states[k].jobs[j] == states[i].jobs[j]
  {
    UnbrokenRunKeepsSafe(states, steps, i);
    assert RowOk(states[i], j);
    forall m | i <= m < k ensures Frozen(states[m], states[m + 1], j, Completed) {
      UnbrokenStepFreezes(states, steps, m, j, Completed);
    }
    FrozenChain(states, i, k, j, Completed);
  }

  lemma DeadLetterStaysUntilRetried(states: seq<State>, steps: seq<Step>, i: nat, k: nat, j: JobId)
    requires UnbrokenRun(states, steps) && i <= k < |states|
    requires j in states[i].jobs && states[i].jobs[j].status == DeadLetter
    requires forall m :: i <= m < k ==> steps[m] != Retry(j)
    ensures j in states[k].jobs ==> states[k].jobs[j] == states[i].jobs[j]
  {
    UnbrokenRunKeepsSafe(states, steps, i);
    assert RowOk(states[i], j);
    forall m | i <= m < k ensures Frozen(states[m], states[m + 1], j, DeadLetter) {
      UnbrokenStepFreezes(states, steps, m, j, DeadLetter);
    }
    FrozenChain(states, i, k, j, DeadLetter);
  }

  /** After a failed attempt the next claim comes no sooner than a second, doubled per failed attempt up to a minute. */
  lemma BackoffIsRespected(states: seq<State>, steps: seq<Step>, i: nat, k: nat, t: Ticket)
    requires UnbrokenRun(states, steps) && i < k < |steps|
    requires steps[i].Fail? && Holds(states[i], steps[i].call) && TicketOf(states[i], steps[i].call) == t
    requires t.job in states[i].jobs && t.attempt < t.maxAttempts
    requires steps[k].Claim? && steps[k].job == t.job
    requires forall m :: i < m < k ==> !(steps[m].Claim? && steps[m].job == t.job)
    ensures t.attempt > 0 && states[k].now >= states[i].now + if t.attempt <= 6 then WAITS[t.attempt - 1] else 60_000
  {
    RunKeepsInv(states, steps, i);
    assert TicketOk(states[i], t);
    BackoffTable(t.attempt);
    assert Enabled(states[i], steps[i]) && states[i + 1] == ApplyFail(states[i], steps[i].call);
    UnbrokenRunKeepsSafe(states, steps, i + 1);
    assert RowOk(states[i + 1], t.job);
    forall m | i + 1 <= m < k ensures Frozen(states[m], states[m + 1], t.job, Queued) {
      UnbrokenStepFreezes(states, steps, m, t.job, Queued);
    }
    FrozenChain(states, i + 1, k, t.job, Queued);
    assert Enabled(states[k], steps[k]);
    assert Available(states[k], t.job, steps[k].locked);
  }

  // --------------------------------------- two broken runs, and a recovery

  const PLAIN := Options(None, None, None)
  const IDLE := State(10, 0, map[], map[1 := Worker(true, {})], map[], map[], 1)
  const CLAIMED := State(10, 0, map[0 := Job(Processing, 1, 3, 0, 0, 0, Some(1))], map[1 := Worker(true, {})],
                         map[10 := Call(1, Claimed(Ticket(0, 0, 1, 3)))], map[0 := History(3, 1, 0, 0, {})], 1)
  const EXECUTING := CLAIMED.(workers := map[1 := Worker(true, {0})],
                              calls := map[10 := Call(1, Executing(Ticket(0, 0, 1, 3)))])
  const COMPLETED := EXECUTING.(jobs := map[0 := Job(Completed, 1, 3, 0, 0, 0, None)])
  const REQUEUED := EXECUTING.(jobs := map[0 := Job(Queued, 1, 3, 0, 0, 0, None)],
                               log := map[0 := History(3, 1, 0, 1, {})], starts := 2,
                               workers := map[1 := Worker(true, {0}), 2 := Worker(true, {})])

  ghost predicate RunTo(states: seq<State>, steps: seq<Step>, s: State) {
    Run(states, steps) && states[|steps|] == s
  }

  lemma Extend(states: seq<State>, steps: seq<Step>, s: State, step: Step) returns (states': seq<State>, s': State)
    requires RunTo(states, steps, s) && Enabled(s, step)
    ensures s' == Apply(s, step) && states' == states + [s'] && RunTo(states', steps + [step], s')
  {
    s' := Apply(s, step);
    states' := states + [s'];
  }

  lemma IdleRun() returns (states: seq<State>, steps: seq<Step>)
    ensures RunTo(states, steps, IDLE) && steps == [Launch(1), Start(1, true)]
  {
    var s := State(10, 0, map[], map[], map[], map[], 0);
    steps := [];
    states, s := Extend([s], [], s, Launch(1));
    states, s := Extend(states, [Launch(1)], s, Start(1, true));
    assert s == IDLE;
    steps := [Launch(1), Start(1, true)];
  }

  lemma ClaimedRun() returns (states: seq<State>, steps: seq<Step>)
    ensures RunTo(states, steps, CLAIMED)
    ensures steps == [Launch(1), Start(1, true), Enqueue(0, PLAIN), Poll(1, 10), Claim(10, 0, {})]
  {
    states, steps := IdleRun();
    var s := IDLE;
    states, s := Extend(states, steps, s, Enqueue(0, PLAIN));
    steps := steps + [Enqueue(0, PLAIN)];
    states, s := Extend(states, steps, s, Poll(1, 10));
    steps := steps + [Poll(1, 10)];
    assert Available(s, 0, {});
    states, s := Extend(states, steps, s, Claim(10, 0, {}));
    steps := steps + [Claim(10, 0, {})];
    assert s == CLAIMED;
  }

  lemma ExecutingRun() returns (states: seq<State>, steps: seq<Step>)
    ensures RunTo(states, steps, EXECUTING)
    ensures steps == [Launch(1), Start(1, true), Enqueue(0, PLAIN), Poll(1, 10), Claim(10, 0, {}), Begin(10)]
  {
    states, steps := ClaimedRun();
    var s;
    states, s := Extend(states, steps, CLAIMED, Begin(10));
    steps := steps + [Begin(10)];
    assert s.workers[1].running == {0};
    assert s == EXECUTING;
  }

  lemma CompletedRun() returns (states: seq<State>, steps: seq<Step>)
    ensures RunTo(states, steps, COMPLETED)
    ensures steps == [Launch(1), Start(1, true), Enqueue(0, PLAIN), Poll(1, 10), Claim(10, 0, {}), Begin(10),
                      CompleteUnacked(10)]
  {
    states, steps := ExecutingRun();
    var s;
    states, s := Extend(states, steps, EXECUTING, CompleteUnacked(10));
    steps := steps + [CompleteUnacked(10)];
    assert s == COMPLETED;
  }

  /** A completion whose acknowledgement is lost is taken for a failure: the completed job is queued again. */
  lemma LostAcknowledgementReopensJob() returns (states: seq<State>, steps: seq<Step>, s: State)
    ensures RunTo(states, steps, s) && |states| >= 2
    ensures 0 in states[|steps| - 1].jobs && states[|steps| - 1].jobs[0].status == Completed
    ensures 0 in s.jobs && s.jobs[0].status == Queued
  {
    states, steps := CompletedRun();
    states, s := Extend(states, steps, COMPLETED, Fail(10));
    steps := steps + [Fail(10)];
  }

  lemma RequeuedRun() returns (states: seq<State>, steps: seq<Step>)
    ensures RunTo(states, steps, REQUEUED)
    ensures forall step :: step in steps ==> !step.CompleteUnacked?
  {
    states, steps := ExecutingRun();
    var s;
    states, s := Extend(states, steps, EXECUTING, Launch(2));
    steps := steps + [Launch(2)];
    states, s := Extend(states, steps, s, Start(2, true));
    steps := steps + [Start(2, true)];
    assert s == REQUEUED;
  }

  const RECLAIMED := REQUEUED.(jobs := map[0 := Job(Processing, 2, 3, 0, 0, 0, Some(2))],
                               calls := map[10 := Call(1, Executing(Ticket(0, 0, 1, 3))),
                                            20 := Call(2, Claimed(Ticket(0, 0, 2, 3)))],
                               log := map[0 := History(3, 2, 0, 1, {})])

  const POLLED := REQUEUED.(calls := map[10 := Call(1, Executing(Ticket(0, 0, 1, 3))), 20 := Call(2, Claiming)])

  lemma PolledRun() returns (states: seq<State>, steps: seq<Step>)
    ensures RunTo(states, steps, POLLED)
    ensures forall step :: step in steps ==> !step.CompleteUnacked?
  {
    states, steps := RequeuedRun();
    var s;
    states, s := Extend(states, steps, REQUEUED, Poll(2, 20));
    steps := steps + [Poll(2, 20)];
    assert s == POLLED;
  }

  lemma ReclaimedRun() returns (states: seq<State>, steps: seq<Step>)
    ensures RunTo(states, steps, RECLAIMED)
    ensures forall step :: step in steps ==> !step.CompleteUnacked?
  {
    states, steps := PolledRun();
    var s := POLLED;
    assert Available(s, 0, {});
    states, s := Extend(states, steps, s, Claim(20, 0, {}));
    steps := steps + [Claim(20, 0, {})];
    assert s == RECLAIMED;
  }

  /** A worker that starts during an execution runs the same job alongside the first. */
  lemma LateStartRunsJobTwice() returns (states: seq<State>, steps: seq<Step>, s: State)
    ensures RunTo(states, steps, s)
    ensures Runs(s, 10, 0) && Runs(s, 20, 0)
    ensures forall step :: step in steps ==> !step.CompleteUnacked?
  {
    states, steps := ReclaimedRun();
    states, s := Extend(states, steps, RECLAIMED, Begin(20));
    steps := steps + [Begin(20)];
  }

  // A worker crashes with a claimed job of a single attempt; the next one recovers the orphan.

  const ONCE := Options(None, None, Some(1))
  const ORPHANED := State(10, 0, map[0 := Job(Processing, 1, 1, 0, 0, 0, Some(1))], map[], map[],
                          map[0 := History(1, 1, 0, 0, {})], 1)
  const ADOPTED := State(10, 0, map[0 := Job(Processing, 2, 1, 0, 0, 0, Some(2))], map[2 := Worker(true, {})],
                         map[20 := Call(2, Claimed(Ticket(0, 0, 2, 1)))], map[0 := History(1, 2, 0, 1, {})], 2)

  ghost predicate UnbrokenTo(states: seq<State>, steps: seq<Step>, s: State) {
    UnbrokenRun(states, steps) && states[|steps|] == s
  }

  lemma ExtendUnbroken(states: seq<State>, steps: seq<Step>, s: State, step: Step)
    returns (states': seq<State>, steps': seq<Step>, s': State)
    requires UnbrokenTo(states, steps, s) && Enabled(s, step) && !Breaks(s, step)
    ensures s' == Apply(s, step) && steps' == steps + [step] && UnbrokenTo(states', steps', s')
  {
    s', steps' := Apply(s, step), steps + [step];
    states' := states + [s'];
  }

  const WAITING := State(10, 0, map[0 := Job(Queued, 0, 1, 0, 0, 0, None)], map[1 := Worker(true, {})], map[],
                         map[0 := History(1, 0, 0, 0, {})], 1)
  const RECOVERED := State(10, 0, map[0 := Job(Queued, 1, 1, 0, 0, 0, None)], map[2 := Worker(true, {})], map[],
                           map[0 := History(1, 1, 0, 1, {})], 2)

  lemma WaitingRun() returns (states: seq<State>, steps: seq<Step>)
    ensures UnbrokenTo(states, steps, WAITING)
  {
    var s := State(10, 0, map[], map[], map[], map[], 0);
    states, steps := [s], [];
    assert UnbrokenTo(states, steps, s);
    hide UnbrokenTo;
    states, steps, s := ExtendUnbroken(states, steps, s, Launch(1));
    states, steps, s := ExtendUnbroken(states, steps, s, Start(1, true));
    states, steps, s := ExtendUnbroken(states, steps, s, Enqueue(0, ONCE));
    assert s == WAITING;
  }

  lemma OrphanedRun() returns (states: seq<State>, steps: seq<Step>)
    ensures UnbrokenTo(states, steps, ORPHANED)
  {
    hide UnbrokenTo;
    states, steps := WaitingRun();
    var s := WAITING;
    states, steps, s := ExtendUnbroken(states, steps, s, Poll(1, 10));
    assert Available(s, 0, {});
    states, steps, s := ExtendUnbroken(states, steps, s, Claim(10, 0, {}));
    states, steps, s := ExtendUnbroken(states, steps, s, Crash(1));
    assert s == ORPHANED;
  }

  lemma RecoveredRun() returns (states: seq<State>, steps: seq<Step>)
    ensures UnbrokenTo(states, steps, RECOVERED)
  {
    hide UnbrokenTo;
    states, steps := OrphanedRun();
    var s := ORPHANED;
    states, steps, s := ExtendUnbroken(states, steps, s, Launch(2));
    states, steps, s := ExtendUnbroken(states, steps, s, Start(2, true));
    assert s == RECOVERED;
  }

  /** The recovery of an orphaned row breaks nothing, and it is what takes attempts over the limit. */
  lemma RecoveryExceedsTheLimit() returns (states: seq<State>, steps: seq<Step>, s: State)
    ensures UnbrokenTo(states, steps, s)
    ensures 0 in s.jobs && 0 in s.log && s.log[0].recoveries == 1
    ensures s.jobs[0].attempts == s.jobs[0].maxAttempts + s.log[0].recoveries
    ensures s.log[0].claims == (1 + s.log[0].retries) * s.log[0].maxAttempts + s.log[0].recoveries
  {
    hide UnbrokenTo;
    states, steps := RecoveredRun();
    s := RECOVERED;
    states, steps, s := ExtendUnbroken(states, steps, s, Poll(2, 20));
    assert Available(s, 0, {});
    states, steps, s := ExtendUnbroken(states, steps, s, Claim(20, 0, {}));
    assert s == ADOPTED;
  }
}
