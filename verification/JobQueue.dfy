/**
 * The persistent function queue as a step system: any number of worker
 * processes share one table of jobs, and a step is what happens between two
 * awaits of one of them.  Steps of different workers interleave freely, workers
 * may crash, and the acknowledgement of a database write may be lost.
 */
module JobQueue {
  import opened Arithmetic
  import opened Outcome
  import opened FiniteSets

  type WorkerId = nat
  type JobId = nat
  type CallId = nat

  const DEFAULT_ATTEMPTS := 3
  const MAX_DELAY_MS := 7 * 86_400_000
  const BACKOFF_BASE_MS := 1_000
  const BACKOFF_CAP_MS := 60_000

  datatype Status = Queued | Processing | Completed | DeadLetter

  /** A row of the jobs table. */
  datatype Job = Job(status: Status, attempts: nat, maxAttempts: nat, priority: int,
                     createdAt: nat, availableAt: nat, lockedBy: Option<WorkerId>)

  /** A process: whether it was started, and the jobs it believes it is running. */
  datatype Worker = Worker(started: bool, running: set<JobId>)

  /**
   * The copy of a row that a claim returned.  `round` counts the manual retries
   * the job had seen by then; it is history and no step branches on it.
   */
  datatype Ticket = Ticket(job: JobId, round: nat, attempt: nat, maxAttempts: nat)

  /** Where one activation of processQueue stands. */
  datatype Phase = Claiming | Claimed(ticket: Ticket) | Executing(ticket: Ticket) | Settled(job: JobId)

  datatype Call = Call(worker: WorkerId, phase: Phase)

  /**
   * What has happened to a job so far: claims, manual retries, start-up
   * recoveries, and the (round, attempt) pairs whose failure re-queued it.
   */
  datatype History = History(maxAttempts: nat, claims: nat, retries: nat, recoveries: nat, paid: set<(nat, nat)>)

  datatype State = State(
    limit: nat,
    now: nat,
    jobs: map<JobId, Job>,
    workers: map<WorkerId, Worker>,
    calls: map<CallId, Call>,
    log: map<JobId, History>,
    starts: nat)

  datatype Options = Options(delayMs: Option<int>, priority: Option<int>, maxAttempts: Option<int>)

  datatype Step =
    | Tick(ms: nat)
    | Launch(w: WorkerId)
    | Start(w: WorkerId, subscribed: bool)
    | Stop(w: WorkerId)
    | Crash(w: WorkerId)
    | Enqueue(job: JobId, options: Options)
    | Poll(w: WorkerId, call: CallId)
    | NoClaim(call: CallId)
    | Claim(call: CallId, job: JobId, locked: set<JobId>)
    | Lose(call: CallId)
    | Begin(call: CallId)
    | Complete(call: CallId)
    | CompleteUnacked(call: CallId)
    | Fail(call: CallId)
    | FailUnwritten(call: CallId)
    | Finish(call: CallId)
    | Retry(job: JobId)
    | Delete(job: JobId)

  // ---------------------------------------------------------------- helpers

  function Clamp(value: int, low: int, high: int): int {
    if value < low then low else if value > high then high else value
  }

  /** `Number(option) || fallback`: absent and zero both give the fallback. */
  function OrElse(option: Option<int>, fallback: int): int {
    if option.Some? && option.value != 0 then option.value else fallback
  }

  function Backoff(attempts: nat): nat {
    var raw := BACKOFF_BASE_MS * Pow2(if attempts == 0 then 0 else attempts - 1);
    if raw < BACKOFF_CAP_MS then raw else BACKOFF_CAP_MS
  }

  /** The waiting times after the first, second, ... failed attempt; from the seventh on it is a minute. */
  const WAITS: seq<nat> := [1_000, 2_000, 4_000, 8_000, 16_000, 32_000]

  /** A second, doubled with every further failed attempt, and never more than a minute. */
  lemma BackoffTable(attempt: nat)
    requires attempt > 0
    ensures Backoff(attempt) == if attempt <= 6 then WAITS[attempt - 1] else 60_000
    ensures attempt > 1 && 2 * Backoff(attempt - 1) <= 60_000 ==> Backoff(attempt) == 2 * Backoff(attempt - 1)
    ensures attempt > 1 && 2 * Backoff(attempt - 1) > 60_000 ==> Backoff(attempt) == 60_000
  {
    assert Pow2(5) == 32;
    if attempt > 6 { Pow2Grows(6, attempt - 1); }
  }

  lemma {:induction false} Pow2Grows(a: nat, b: nat)
    requires a <= b
    ensures Pow2(a) <= Pow2(b)
  {
    if a < b { Pow2Grows(a, b - 1); }
  }

  function NewJob(now: nat, options: Options): Job {
    Job(Queued, 0,
        Clamp(OrElse(options.maxAttempts, DEFAULT_ATTEMPTS), 1, 10),
        Clamp(OrElse(options.priority, 0), -10, 10),
        now, now + Clamp(OrElse(options.delayMs, 0), 0, MAX_DELAY_MS), None)
  }

  predicate Available(s: State, j: JobId, locked: set<JobId>) {
    j in s.jobs && s.jobs[j].status == Queued && s.jobs[j].availableAt <= s.now && j !in locked
  }

  /** ORDER BY priority DESC, created_at. */
  predicate Before(a: Job, b: Job) {
    a.priority > b.priority || (a.priority == b.priority && a.createdAt < b.createdAt)
  }

  predicate Best(s: State, j: JobId, locked: set<JobId>) {
    Available(s, j, locked) && forall k :: k in s.jobs && Available(s, k, locked) ==> !Before(s.jobs[k], s.jobs[j])
  }

  predicate Live(s: State, c: CallId) {
    c in s.calls && s.calls[c].worker in s.workers
  }

  /** The calls that hold a ticket and have not written its outcome. */
  predicate Holds(s: State, c: CallId) {
    c in s.calls && (s.calls[c].phase.Claimed? || s.calls[c].phase.Executing?)
  }

  function TicketOf(s: State, c: CallId): Ticket
    requires Holds(s, c)
  {
    s.calls[c].phase.ticket
  }

  predicate Runs(s: State, c: CallId, j: JobId) {
    c in s.calls && s.calls[c].phase.Executing? && s.calls[c].phase.ticket.job == j
  }

  function SetStatus(jobs: map<JobId, Job>, j: JobId, status: Status): map<JobId, Job> {
    if j in jobs then jobs[j := jobs[j].(status := status, lockedBy := None)] else jobs
  }

  function Requeue(jobs: map<JobId, Job>, j: JobId, availableAt: nat): map<JobId, Job> {
    if j in jobs then jobs[j := jobs[j].(status := Queued, availableAt := availableAt, lockedBy := None)] else jobs
  }

  /** The start-up statement: every processing row goes back to queued. */
  function Recovered(jobs: map<JobId, Job>): map<JobId, Job> {
    map j | j in jobs :: if jobs[j].status == Processing then jobs[j].(status := Queued, lockedBy := None) else jobs[j]
  }

  function CountRecoveries(jobs: map<JobId, Job>, log: map<JobId, History>): map<JobId, History> {
    map j | j in log ::
      if j in jobs && jobs[j].status == Processing then log[j].(recoveries := log[j].recoveries + 1) else log[j]
  }

  function CallsOfOthers(calls: map<CallId, Call>, w: WorkerId): map<CallId, Call> {
    map c | c in calls && calls[c].worker != w :: calls[c]
  }

  // ------------------------------------------------------------ step system

  predicate Initial(s: State) {
    s.jobs == map[] && s.workers == map[] && s.calls == map[] && s.log == map[] && s.starts == 0
  }

  predicate Enabled(s: State, step: Step) {
    match step
    case Tick(_) => true
    case Launch(w) => w !in s.workers
    case Start(w, _) => w in s.workers && !s.workers[w].started
    case Stop(w) => w in s.workers
    case Crash(w) => w in s.workers
    case Enqueue(j, _) => j !in s.log
    case Poll(w, c) => w in s.workers && s.workers[w].started && |s.workers[w].running| < s.limit && c !in s.calls
    case NoClaim(c) => Live(s, c) && s.calls[c].phase.Claiming?
    case Claim(c, j, locked) => Live(s, c) && s.calls[c].phase.Claiming? && j in s.log && Best(s, j, locked)
    case Lose(c) => Live(s, c) && s.calls[c].phase.Claimed?
    case Begin(c) => Live(s, c) && s.calls[c].phase.Claimed?
    case Complete(c) => Live(s, c) && s.calls[c].phase.Executing?
    case CompleteUnacked(c) => Live(s, c) && s.calls[c].phase.Executing?
    case Fail(c) => Live(s, c) && s.calls[c].phase.Executing? && s.calls[c].phase.ticket.job in s.log
    case FailUnwritten(c) => Live(s, c) && s.calls[c].phase.Executing?
    case Finish(c) => Live(s, c) && s.calls[c].phase.Settled?
    case Retry(j) => j in s.jobs && j in s.log && s.jobs[j].status == DeadLetter
    case Delete(j) => j in s.jobs
  }

  function ApplyClaim(s: State, c: CallId, j: JobId): State
    requires Live(s, c) && j in s.jobs && j in s.log
  {
    var row := s.jobs[j];
    var h := s.log[j];
    s.(jobs := s.jobs[j := row.(status := Processing, attempts := row.attempts + 1, lockedBy := Some(s.calls[c].worker))],
       calls := s.calls[c := s.calls[c].(phase := Claimed(Ticket(j, h.retries, row.attempts + 1, row.maxAttempts)))],
       log := s.log[j := h.(claims := h.claims + 1)])
  }

  function ApplyFail(s: State, c: CallId): State
    requires Holds(s, c) && TicketOf(s, c).job in s.log
  {
    var t := TicketOf(s, c);
    var settled := s.(calls := s.calls[c := s.calls[c].(phase := Settled(t.job))]);
    if t.attempt >= t.maxAttempts then
      settled.(jobs := SetStatus(s.jobs, t.job, DeadLetter))
    else if t.job in s.jobs then
      settled.(jobs := Requeue(s.jobs, t.job, s.now + Backoff(t.attempt)),
               log := s.log[t.job := s.log[t.job].(paid := s.log[t.job].paid + {(t.round, t.attempt)})])
    else settled
  }

  function ApplyBegin(s: State, c: CallId): State
    requires Live(s, c) && Holds(s, c)
  {
    var t := TicketOf(s, c);
    var w := s.calls[c].worker;
    if t.job in s.workers[w].running then s.(calls := s.calls - {c})
    else s.(workers := s.workers[w := s.workers[w].(running := s.workers[w].running + {t.job})],
            calls := s.calls[c := s.calls[c].(phase := Executing(t))])
  }

  function Apply(s: State, step: Step): State
    requires Enabled(s, step)
  {
    match step
    case Tick(ms) => s.(now := s.now + ms)
    case Launch(w) => s.(workers := s.workers[w := Worker(false, {})])
    case Start(w, subscribed) =>
      s.(jobs := Recovered(s.jobs), log := CountRecoveries(s.jobs, s.log), starts := s.starts + 1,
         workers := s.workers[w := s.workers[w].(started := subscribed)])
    case Stop(w) => s.(workers := s.workers[w := s.workers[w].(started := false)])
    case Crash(w) => s.(workers := s.workers - {w}, calls := CallsOfOthers(s.calls, w))
    case Enqueue(j, options) =>
      var row := NewJob(s.now, options);
      s.(jobs := s.jobs[j := row], log := s.log[j := History(row.maxAttempts, 0, 0, 0, {})])
    case Poll(w, c) => s.(calls := s.calls[c := Call(w, Claiming)])
    case NoClaim(c) => s.(calls := s.calls - {c})
    case Claim(c, j, _) => ApplyClaim(s, c, j)
    case Lose(c) => s.(calls := s.calls - {c})
    case Begin(c) => ApplyBegin(s, c)
    case Complete(c) =>
      var t := s.calls[c].phase.ticket;
      s.(jobs := SetStatus(s.jobs, t.job, Completed), calls := s.calls[c := s.calls[c].(phase := Settled(t.job))])
    case CompleteUnacked(c) => s.(jobs := SetStatus(s.jobs, s.calls[c].phase.ticket.job, Completed))
    case Fail(c) => ApplyFail(s, c)
    case FailUnwritten(c) => s.(calls := s.calls[c := s.calls[c].(phase := Settled(s.calls[c].phase.ticket.job))])
    case Finish(c) =>
      var w := s.calls[c].worker;
      s.(workers := s.workers[w := s.workers[w].(running := s.workers[w].running - {s.calls[c].phase.job})],
         calls := s.calls - {c})
    case Retry(j) =>
      s.(jobs := s.jobs[j := s.jobs[j].(status := Queued, attempts := 0, availableAt := s.now, lockedBy := None)],
         log := s.log[j := s.log[j].(retries := s.log[j].retries + 1)])
    case Delete(j) => s.(jobs := s.jobs - {j})
  }

  /** states[0] is initial and every later state comes from the one before by an enabled step. */
  ghost predicate Run(states: seq<State>, steps: seq<Step>) {
    && |states| == |steps| + 1
    && Initial(states[0])
    && forall i :: 0 <= i < |steps| ==> Enabled(states[i], steps[i]) && states[i + 1] == Apply(states[i], steps[i])
  }

  /**
   * Queue order along a run: what a claim takes is queued, due and not locked,
   * and everything else that is so has a lower priority, or the same one and is
   * no older.  The claim makes it a processing row of the claiming worker.
   */
  lemma ClaimsFollowTheOrder(states: seq<State>, steps: seq<Step>, i: nat)
    requires Run(states, steps) && i < |steps| && steps[i].Claim?
    ensures var before, after, j := states[i], states[i + 1], steps[i].job;
      && j in before.jobs && j in after.jobs && steps[i].call in before.calls && j !in steps[i].locked
      && before.jobs[j].status == Queued && before.jobs[j].availableAt <= before.now
      && after.jobs[j] == before.jobs[j].(status := Processing, attempts := before.jobs[j].attempts + 1,
                                          lockedBy := Some(before.calls[steps[i].call].worker))
      && forall k ::
           && k in before.jobs && before.jobs[k].status == Queued
           && before.jobs[k].availableAt <= before.now && k !in steps[i].locked
           ==> || before.jobs[k].priority < before.jobs[j].priority
               || (before.jobs[k].priority == before.jobs[j].priority && before.jobs[k].createdAt >= before.jobs[j].createdAt)
  {
    var s, j, locked := states[i], steps[i].job, steps[i].locked;
    assert Enabled(s, steps[i]) && Best(s, j, locked);
    forall k | k in s.jobs && s.jobs[k].status == Queued && s.jobs[k].availableAt <= s.now && k !in locked
      ensures !Before(s.jobs[k], s.jobs[j])
    {
      assert Available(s, k, locked);
    }
  }

  // ------------------------------------------------- the counting invariant

  function Flag(b: bool): nat { if b then 1 else 0 }

  /** A requeue was paid for by a distinct non-final attempt of some round. */
  predicate PaidOk(s: State, j: JobId, p: (nat, nat))
    requires j in s.log
  {
    && p.0 <= s.log[j].retries && 1 <= p.1 < s.log[j].maxAttempts
    && (j in s.jobs && p.0 == s.log[j].retries ==> p.1 <= s.jobs[j].attempts)
  }

  predicate LedgerOk(s: State, j: JobId)
    requires j in s.log
  {
    var h := s.log[j];
    && 1 <= h.maxAttempts
    && h.recoveries <= s.starts
    && (j in s.jobs ==> s.jobs[j].maxAttempts == h.maxAttempts)
    && (forall p :: p in h.paid ==> PaidOk(s, j, p))
    && h.claims + Flag(j in s.jobs && s.jobs[j].status == Queued) <= 1 + h.retries + h.recoveries + |h.paid|
  }

  predicate TicketOk(s: State, t: Ticket) {
    && t.job in s.log
    && t.round <= s.log[t.job].retries && 1 <= t.attempt && t.maxAttempts == s.log[t.job].maxAttempts
    && (t.job in s.jobs && t.round == s.log[t.job].retries ==> t.attempt <= s.jobs[t.job].attempts)
    && (t.round, t.attempt) !in s.log[t.job].paid
  }

  predicate Distinct(s: State, c: CallId, d: CallId)
    requires Holds(s, c) && Holds(s, d)
  {
    TicketOf(s, c).job == TicketOf(s, d).job ==>
      (TicketOf(s, c).round, TicketOf(s, c).attempt) != (TicketOf(s, d).round, TicketOf(s, d).attempt)
  }

  ghost predicate Inv(s: State) {
    && s.jobs.Keys <= s.log.Keys
    && (forall j :: j in s.log ==> LedgerOk(s, j))
    && (forall c :: Holds(s, c) ==> TicketOk(s, TicketOf(s, c)))
    && (forall c, d :: c != d && Holds(s, c) && Holds(s, d) ==> Distinct(s, c, d))
  }

  lemma ClaimKeepsInv(s: State, c: CallId, j: JobId, locked: set<JobId>)
    requires Inv(s) && Enabled(s, Claim(c, j, locked))
    ensures Inv(Apply(s, Claim(c, j, locked)))
  {
    var s' := ApplyClaim(s, c, j);
    forall k | k in s'.log ensures LedgerOk(s', k) {
      assert LedgerOk(s, k);
      forall p | p in s'.log[k].paid ensures PaidOk(s', k, p) { assert PaidOk(s, k, p); }
    }
    forall d | Holds(s', d) ensures TicketOk(s', TicketOf(s', d)) {
      if d == c {
        assert LedgerOk(s, j);
        forall p | p in s.log[j].paid ensures p != (s.log[j].retries, s.jobs[j].attempts + 1) {
          assert PaidOk(s, j, p);
        }
      } else {
        assert Holds(s, d) && TicketOk(s, TicketOf(s, d));
      }
    }
    forall a, b | a != b && Holds(s', a) && Holds(s', b) ensures Distinct(s', a, b) {
      if a != c { assert Holds(s, a) && TicketOk(s, TicketOf(s, a)); }
      if b != c { assert Holds(s, b) && TicketOk(s, TicketOf(s, b)); }
      if a != c && b != c { assert Distinct(s, a, b); }
    }
  }

  /** No new ticket, no new queued row, no history entry. */
  ghost predicate NoNewWork(s: State, s': State) {
    && s'.log == s.log && s.starts <= s'.starts
    && (forall j :: j in s'.jobs ==>
          j in s.jobs && s'.jobs[j].attempts == s.jobs[j].attempts && s'.jobs[j].maxAttempts == s.jobs[j].maxAttempts
          && (s'.jobs[j].status == Queued ==> s.jobs[j].status == Queued))
    && (forall d :: Holds(s', d) ==> Holds(s, d) && TicketOf(s', d) == TicketOf(s, d))
  }

  lemma NoNewWorkKeepsInv(s: State, s': State)
    requires Inv(s) && NoNewWork(s, s')
    ensures Inv(s')
  {
    forall k | k in s'.log ensures LedgerOk(s', k) {
      assert LedgerOk(s, k);
      forall p | p in s'.log[k].paid ensures PaidOk(s', k, p) { assert PaidOk(s, k, p); }
    }
    forall d | Holds(s', d) ensures TicketOk(s', TicketOf(s', d)) {
      assert TicketOk(s, TicketOf(s, d));
    }
    forall a, b | a != b && Holds(s', a) && Holds(s', b) ensures Distinct(s', a, b) {
      assert Distinct(s, a, b);
    }
  }

  /** A failure short of the last attempt pays for the requeue with its own claim number. */
  lemma RequeueKeepsInv(s: State, c: CallId)
    requires Inv(s) && Enabled(s, Fail(c))
    requires TicketOf(s, c).attempt < TicketOf(s, c).maxAttempts && TicketOf(s, c).job in s.jobs
    ensures Inv(ApplyFail(s, c))
  {
    var t := TicketOf(s, c);
    var s' := ApplyFail(s, c);
    assert TicketOk(s, t);
    forall k | k in s'.log ensures LedgerOk(s', k) {
      assert LedgerOk(s, k);
      forall p | p in s'.log[k].paid ensures PaidOk(s', k, p) {
        if p in s.log[k].paid { assert PaidOk(s, k, p); }
      }
    }
    forall d | Holds(s', d) ensures TicketOk(s', TicketOf(s', d)) {
      assert Holds(s, d) && d != c && TicketOk(s, TicketOf(s, d)) && Distinct(s, c, d);
    }
    forall a, b | a != b && Holds(s', a) && Holds(s', b) ensures Distinct(s', a, b) {
      assert Distinct(s, a, b);
    }
  }

  /** Workers come and go, calls move on, rows are finished or deleted: nothing is admitted. */
  lemma OtherStepsAddNoWork(s: State, step: Step)
    requires Enabled(s, step)
    requires !step.Start? && !step.Enqueue? && !step.Retry? && !step.Claim? && !step.Fail?
    ensures NoNewWork(s, Apply(s, step))
  {
  }

  /** The three steps that put a row in the queue without a ticket. */
  lemma AdmissionKeepsInv(s: State, step: Step)
    requires Inv(s) && Enabled(s, step) && (step.Start? || step.Enqueue? || step.Retry?)
    ensures Inv(Apply(s, step))
  {
    var s' := Apply(s, step);
    forall k | k in s'.log ensures LedgerOk(s', k) {
      if k in s.log {
        assert LedgerOk(s, k);
        forall p | p in s'.log[k].paid ensures PaidOk(s', k, p) { assert PaidOk(s, k, p); }
      }
    }
    forall d | Holds(s', d) ensures TicketOk(s', TicketOf(s', d)) {
      assert Holds(s, d) && TicketOk(s, TicketOf(s, d));
    }
    forall a, b | a != b && Holds(s', a) && Holds(s', b) ensures Distinct(s', a, b) {
      assert Holds(s, a) && Holds(s, b) && Distinct(s, a, b);
    }
  }

  lemma StepKeepsInv(s: State, step: Step)
    requires Inv(s) && Enabled(s, step)
    ensures Inv(Apply(s, step))
  {
    if step.Claim? {
      ClaimKeepsInv(s, step.call, step.job, step.locked);
    } else if step.Start? || step.Enqueue? || step.Retry? {
      AdmissionKeepsInv(s, step);
    } else if step.Fail? {
      var t := TicketOf(s, step.call);
      if t.attempt < t.maxAttempts && t.job in s.jobs { RequeueKeepsInv(s, step.call); }
      else { NoNewWorkKeepsInv(s, ApplyFail(s, step.call)); }
    } else {
      OtherStepsAddNoWork(s, step);
      NoNewWorkKeepsInv(s, Apply(s, step));
    }
  }

  lemma {:induction false} RunKeepsInv(states: seq<State>, steps: seq<Step>, i: nat)
    requires Run(states, steps) && i < |states|
    ensures Inv(states[i])
  {
    if i > 0 {
      RunKeepsInv(states, steps, i - 1);
      StepKeepsInv(states[i - 1], steps[i - 1]);
    }
  }

  /** All pairs (round, attempt) that can ever pay for a requeue. */
  function Payers(retries: nat, maxAttempts: nat): (r: set<(nat, nat)>)
    requires 1 <= maxAttempts
  {
    set a, b | 0 <= a <= retries && 1 <= b < maxAttempts :: (a, b)
  }

  function Row(round: nat, maxAttempts: nat): (r: set<(nat, nat)>)
    requires 1 <= maxAttempts
  {
    set b | 1 <= b < maxAttempts :: (round, b)
  }

  lemma {:induction false} RowSize(round: nat, maxAttempts: nat)
    requires 1 <= maxAttempts
    ensures |Row(round, maxAttempts)| == maxAttempts - 1
  {
    if maxAttempts == 1 {
      assert Row(round, 1) == {};
    } else {
      RowSize(round, maxAttempts - 1);
      assert Row(round, maxAttempts) == Row(round, maxAttempts - 1) + {(round, maxAttempts - 1)};
    }
  }

  lemma {:induction false} PayersSize(retries: nat, maxAttempts: nat)
    requires 1 <= maxAttempts
    ensures |Payers(retries, maxAttempts)| == (retries + 1) * (maxAttempts - 1)
  {
    RowSize(retries, maxAttempts);
    if retries == 0 {
      assert Payers(0, maxAttempts) == Row(0, maxAttempts);
    } else {
      PayersSize(retries - 1, maxAttempts);
      assert Payers(retries, maxAttempts) == Payers(retries - 1, maxAttempts) + Row(retries, maxAttempts);
      assert Payers(retries - 1, maxAttempts) !! Row(retries, maxAttempts);
      assert |Payers(retries, maxAttempts)| == retries * (maxAttempts - 1) + (maxAttempts - 1);
    }
  }

  lemma LedgerBoundsClaims(s: State, j: JobId)
    requires Inv(s) && j in s.log
    ensures s.log[j].claims <= (1 + s.log[j].retries) * s.log[j].maxAttempts + s.log[j].recoveries
  {
    var h := s.log[j];
    assert LedgerOk(s, j);
    forall p | p in h.paid ensures p in Payers(h.retries, h.maxAttempts) { assert PaidOk(s, j, p); }
    SubsetSize(h.paid, Payers(h.retries, h.maxAttempts));
    PayersSize(h.retries, h.maxAttempts);
    assert (h.retries + 1) * (h.maxAttempts - 1) == (h.retries + 1) * h.maxAttempts - (h.retries + 1);
  }

  /**
   * Over every interleaving of workers, crashes, lost acknowledgements, stale
   * outcome writes, recoveries and manual retries, a job is claimed at most
   * maxAttempts times per round, plus once for each start that recovered it.
   */
  lemma ClaimsAreBounded(states: seq<State>, steps: seq<Step>, i: nat, j: JobId)
    requires Run(states, steps) && i < |states| && j in states[i].log
    ensures var h := states[i].log[j];
            && h.claims <= (1 + h.retries) * h.maxAttempts + h.recoveries
            && h.recoveries <= states[i].starts
            && (h.retries == 0 ==> h.claims <= h.maxAttempts + states[i].starts)
  {
    RunKeepsInv(states, steps, i);
    LedgerBoundsClaims(states[i], j);
    assert LedgerOk(states[i], j);
  }
}
