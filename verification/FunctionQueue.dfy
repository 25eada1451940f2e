/**
 * The engine's own code between two awaits, working on shared fields in place.
 * Each method is tied to the step of the queue protocol it performs.
 */
module FunctionQueue {
  import opened Outcome
  import opened JobQueue

  class Engine {
    const limit: nat
    var now: nat
    var jobs: map<JobId, Job>
    var workers: map<WorkerId, Worker>
    var calls: map<CallId, Call>
    var log: map<JobId, History>
    var starts: nat

    constructor (limit: nat)
      ensures this.limit == limit && Initial(State())
    {
      this.limit := limit;
      now, starts := 0, 0;
      jobs, workers, calls, log := map[], map[], map[], map[];
    }

    function State(): State
      reads this
    {
      JobQueue.State(limit, now, jobs, workers, calls, log, starts)
    }

    /** Already started: nothing happens.  A failed subscription leaves the worker stopped after the update. */
    method Start(w: WorkerId, subscribed: bool)
      requires w in workers
      modifies this
      ensures State() == if old(workers[w].started) then old(State())
                         else Apply(old(State()), JobQueue.Start(w, subscribed))
      ensures jobs.Keys == old(jobs).Keys
      ensures var recovering := !old(workers[w].started);
        forall j :: j in jobs ==>
          && (recovering && old(jobs)[j].status == Processing ==> jobs[j] == old(jobs)[j].(status := Queued, lockedBy := None))
          && (!recovering || old(jobs)[j].status != Processing ==> jobs[j] == old(jobs)[j])
    {
      if workers[w].started { return; }
      log := CountRecoveries(jobs, log);
      jobs := map j | j in jobs :: if jobs[j].status == Processing then jobs[j].(status := Queued, lockedBy := None) else jobs[j];
      starts := starts + 1;
      workers := workers[w := workers[w].(started := subscribed)];
    }

    method Enqueue(job: JobId, options: Options)
      requires job !in log
      modifies this
      ensures State() == Apply(old(State()), JobQueue.Enqueue(job, options))
      ensures job in jobs && jobs == old(jobs)[job := jobs[job]]
      ensures var row := jobs[job];
        && row.status == Queued && row.attempts == 0 && row.lockedBy == None && row.createdAt == now
        && 1 <= row.maxAttempts <= 10 && -10 <= row.priority <= 10 && now <= row.availableAt <= now + 604_800_000
        && (options.maxAttempts.None? ==> row.maxAttempts == 3)
        && (options.maxAttempts.Some? && 1 <= options.maxAttempts.value <= 10 ==> row.maxAttempts == options.maxAttempts.value)
        && (options.priority.None? ==> row.priority == 0)
        && (options.priority.Some? && -10 <= options.priority.value <= 10 ==> row.priority == options.priority.value)
        && (options.delayMs.None? ==> row.availableAt == now)
        && (options.delayMs.Some? && 0 <= options.delayMs.value <= 604_800_000 ==> row.availableAt == now + options.delayMs.value)
    {
      var attempts := if options.maxAttempts.Some? && options.maxAttempts.value != 0
                      then options.maxAttempts.value else DEFAULT_ATTEMPTS;
      if attempts < 1 { attempts := 1; }
      if attempts > 10 { attempts := 10; }
      var delay := OrElse(options.delayMs, 0);
      if delay < 0 { delay := 0; }
      if delay > MAX_DELAY_MS { delay := MAX_DELAY_MS; }
      var row := Job(Queued, 0, attempts, Clamp(OrElse(options.priority, 0), -10, 10), now, now + delay, None);
      jobs := jobs[job := row];
      log := log[job := History(attempts, 0, 0, 0, {})];
    }

    /** The guard in front of a claim; the job is added to `running` only after the claim has returned. */
    method Poll(w: WorkerId, call: CallId) returns (polled: bool)
      requires w in workers && call !in calls
      modifies this
      ensures polled == Enabled(old(State()), JobQueue.Poll(w, call))
      ensures State() == if polled then Apply(old(State()), JobQueue.Poll(w, call)) else old(State())
    {
      if !workers[w].started || |workers[w].running| >= limit { return false; }
      calls := calls[call := Call(w, Claiming)];
      return true;
    }

    /** Picks the first available row in queue order among those no other transaction has locked. */
    method ClaimNextJob(call: CallId, locked: set<JobId>) returns (claimed: Option<Ticket>)
      requires Live(State(), call) && calls[call].phase.Claiming? && jobs.Keys <= log.Keys
      modifies this
      ensures claimed.None? ==>
                && State() == Apply(old(State()), NoClaim(call))
                && forall j :: j in old(jobs) && old(jobs)[j].status == Queued && old(jobs)[j].availableAt <= now ==> j in locked
      ensures claimed.Some? ==>
                var step := Claim(call, claimed.value.job, locked);
                && Enabled(old(State()), step) && State() == Apply(old(State()), step)
                && Holds(State(), call) && TicketOf(State(), call) == claimed.value
      ensures claimed.Some? ==>
                var j := claimed.value.job;
                && j in old(jobs) && old(jobs)[j].status == Queued && old(jobs)[j].availableAt <= now && j !in locked
                && forall k :: k in old(jobs) && old(jobs)[k].status == Queued && old(jobs)[k].availableAt <= now && k !in locked ==>
                     || old(jobs)[k].priority < old(jobs)[j].priority
                     || (old(jobs)[k].priority == old(jobs)[j].priority && old(jobs)[k].createdAt >= old(jobs)[j].createdAt)
    {
      var best: Option<JobId> := None;
      var rest := jobs.Keys;
      while rest != {}
        invariant rest <= jobs.Keys
        invariant best.Some? ==> Available(State(), best.value, locked)
        invariant forall k :: k in jobs && k !in rest && Available(State(), k, locked) ==>
                    best.Some? && !Before(jobs[k], jobs[best.value])
        decreases rest
      {
        var j :| j in rest;
        rest := rest - {j};
        if jobs[j].status == Queued && jobs[j].availableAt <= now && j !in locked {
          if best.None? || Before(jobs[j], jobs[best.value]) { best := Some(j); }
        }
      }
      if best.None? {
        calls := calls - {call};
        return None;
      }
      var j := best.value;
      assert Best(State(), j, locked);
      var row := jobs[j];
      var ticket := Ticket(j, log[j].retries, row.attempts + 1, row.maxAttempts);
      jobs := jobs[j := row.(status := Processing, attempts := row.attempts + 1, lockedBy := Some(calls[call].worker))];
      log := log[j := log[j].(claims := log[j].claims + 1)];
      calls := calls[call := calls[call].(phase := Claimed(ticket))];
      return Some(ticket);
    }

    /** A job this worker is already running is dropped without an outcome. */
    method BeginExecution(call: CallId) returns (executing: bool)
      requires Live(State(), call) && calls[call].phase.Claimed?
      modifies this
      ensures State() == Apply(old(State()), Begin(call))
      ensures executing <==> Runs(State(), call, old(calls[call].phase.ticket.job))
    {
      var w := calls[call].worker;
      var ticket := calls[call].phase.ticket;
      if ticket.job in workers[w].running {
        calls := calls - {call};
        return false;
      }
      workers := workers[w := workers[w].(running := workers[w].running + {ticket.job})];
      calls := calls[call := calls[call].(phase := Executing(ticket))];
      return true;
    }

    /** The completion is written by id alone; unless it is acknowledged the caller goes on to WriteFailure. */
    method WriteCompletion(call: CallId, acknowledged: bool)
      requires Live(State(), call) && calls[call].phase.Executing?
      modifies this
      ensures State() == Apply(old(State()), if acknowledged then Complete(call) else CompleteUnacked(call))
      ensures var job := old(calls[call].phase.ticket.job);
        jobs == if job in old(jobs) then old(jobs)[job := old(jobs)[job].(status := Completed, lockedBy := None)] else old(jobs)
    {
      var job := calls[call].phase.ticket.job;
      if job in jobs { jobs := jobs[job := jobs[job].(status := Completed, lockedBy := None)]; }
      if acknowledged { calls := calls[call := calls[call].(phase := Settled(job))]; }
    }

    /** Dead-letters the last attempt, re-queues any other with backoff; `written` is false if the database refused. */
    method WriteFailure(call: CallId, written: bool)
      requires Live(State(), call) && calls[call].phase.Executing? && calls[call].phase.ticket.job in log
      modifies this
      ensures State() == Apply(old(State()), if written then Fail(call) else FailUnwritten(call))
      ensures var t := old(calls[call].phase.ticket);
        written && t.job in old(jobs) && t.attempt > 0 ==>
          && t.job in jobs
          && jobs[t.job] ==
               if t.attempt >= t.maxAttempts then old(jobs)[t.job].(status := DeadLetter, lockedBy := None)
               else old(jobs)[t.job].(status := Queued, lockedBy := None,
                                      availableAt := now + if t.attempt <= 6 then WAITS[t.attempt - 1] else 60_000)
    {
      var t := calls[call].phase.ticket;
      if t.attempt > 0 { BackoffTable(t.attempt); }
      if written && t.job in jobs {
        if t.attempt >= t.maxAttempts {
          jobs := jobs[t.job := jobs[t.job].(status := DeadLetter, lockedBy := None)];
        } else {
          jobs := jobs[t.job := jobs[t.job].(status := Queued, availableAt := now + Backoff(t.attempt), lockedBy := None)];
          log := log[t.job := log[t.job].(paid := log[t.job].paid + {(t.round, t.attempt)})];
        }
      }
      calls := calls[call := calls[call].(phase := Settled(t.job))];
    }

    method Release(call: CallId)
      requires Live(State(), call) && calls[call].phase.Settled?
      modifies this
      ensures State() == Apply(old(State()), Finish(call))
    {
      var w := calls[call].worker;
      workers := workers[w := workers[w].(running := workers[w].running - {calls[call].phase.job})];
      calls := calls - {call};
    }

    /** Only a dead-lettered row is retried; anything else is reported as not found. */
    method RetryJob(job: JobId) returns (found: bool)
      requires jobs.Keys <= log.Keys
      modifies this
      ensures found == Enabled(old(State()), Retry(job))
      ensures State() == if found then Apply(old(State()), Retry(job)) else old(State())
      ensures found <==> job in old(jobs) && old(jobs)[job].status == DeadLetter
      ensures found ==>
        jobs == old(jobs)[job := old(jobs)[job].(status := Queued, attempts := 0, availableAt := now, lockedBy := None)]
    {
      if job !in jobs || jobs[job].status != DeadLetter { return false; }
      jobs := jobs[job := jobs[job].(status := Queued, attempts := 0, availableAt := now, lockedBy := None)];
      log := log[job := log[job].(retries := log[job].retries + 1)];
      return true;
    }
  }
}
