/**
 * The bounded queue that delivers alert events to a webhook. The delivery loop
 * gives up control while it waits for a response, for a retry delay and
 * between the end of a delivery and the removal of the head of the queue.
 */
module AlertWebhook {
  import opened JsText

  type Event = Text

  const CAPACITY := 1_000
  const LAST_ATTEMPT := 3

  /** Where a delivery loop waits; `index` counts accepted events and names the one in flight. */
  datatype Flight =
    | Fetching(index: nat, attempt: nat)
    | Delaying(index: nat, attempt: nat)
    | Delivered(index: nat)
    | Exhausted(index: nat)

  /**
   * What has happened to the events: `accepted` holds every event put into the queue, `removed` of which have
   * left it again. The lists hold indices: delivered, removed after a delivery, removed for lack of room.
   */
  datatype Ledger = Ledger(accepted: seq<Event>, removed: nat, delivered: seq<nat>, shifted: seq<nat>, dropped: seq<nat>)

  datatype State = State(
    configured: bool, running: bool, draining: bool, retryTimer: bool, queue: seq<Event>, loops: seq<Flight>, ledger: Ledger)

  function Start0(configured: bool): State { State(configured, false, false, false, [], [], Ledger([], 0, [], [], [])) }

  function Accept(l: Ledger, e: Event): Ledger { l.(accepted := l.accepted + [e]) }

  function DropHead(l: Ledger): Ledger { l.(removed := l.removed + 1, dropped := l.dropped + [l.removed]) }

  function ShiftHead(l: Ledger): Ledger { l.(removed := l.removed + 1, shifted := l.shifted + [l.removed]) }

  function Deliver(l: Ledger, i: nat): Ledger { l.(delivered := l.delivered + [i]) }

  /** The head of the loop: take up the first event or finish. */
  function Loop(s: State): State {
    if s.running && |s.queue| > 0 then s.(loops := s.loops + [Fetching(s.ledger.removed, 0)]) else s.(draining := false)
  }

  function Drain(s: State): State { if s.draining || !s.running then s else Loop(s.(draining := true)) }

  function MakeRoom(s: State): State {
    if |s.queue| >= CAPACITY then s.(queue := s.queue[1..], ledger := DropHead(s.ledger)) else s
  }

  function Push(s: State, e: Event): State { s.(queue := s.queue + [e], ledger := Accept(s.ledger, e)) }

  function Enqueue(s: State, e: Event): State {
    if !s.configured then s
    else
      var t := Push(MakeRoom(s), e);
      if t.running then Drain(t) else t
  }

  function EnqueueAll(s: State, events: seq<Event>): State
    decreases |events|
  {
    if |events| == 0 then s else EnqueueAll(Enqueue(s, events[0]), events[1..])
  }

  datatype Step = Put(e: Event) | Start(replay: seq<Event>) | Stop | Respond(k: nat, ok: bool) | DelayOver(k: nat)
    | Resume(k: nat) | TimerFires

  predicate Enabled(s: State, step: Step) {
    match step
    case Put(_) => true
    case Start(_) => true
    case Stop => true
    case Respond(k, _) => k < |s.loops| && s.loops[k].Fetching?
    case DelayOver(k) => k < |s.loops| && s.loops[k].Delaying?
    case Resume(k) => k < |s.loops| && (s.loops[k].Delivered? || s.loops[k].Exhausted?)
    case TimerFires => s.retryTimer
  }

  function Leave(s: State, k: nat): State
    requires k < |s.loops|
  {
    s.(loops := s.loops[..k] + s.loops[k + 1..])
  }

  /** queue.shift(), then the head of the loop again. */
  function AfterDelivery(s: State, k: nat): State
    requires k < |s.loops|
  {
    var t := Leave(s, k);
    Loop(if |t.queue| == 0 then t else t.(queue := t.queue[1..], ledger := ShiftHead(t.ledger)))
  }

  function Responded(s: State, k: nat, ok: bool): State
    requires k < |s.loops| && s.loops[k].Fetching?
  {
    var f := s.loops[k];
    if ok then s.(loops := s.loops[k := Delivered(f.index)], ledger := Deliver(s.ledger, f.index))
    else s.(loops := s.loops[k := if f.attempt < LAST_ATTEMPT then Delaying(f.index, f.attempt) else Exhausted(f.index)])
  }

  function Apply(s: State, step: Step): State
    requires Enabled(s, step)
  {
    match step
    case Put(e) => Enqueue(s, e)
    case Start(replay) => EnqueueAll(s.(running := true), replay)
    case Stop => s.(running := false, retryTimer := false)
    case Respond(k, ok) => Responded(s, k, ok)
    case DelayOver(k) => s.(loops := s.loops[k := Fetching(s.loops[k].index, s.loops[k].attempt + 1)])
    case Resume(k) =>
      if s.loops[k].Delivered? then AfterDelivery(s, k) else Leave(s, k).(draining := false, retryTimer := true)
    case TimerFires => if s.running then Drain(s.(retryTimer := false)) else s.(retryTimer := false)
  }

  ghost predicate Run(s: State, steps: seq<Step>, t: State)
    decreases |steps|
  {
    if |steps| == 0 then s == t else Enabled(s, steps[0]) && Run(Apply(s, steps[0]), steps[1..], t)
  }

  // ----------------------------------------------------------- the class

  class Dispatcher {
    const endpoint: Text
    var queue: seq<Event>
    var running: bool
    var draining: bool
    var delivered: nat
    var dropped: nat
    var retryTimer: bool
    ghost var state: State

    ghost predicate Valid()
      reads this
    {
      && state.configured == (endpoint != []) && state.queue == queue && state.running == running
      && state.draining == draining && state.retryTimer == retryTimer
      && |state.ledger.delivered| == delivered && |state.ledger.dropped| == dropped
    }

    constructor (endpoint: Text)
      ensures Valid() && state == Start0(endpoint != [])
    {
      this.endpoint := endpoint;
      queue, running, draining, delivered, dropped, retryTimer := [], false, false, 0, 0, false;
      state := Start0(endpoint != []);
    }

    method Start(replay: seq<Event>)
      requires Valid()
      modifies this
      ensures Valid() && state == Apply(old(state), Step.Start(replay))
    {
      running := true;
      state := state.(running := true);
      for i := 0 to |replay|
        invariant Valid() && EnqueueAll(state, replay[i..]) == Apply(old(state), Step.Start(replay))
      {
        assert replay[i..][0] == replay[i] && replay[i..][1..] == replay[i + 1..];
        Enqueue(replay[i]);
      }
    }

    method Stop()
      requires Valid()
      modifies this
      ensures Valid() && state == Apply(old(state), Step.Stop)
    {
      running, retryTimer := false, false;
      state := Apply(state, Step.Stop);
    }

    method Enqueue(event: Event)
      requires Valid()
      modifies this
      ensures Valid() && state == Apply(old(state), Put(event))
    {
      if endpoint == [] { return; }
      ghost var room := MakeRoom(state);
      if |queue| >= CAPACITY {
        queue := queue[1..];
        dropped := dropped + 1;
      }
      queue := queue + [event];
      state := Push(room, event);
      if running { StartDrain(); }
    }

    /** drain() up to its first await. */
    method StartDrain()
      requires Valid()
      modifies this
      ensures Valid() && state == Drain(old(state))
    {
      if draining || !running { return; }
      draining := true;
      state := state.(draining := true);
      LoopHead();
    }

    method LoopHead()
      requires Valid() && draining
      modifies this
      ensures Valid() && state == Loop(old(state))
    {
      state := Loop(state);
      if !(running && |queue| > 0) { draining := false; }
    }

    /** A response arrives, or the request fails or times out. */
    method OnResponse(ghost k: nat, ok: bool)
      requires Valid() && Enabled(state, Respond(k, ok))
      modifies this
      ensures Valid() && state == Apply(old(state), Respond(k, ok))
    {
      if ok { delivered := delivered + 1; }
      state := Apply(state, Respond(k, ok));
    }

    /** The loop goes on after deliver() has returned. */
    method OnDelivered(ghost k: nat)
      requires Valid() && Enabled(state, Resume(k)) && state.loops[k].Delivered? && draining
      modifies this
      ensures Valid() && state == Apply(old(state), Resume(k))
    {
      ghost var t := Leave(state, k);
      if |queue| > 0 {
        queue := queue[1..];
        t := t.(queue := t.queue[1..], ledger := ShiftHead(t.ledger));
      }
      state := t;
      LoopHead();
    }

    /** The loop goes on after deliver() has thrown. */
    method OnExhausted(ghost k: nat)
      requires Valid() && Enabled(state, Resume(k)) && state.loops[k].Exhausted?
      modifies this
      ensures Valid() && state == Apply(old(state), Resume(k))
    {
      if !retryTimer { retryTimer := true; }
      draining := false;
      state := Apply(state, Resume(k));
    }

    method OnTimer()
      requires Valid() && Enabled(state, TimerFires)
      modifies this
      ensures Valid() && state == Apply(old(state), TimerFires)
    {
      retryTimer := false;
      state := state.(retryTimer := false);
      if running { StartDrain(); }
    }
  }

  // ------------------------------------------------------------ invariant

  predicate Ascending(s: seq<nat>) { forall i, j :: 0 <= i < j < |s| ==> s[i] < s[j] }

  /** Each index below `removed` has left the queue in exactly one way. */
  ghost predicate Removals(l: Ledger) {
    && |l.shifted| + |l.dropped| == l.removed && Ascending(l.shifted) && Ascending(l.dropped)
    && (forall i: nat :: i in l.shifted || i in l.dropped <==> i < l.removed)
    && (forall i <- l.shifted :: i !in l.dropped)
  }

  /**
   * The k-th delivery removed the k-th shifted event, at or behind the
   * delivered one; in the second case the delivered one had been dropped.
   */
  ghost predicate Pairs(l: Ledger) {
    && |l.shifted| <= |l.delivered|
    && (forall k :: 0 <= k < |l.shifted| ==> l.delivered[k] <= l.shifted[k])
    && (forall k :: 0 <= k < |l.shifted| && l.delivered[k] != l.shifted[k] ==> l.delivered[k] in l.dropped)
    && (forall k :: 0 < k < |l.delivered| && k <= |l.shifted| ==> l.shifted[k - 1] < l.delivered[k])
  }

  /** Event f is being delivered: it was the head of the queue, and since then events left the queue only by drops. */
  ghost predicate InFlight(l: Ledger, f: nat) {
    f <= l.removed && (forall i: nat :: f <= i < l.removed ==> i in l.dropped) && forall i <- l.shifted :: i < f
  }

  ghost predicate LedgerInv(l: Ledger) { Removals(l) && Pairs(l) }

  ghost predicate QueueInv(queue: seq<Event>, l: Ledger) {
    |queue| <= CAPACITY && l.removed <= |l.accepted| && queue == l.accepted[l.removed..]
  }

  ghost predicate LoopInv(s: State) {
    var l := s.ledger;
    if |s.loops| == 0 then !s.draining && |l.delivered| == |l.shifted|
    else
      var f := s.loops[0];
      && |s.loops| == 1 && s.draining && |s.queue| > 0 && InFlight(l, f.index)
      && (if f.Delivered? then |l.delivered| == |l.shifted| + 1 && l.delivered[|l.shifted|] == f.index
          else |l.delivered| == |l.shifted|)
  }

  ghost predicate Inv(s: State) { LedgerInv(s.ledger) && QueueInv(s.queue, s.ledger) && LoopInv(s) }

  lemma AscendingAppend(s: seq<nat>, n: nat)
    requires Ascending(s) && forall i <- s :: i < n
    ensures Ascending(s + [n])
  {
    forall i, j | 0 <= i < j < |s + [n]| ensures (s + [n])[i] < (s + [n])[j] {
      assert s[i] in s;
    }
  }

  lemma DropKeepsLedger(l: Ledger, f: nat)
    requires LedgerInv(l)
    ensures LedgerInv(DropHead(l)) && (InFlight(l, f) ==> InFlight(DropHead(l), f))
  {
    var t := DropHead(l);
    AscendingAppend(l.dropped, l.removed);
    assert forall i: nat :: i in t.dropped <==> i in l.dropped || i == l.removed;
  }

  lemma NewFlight(l: Ledger)
    requires LedgerInv(l)
    ensures InFlight(l, l.removed)
  {
  }

  lemma DeliverKeepsRemovals(l: Ledger, f: nat)
    ensures Removals(l) ==> Removals(Deliver(l, f))
    ensures InFlight(l, f) ==> InFlight(Deliver(l, f), f)
  {
  }

  lemma DeliverKeepsPairs(l: Ledger, f: nat)
    requires Pairs(l) && |l.delivered| == |l.shifted| && forall i <- l.shifted :: i < f
    ensures Pairs(Deliver(l, f))
  {
    var n, t := |l.shifted|, Deliver(l, f);
    forall k | 0 <= k < n ensures t.delivered[k] == l.delivered[k] {}
    forall k | 0 < k < |t.delivered| && k <= n ensures t.shifted[k - 1] < t.delivered[k] {
      if k == n { assert l.shifted[n - 1] in l.shifted; } else { assert t.delivered[k] == l.delivered[k]; }
    }
  }

  lemma DeliverKeepsLedger(l: Ledger, f: nat)
    requires LedgerInv(l) && InFlight(l, f) && |l.delivered| == |l.shifted|
    ensures LedgerInv(Deliver(l, f)) && InFlight(Deliver(l, f), f)
  {
    DeliverKeepsRemovals(l, f);
    DeliverKeepsPairs(l, f);
    hide Removals, Pairs, InFlight;
  }

  lemma ShiftKeepsRemovals(l: Ledger)
    requires Removals(l)
    ensures Removals(ShiftHead(l))
  {
    var t := ShiftHead(l);
    AscendingAppend(l.shifted, l.removed);
    assert forall i: nat :: i in t.shifted <==> i in l.shifted || i == l.removed;
  }

  lemma ShiftKeepsLedger(l: Ledger, f: nat)
    requires LedgerInv(l) && InFlight(l, f) && |l.delivered| == |l.shifted| + 1 && l.delivered[|l.shifted|] == f
    ensures LedgerInv(ShiftHead(l)) && |ShiftHead(l).delivered| == |ShiftHead(l).shifted|
  {
    ShiftKeepsRemovals(l);
    hide Removals;
    var n, t := |l.shifted|, ShiftHead(l);
    forall k | 0 <= k < |t.shifted|
      ensures t.delivered[k] <= t.shifted[k] && (t.delivered[k] != t.shifted[k] ==> t.delivered[k] in t.dropped)
    {
      if k == n { assert t.shifted[n] == l.removed; } else { assert t.shifted[k] == l.shifted[k]; }
    }
    forall k | 0 < k < |t.delivered| ensures t.shifted[k - 1] < t.delivered[k] {
      assert t.shifted[k - 1] == l.shifted[k - 1];
    }
  }

  lemma AcceptKeepsLedger(l: Ledger, e: Event, f: nat)
    requires LedgerInv(l)
    ensures LedgerInv(Accept(l, e)) && (InFlight(l, f) ==> InFlight(Accept(l, e), f))
  {
  }

  lemma LoopKeepsInv(s: State)
    requires LedgerInv(s.ledger) && QueueInv(s.queue, s.ledger) && s.loops == [] && |s.ledger.delivered| == |s.ledger.shifted|
    requires s.draining
    ensures Inv(Loop(s))
  {
    hide LedgerInv, QueueInv, InFlight;
    NewFlight(s.ledger);
  }

  lemma DrainKeepsInv(s: State)
    requires Inv(s)
    ensures Inv(Drain(s))
  {
    hide LedgerInv, QueueInv, InFlight;
    if !s.draining && s.running { LoopKeepsInv(s.(draining := true)); }
  }

  lemma PutKeepsInv(s: State, e: Event)
    requires Inv(s)
    ensures Inv(Push(MakeRoom(s), e))
  {
    hide LedgerInv, QueueInv, InFlight, LoopInv;
    var room := MakeRoom(s);
    QueueMoves(s, e);
    LedgerMoves(s, e, 0);
    assert LoopInv(Push(room, e)) by { LoopMoves(s, e); }
  }

  lemma LedgerMoves(s: State, e: Event, f: nat)
    requires LedgerInv(s.ledger)
    ensures var l := Push(MakeRoom(s), e).ledger; LedgerInv(l) && (InFlight(s.ledger, f) ==> InFlight(l, f))
  {
    hide LedgerInv, InFlight;
    DropKeepsLedger(s.ledger, f);
    AcceptKeepsLedger(MakeRoom(s).ledger, e, f);
  }

  lemma LoopMoves(s: State, e: Event)
    requires LedgerInv(s.ledger) && LoopInv(s)
    ensures LoopInv(Push(MakeRoom(s), e))
  {
    hide LedgerInv, InFlight;
    if |s.loops| > 0 { LedgerMoves(s, e, s.loops[0].index); }
  }

  lemma QueueMoves(s: State, e: Event)
    requires QueueInv(s.queue, s.ledger)
    ensures QueueInv(Push(MakeRoom(s), e).queue, Push(MakeRoom(s), e).ledger)
  {
  }

  lemma EnqueueKeepsInv(s: State, e: Event)
    requires Inv(s)
    ensures Inv(Enqueue(s, e))
  {
    hide Inv, Push, MakeRoom, Drain;
    if s.configured {
      PutKeepsInv(s, e);
      DrainKeepsInv(Push(MakeRoom(s), e));
    }
  }

  lemma {:induction false} EnqueueAllKeepsInv(s: State, events: seq<Event>)
    requires Inv(s)
    ensures Inv(EnqueueAll(s, events))
    decreases |events|
  {
    hide Inv, Enqueue;
    if |events| > 0 {
      EnqueueKeepsInv(s, events[0]);
      EnqueueAllKeepsInv(Enqueue(s, events[0]), events[1..]);
    }
  }

  lemma RespondKeepsInv(s: State, k: nat, ok: bool)
    requires Inv(s) && k < |s.loops| && s.loops[k].Fetching?
    ensures Inv(Responded(s, k, ok))
  {
    hide LedgerInv, QueueInv, InFlight;
    if ok { DeliverKeepsLedger(s.ledger, s.loops[k].index); }
    assert QueueInv(s.queue, Deliver(s.ledger, s.loops[k].index)) by { DeliverKeepsQueue(s.queue, s.ledger, s.loops[k].index); }
  }

  lemma DeliverKeepsQueue(queue: seq<Event>, l: Ledger, i: nat)
    requires QueueInv(queue, l)
    ensures QueueInv(queue, Deliver(l, i))
  {
  }

  lemma ShiftKeepsInv(s: State, k: nat)
    requires Inv(s) && k < |s.loops| && s.loops[k].Delivered?
    ensures Inv(AfterDelivery(s, k))
  {
    var t := Leave(s, k).(queue := s.queue[1..], ledger := ShiftHead(s.ledger));
    assert QueueInv(t.queue, t.ledger);
    hide LedgerInv, QueueInv, InFlight;
    ShiftKeepsLedger(s.ledger, s.loops[0].index);
    assert t.loops == [];
    LoopKeepsInv(t);
  }

  lemma GiveUpKeepsInv(s: State, k: nat)
    requires Inv(s) && k < |s.loops| && s.loops[k].Exhausted?
    ensures Inv(Leave(s, k).(draining := false, retryTimer := true))
  {
    hide LedgerInv, QueueInv, InFlight;
    assert Leave(s, k).loops == [];
  }

  lemma StepKeepsInv(s: State, step: Step)
    requires Inv(s) && Enabled(s, step)
    ensures Inv(Apply(s, step))
  {
    hide LedgerInv, QueueInv, InFlight;
    match step
    case Put(e) => EnqueueKeepsInv(s, e);
    case Start(replay) => EnqueueAllKeepsInv(s.(running := true), replay);
    case Stop =>
    case Respond(k, ok) => RespondKeepsInv(s, k, ok);
    case DelayOver(k) =>
    case Resume(k) =>
      if s.loops[k].Delivered? { ShiftKeepsInv(s, k); } else { GiveUpKeepsInv(s, k); }
    case TimerFires => DrainKeepsInv(s.(retryTimer := false));
  }

  lemma {:induction false} RunKeepsInv(s: State, steps: seq<Step>, t: State)
    requires Inv(s) && Run(s, steps, t)
    ensures Inv(t)
    decreases |steps|
  {
    hide Inv, Apply, Enabled;
    if |steps| > 0 {
      StepKeepsInv(s, steps[0]);
      RunKeepsInv(Apply(s, steps[0]), steps[1..], t);
    }
  }

  lemma StartInv(configured: bool)
    ensures Inv(Start0(configured))
  {
    EmptyInv(Start0(configured));
    hide Inv;
  }

  lemma EmptyInv(s: State)
    requires s.queue == [] && s.loops == [] && !s.draining && s.ledger == Ledger([], 0, [], [], [])
    ensures Inv(s)
  {
    hide LedgerInv, InFlight;
    EmptyLedger(s.ledger);
    assert QueueInv(s.queue, s.ledger);
    assert LoopInv(s);
  }

  lemma EmptyLedger(l: Ledger)
    requires l.removed == 0 && l.delivered == [] && l.shifted == [] && l.dropped == []
    ensures LedgerInv(l)
  {
    assert Removals(l);
    assert Pairs(l);
  }

  lemma ReachableInv(configured: bool, steps: seq<Step>, s: State)
    requires Run(Start0(configured), steps, s)
    ensures Inv(s)
  {
    hide *;
    StartInv(configured);
    RunKeepsInv(Start0(configured), steps, s);
  }

  // --------------------------------------------------------- main results

  /** Delivered but not yet taken from the queue. */
  predicate Unshifted(s: State) { |s.loops| == 1 && s.loops[0].Delivered? }

  /** The queue is bounded, at most one delivery loop is active, and the flag says whether one is. */
  lemma BoundedAndSingle(configured: bool, steps: seq<Step>, s: State)
    requires Run(Start0(configured), steps, s)
    ensures |s.queue| <= 1_000 && |s.loops| == if s.draining then 1 else 0
  {
    ReachableInv(configured, steps, s);
  }

  /** Every delivery under way afterwards was under way before. */
  predicate TakesUpNothing(s: State, t: State) {
    forall f <- t.loops :: exists g <- s.loops :: g.index == f.index
  }

  /** A stopped dispatcher finishes the delivery it is in and takes up no event until it is started again. */
  lemma StoppedTakesUpNothing(s: State, step: Step)
    requires Enabled(s, step) && !s.running && !step.Start?
    ensures !Apply(s, step).running && TakesUpNothing(s, Apply(s, step))
  {
    match step
    case Put(e) =>
    case Stop =>
    case Respond(k, ok) => SameFlights(s, Apply(s, step));
    case DelayOver(k) => SameFlights(s, Apply(s, step));
    case Resume(k) => FewerFlights(s, k, Apply(s, step));
    case TimerFires =>
  }

  lemma SameFlights(s: State, t: State)
    requires |t.loops| == |s.loops| && forall i :: 0 <= i < |s.loops| ==> t.loops[i].index == s.loops[i].index
    ensures TakesUpNothing(s, t)
  {
    forall f | f in t.loops ensures exists g <- s.loops :: g.index == f.index {
      var i :| 0 <= i < |t.loops| && t.loops[i] == f;
      assert s.loops[i] in s.loops;
    }
  }

  lemma FewerFlights(s: State, k: nat, t: State)
    requires k < |s.loops| && t.loops == s.loops[..k] + s.loops[k + 1..]
    ensures TakesUpNothing(s, t)
  {
    forall f | f in t.loops ensures exists g <- s.loops :: g.index == f.index { assert f in s.loops; }
  }

  /** A delivery makes its first to fourth attempt, and waits after the first three only. */
  predicate AttemptsOk(s: State) {
    forall k :: 0 <= k < |s.loops| ==>
      (s.loops[k].Fetching? ==> s.loops[k].attempt <= 3) && (s.loops[k].Delaying? ==> s.loops[k].attempt <= 2)
  }

  lemma EnqueueKeepsAttempts(s: State, e: Event)
    requires AttemptsOk(s)
    ensures AttemptsOk(Enqueue(s, e))
  {
  }

  lemma {:induction false} EnqueueAllKeepsAttempts(s: State, events: seq<Event>)
    requires AttemptsOk(s)
    ensures AttemptsOk(EnqueueAll(s, events))
    decreases |events|
  {
    hide Enqueue, AttemptsOk;
    if |events| > 0 {
      EnqueueKeepsAttempts(s, events[0]);
      EnqueueAllKeepsAttempts(Enqueue(s, events[0]), events[1..]);
    }
  }

  lemma LoopKeepsAttempts(s: State)
    requires AttemptsOk(s)
    ensures AttemptsOk(Loop(s)) && AttemptsOk(Drain(s))
  {
  }

  lemma ResumeKeepsAttempts(s: State, k: nat)
    requires AttemptsOk(s) && Enabled(s, Resume(k))
    ensures AttemptsOk(Apply(s, Resume(k)))
  {
    assert AttemptsOk(Leave(s, k));
    if s.loops[k].Delivered? {
      var t := Leave(s, k);
      LoopKeepsAttempts(if |t.queue| == 0 then t else t.(queue := t.queue[1..], ledger := ShiftHead(t.ledger)));
    }
    hide Loop;
  }

  lemma StepKeepsAttempts(s: State, step: Step)
    requires AttemptsOk(s) && Enabled(s, step)
    ensures AttemptsOk(Apply(s, step))
  {
    hide EnqueueAll, Enqueue, Drain, AfterDelivery;
    match step
    case Put(e) => EnqueueKeepsAttempts(s, e);
    case Start(replay) => EnqueueAllKeepsAttempts(s.(running := true), replay);
    case Resume(k) => ResumeKeepsAttempts(s, k);
    case TimerFires => LoopKeepsAttempts(s.(retryTimer := false));
    case _ =>
  }

  lemma {:induction false} RunKeepsAttempts(s: State, steps: seq<Step>, t: State)
    requires AttemptsOk(s) && Run(s, steps, t)
    ensures AttemptsOk(t)
    decreases |steps|
  {
    hide Apply, Enabled, AttemptsOk;
    if |steps| > 0 {
      StepKeepsAttempts(s, steps[0]);
      RunKeepsAttempts(Apply(s, steps[0]), steps[1..], t);
    }
  }

  /** In every run a failed attempt ends the delivery if it was the fourth, and is followed by a wait otherwise. */
  lemma GivesUpExactlyAfterFour(configured: bool, steps: seq<Step>, s: State, k: nat)
    requires Run(Start0(configured), steps, s) && k < |s.loops| && s.loops[k].Fetching?
    ensures s.loops[k].attempt <= 3
    ensures var f, t := s.loops[k], Apply(s, Respond(k, false));
      && (t.loops[k] == Exhausted(f.index) <==> f.attempt == 3)
      && (t.loops[k] == Delaying(f.index, f.attempt) <==> f.attempt < 3)
      && t == s.(loops := s.loops[k := t.loops[k]])
  {
    RunKeepsAttempts(Start0(configured), steps, s);
  }

  /** The counters balance, a head that is delivered but still queued counted twice. */
  lemma CountersBalance(configured: bool, steps: seq<Step>, s: State)
    requires Run(Start0(configured), steps, s)
    ensures var l := s.ledger;
      |l.accepted| + (if Unshifted(s) then 1 else 0) == |l.delivered| + |l.dropped| + |s.queue|
  {
    ReachableInv(configured, steps, s);
  }

  function Pick(accepted: seq<Event>, indices: seq<nat>): seq<Event>
    requires forall k :: 0 <= k < |indices| ==> indices[k] < |accepted|
  {
    seq(|indices|, k requires 0 <= k < |indices| => accepted[indices[k]])
  }

  lemma {:induction false} AscendingAtLeast(s: seq<nat>, k: nat)
    requires Ascending(s) && k < |s|
    ensures k <= s[k]
  {
    if k > 0 { AscendingAtLeast(s, k - 1); }
  }

  lemma {:induction false} AscendingAtMost(s: seq<nat>, n: nat, k: nat)
    requires Ascending(s) && (forall i <- s :: i < n) && k < |s|
    ensures s[k] + (|s| - k) <= n
    decreases |s| - k
  {
    assert s[k] in s;
    if k + 1 < |s| { AscendingAtMost(s, n, k + 1); }
  }

  lemma ShiftsWithoutDrops(l: Ledger, k: nat)
    requires LedgerInv(l) && l.dropped == [] && k < |l.shifted|
    ensures l.delivered[k] == l.shifted[k] == k
  {
    AscendingAtLeast(l.shifted, k);
    AscendingAtMost(l.shifted, l.removed, k);
  }

  /** While nothing has been dropped, the settled deliveries and then the queue are the accepted events in order. */
  lemma InOrderWithoutDrops(configured: bool, steps: seq<Step>, s: State)
    requires Run(Start0(configured), steps, s) && s.ledger.dropped == []
    ensures var l := s.ledger;
      && |l.shifted| <= |l.delivered| && (forall k :: 0 <= k < |l.shifted| ==> l.delivered[k] < |l.accepted|)
      && Pick(l.accepted, l.delivered[..|l.shifted|]) + s.queue == l.accepted
      && |l.delivered| == |l.shifted| + (if Unshifted(s) then 1 else 0)
      && (Unshifted(s) ==>
          |s.queue| > 0 && l.delivered[|l.shifted|] < |l.accepted| && l.accepted[l.delivered[|l.shifted|]] == s.queue[0])
  {
    hide Run;
    ReachableInv(configured, steps, s);
    SettledInOrder(s);
    InFlightIsHead(s);
  }

  lemma SettledInOrder(s: State)
    requires Inv(s) && s.ledger.dropped == []
    ensures var l := s.ledger;
      && |l.shifted| <= |l.delivered| && (forall k :: 0 <= k < |l.shifted| ==> l.delivered[k] < |l.accepted|)
      && Pick(l.accepted, l.delivered[..|l.shifted|]) + s.queue == l.accepted
  {
    var l := s.ledger;
    LedgerCounts(l);
    hide LoopInv, InFlight, Removals, LedgerInv;
    forall k | 0 <= k < |l.shifted| ensures l.delivered[k] == k { ShiftsWithoutDrops(l, k); }
    assert Pick(l.accepted, l.delivered[..|l.shifted|]) == l.accepted[..|l.shifted|];
  }

  lemma LedgerCounts(l: Ledger)
    requires LedgerInv(l)
    ensures |l.shifted| + |l.dropped| == l.removed && |l.shifted| <= |l.delivered|
  {
  }

  lemma NothingDropped(l: Ledger, f: nat)
    requires InFlight(l, f) && l.dropped == []
    ensures f == l.removed
  {
    assert f !in l.dropped;
  }

  lemma InFlightIsHead(s: State)
    requires Inv(s) && s.ledger.dropped == []
    ensures var l := s.ledger;
      && |l.delivered| == |l.shifted| + (if Unshifted(s) then 1 else 0)
      && (Unshifted(s) ==>
          |s.queue| > 0 && l.delivered[|l.shifted|] < |l.accepted| && l.accepted[l.delivered[|l.shifted|]] == s.queue[0])
  {
    hide LedgerInv, Removals, Pairs;
    if Unshifted(s) { NothingDropped(s.ledger, s.loops[0].index); }
  }

  /** Accepted, gone from the queue, and neither delivered nor counted as dropped. */
  predicate Lost(l: Ledger, i: nat) { i < l.removed && i !in l.delivered && i !in l.dropped }

  predicate DeliveredAndDropped(l: Ledger, i: nat) { i in l.delivered && i in l.dropped }

  lemma {:induction false} DeliveriesAscend(l: Ledger, i: nat, j: nat)
    requires LedgerInv(l) && |l.delivered| <= |l.shifted| + 1 && i < j < |l.delivered|
    ensures l.delivered[i] <= l.shifted[i] < l.delivered[j]
    decreases j
  {
    if i < j - 1 { DeliveriesAscend(l, i, j - 1); }
  }

  /** No event is delivered twice, and deliveries keep the order of acceptance. */
  lemma DeliveredOnceInOrder(configured: bool, steps: seq<Step>, s: State)
    requires Run(Start0(configured), steps, s)
    ensures Ascending(s.ledger.delivered)
  {
    ReachableInv(configured, steps, s);
    var l := s.ledger;
    forall i, j | 0 <= i < j < |l.delivered| ensures l.delivered[i] < l.delivered[j] {
      DeliveriesAscend(l, i, j);
    }
  }

  /** The event a settled delivery took from the queue in place of its own is lost. */
  lemma MisshiftLoses(l: Ledger, k: nat)
    requires LedgerInv(l) && |l.delivered| <= |l.shifted| + 1 && k < |l.shifted| && l.delivered[k] != l.shifted[k]
    ensures Lost(l, l.shifted[k]) && DeliveredAndDropped(l, l.delivered[k])
  {
    var i := l.shifted[k];
    assert i in l.shifted && l.delivered[k] in l.delivered;
    forall j | 0 <= j < |l.delivered| ensures l.delivered[j] != i {
      if j < k { DeliveriesAscend(l, j, k); } else if j > k { DeliveriesAscend(l, k, j); }
    }
  }

  lemma LostMeansMisshift(l: Ledger, i: nat) returns (k: nat)
    requires LedgerInv(l) && Lost(l, i)
    ensures k < |l.shifted| && l.shifted[k] == i && l.delivered[k] != i
  {
    assert i in l.shifted;
    k :| 0 <= k < |l.shifted| && l.shifted[k] == i;
    assert l.delivered[k] in l.delivered;
  }

  /**
   * Between deliveries an event has been lost exactly when some delivered
   * event was also dropped, that is, when a full queue was pushed out from
   * under a delivery that then succeeded.
   */
  lemma LostExactlyWhenDroppedInFlight(configured: bool, steps: seq<Step>, s: State)
    requires Run(Start0(configured), steps, s) && !Unshifted(s)
    ensures (exists i :: Lost(s.ledger, i)) <==> (exists i :: DeliveredAndDropped(s.ledger, i))
  {
    ReachableInv(configured, steps, s);
    LossesPair(s.ledger);
  }

  lemma LossesPair(l: Ledger)
    requires LedgerInv(l) && |l.delivered| == |l.shifted|
    ensures (exists i :: Lost(l, i)) <==> (exists i :: DeliveredAndDropped(l, i))
  {
    if i: nat :| Lost(l, i) {
      var k := LostMeansMisshift(l, i);
      MisshiftLoses(l, k);
    }
    if i: nat :| DeliveredAndDropped(l, i) {
      var k :| 0 <= k < |l.delivered| && l.delivered[k] == i;
      assert l.shifted[k] in l.shifted;
      MisshiftLoses(l, k);
    }
  }

  /** A delivery is under way whose event has already been pushed out of the queue. */
  predicate Overtaken(s: State) { |s.loops| == 1 && s.loops[0].index < s.ledger.removed }

  /** A step after which an event is lost that was not lost before. */
  ghost predicate Loses(s: State, step: Step)
    requires Enabled(s, step)
  {
    exists i :: Lost(Apply(s, step).ledger, i) && !Lost(s.ledger, i)
  }

  lemma HeadIsThere(l: Ledger)
    requires Removals(l)
    ensures l.removed !in l.dropped && forall i <- l.shifted :: i < l.removed
  {
  }

  lemma ShiftedBefore(l: Ledger, k: nat)
    requires Pairs(l) && (forall i <- l.shifted :: i < l.removed) && k < |l.shifted|
    ensures k < |l.delivered| && l.delivered[k] < l.removed
  {
    assert l.shifted[k] in l.shifted;
  }

  /** Only a delivery under way can have delivered the head already, and no event dropped so far is the head. */
  lemma HeadSettled(l: Ledger, f: nat)
    requires LedgerInv(l) && InFlight(l, f) && |l.delivered| == |l.shifted| + 1 && l.delivered[|l.shifted|] == f
    ensures l.removed in l.delivered <==> f == l.removed
    ensures l.removed !in l.dropped && f <= l.removed
  {
    hide Removals, Pairs;
    HeadIsThere(l);
    assert f in l.delivered;
    forall k | 0 <= k < |l.shifted| ensures l.delivered[k] < l.removed { ShiftedBefore(l, k); }
  }

  /** Removing the head after a delivery loses it exactly when the delivered event was no longer the head. */
  lemma ShiftLosesExactlyWhen(l: Ledger, f: nat)
    requires LedgerInv(l) && InFlight(l, f) && |l.delivered| == |l.shifted| + 1 && l.delivered[|l.shifted|] == f
    ensures Lost(ShiftHead(l), l.removed) <==> f < l.removed
    ensures forall i :: i != l.removed ==> (Lost(ShiftHead(l), i) <==> Lost(l, i))
  {
    HeadSettled(l, f);
    hide LedgerInv, InFlight;
  }

  /** Putting an event into the queue, with or without room, loses none. */
  lemma EnqueueLosesNothing(s: State, e: Event, i: nat)
    requires Inv(s) && Lost(Enqueue(s, e).ledger, i)
    ensures Lost(s.ledger, i)
  {
    if s.configured {
      assert |MakeRoom(s).ledger.dropped| > |s.ledger.dropped| ==>
        MakeRoom(s).ledger.dropped[|s.ledger.dropped|] == s.ledger.removed;
      assert forall j :: j in s.ledger.dropped ==> j in MakeRoom(s).ledger.dropped;
    }
  }

  lemma {:induction false} EnqueueAllLosesNothing(s: State, events: seq<Event>, i: nat)
    requires Inv(s) && Lost(EnqueueAll(s, events).ledger, i)
    ensures Lost(s.ledger, i)
    decreases |events|
  {
    hide Inv, Enqueue, Lost;
    if |events| > 0 {
      EnqueueKeepsInv(s, events[0]);
      EnqueueAllLosesNothing(Enqueue(s, events[0]), events[1..], i);
      EnqueueLosesNothing(s, events[0], i);
    }
  }

  /**
   * A step loses an event exactly when it takes the head from the queue after
   * a delivery whose event has been pushed out in the meantime.
   */
  lemma LosesExactlyWhenOvertaken(s: State, step: Step)
    requires Inv(s) && Enabled(s, step)
    ensures Loses(s, step) <==> step.Resume? && s.loops[step.k].Delivered? && Overtaken(s)
  {
    match step
    case Put(e) =>
      forall i | Lost(Apply(s, step).ledger, i) ensures Lost(s.ledger, i) { EnqueueLosesNothing(s, e, i); }
    case Start(replay) =>
      var t := s.(running := true);
      assert Inv(t) && Apply(s, step) == EnqueueAll(t, replay);
      forall i | Lost(Apply(s, step).ledger, i) ensures Lost(s.ledger, i) { EnqueueAllLosesNothing(t, replay, i); }
    case Respond(k, ok) =>
      assert forall j :: j in s.ledger.delivered ==> j in Deliver(s.ledger, s.loops[k].index).delivered;
    case Resume(k) =>
      if s.loops[k].Delivered? {
        hide LedgerInv, QueueInv, InFlight;
        ShiftLosesExactlyWhen(s.ledger, s.loops[0].index);
        assert Apply(s, step).ledger == ShiftHead(s.ledger);
        assert !Lost(s.ledger, s.ledger.removed);
      }
    case _ =>
  }

  /** A delivery is overtaken by an enqueue, and exactly by one that finds the queue full. */
  lemma OvertakenExactlyByFullQueue(s: State, e: Event)
    requires Inv(s)
    ensures Overtaken(Enqueue(s, e)) <==> Overtaken(s) || (s.configured && |s.loops| == 1 && |s.queue| >= 1_000)
  {
    hide LedgerInv, QueueInv, InFlight;
    if |s.loops| == 1 { InFlightAtMost(s); }
  }

  lemma InFlightAtMost(s: State)
    requires Inv(s) && |s.loops| == 1
    ensures s.loops[0].index <= s.ledger.removed
  {
  }

  /** No other step overtakes a delivery. */
  lemma OvertakenByNothingElse(s: State, step: Step)
    requires Inv(s) && Enabled(s, step) && !step.Put? && !step.Start? && Overtaken(Apply(s, step))
    ensures Overtaken(s)
  {
    hide LedgerInv, QueueInv, InFlight;
  }

  // ------------------------------------------------------- concrete runs

  lemma {:induction false} RunAppend(s: State, steps: seq<Step>, t: State, step: Step)
    requires Run(s, steps, t) && Enabled(t, step)
    ensures Run(s, steps + [step], Apply(t, step))
    decreases |steps|
  {
    hide Apply, Enabled;
    if |steps| == 0 {
      assert ([] + [step])[1..] == [];
    } else {
      assert (steps + [step])[0] == steps[0] && (steps + [step])[1..] == steps[1..] + [step];
      RunAppend(Apply(s, steps[0]), steps[1..], t, step);
    }
  }

  /** A started dispatcher with n events queued, the first of them being delivered. */
  ghost predicate Filled(s: State, n: nat) {
    && s.configured && s.running && s.draining && |s.queue| == n && s.loops == [Fetching(0, 0)]
    && s.ledger == Ledger(s.ledger.accepted, 0, [], [], [])
  }

  lemma {:induction false} FillUp(e: Event, n: nat) returns (steps: seq<Step>, s: State)
    requires 0 < n <= CAPACITY
    ensures Run(Start0(true), steps, s) && Filled(s, n)
  {
    if n == 1 {
      var started := Apply(Start0(true), Start([]));
      RunAppend(Start0(true), [], Start0(true), Start([]));
      RunAppend(Start0(true), [] + [Start([])], started, Put(e));
      steps, s := [] + [Start([])] + [Put(e)], Apply(started, Put(e));
    } else {
      var before, t := FillUp(e, n - 1);
      RunAppend(Start0(true), before, t, Put(e));
      steps, s := before + [Put(e)], Apply(t, Put(e));
    }
  }

  /** Such a loss happens: the queue is full, one more event arrives during a delivery that then succeeds. */
  lemma AFullQueueLosesAnEvent(e: Event) returns (steps: seq<Step>, s: State)
    ensures Run(Start0(true), steps, s) && s.ledger.delivered == [0] && s.ledger.dropped == [0] && Lost(s.ledger, 1)
  {
    var before, t := FillUp(e, CAPACITY);
    var pushed := Apply(t, Put(e));
    assert pushed == t.(queue := t.queue[1..] + [e], ledger := Ledger(t.ledger.accepted + [e], 1, [], [], [0]));
    var answered := Apply(pushed, Respond(0, true));
    assert answered.loops == [Delivered(0)] && answered.ledger.delivered == [0];
    RunAppend(Start0(true), before, t, Put(e));
    RunAppend(Start0(true), before + [Put(e)], pushed, Respond(0, true));
    RunAppend(Start0(true), before + [Put(e)] + [Respond(0, true)], answered, Resume(0));
    steps, s := before + [Put(e)] + [Respond(0, true)] + [Resume(0)], Apply(answered, Resume(0));
  }

  /** Running, with work to do, and nothing that would take it up. */
  predicate Stranded(s: State) { s.running && |s.queue| > 0 && !s.draining && !s.retryTimer }

  /** A start that brings no events and finds no loop at work on a waiting queue. */
  predicate IdleStart(s: State, step: Step) {
    step.Start? && !(s.configured && |step.replay| > 0) && !s.draining && |s.queue| > 0 && !s.retryTimer
  }

  lemma {:induction false} EnqueueAllDrains(s: State, events: seq<Event>)
    requires s.running && s.configured && (|events| > 0 || !Stranded(s))
    ensures !Stranded(EnqueueAll(s, events)) && EnqueueAll(s, events).running && EnqueueAll(s, events).configured
    decreases |events|
  {
    if |events| > 0 { EnqueueAllDrains(Enqueue(s, events[0]), events[1..]); }
  }

  lemma {:induction false} NothingEnqueued(s: State, events: seq<Event>)
    requires !s.configured
    ensures EnqueueAll(s, events) == s
    decreases |events|
  {
    if |events| > 0 { NothingEnqueued(s, events[1..]); }
  }

  /** A step strands a queue that was not stranded exactly when it is an idle start. */
  lemma StrandedExactlyByIdleStart(s: State, step: Step)
    requires Inv(s) && Enabled(s, step) && !Stranded(s)
    ensures Stranded(Apply(s, step)) <==> IdleStart(s, step)
  {
    match step
    case Start(replay) =>
      if s.configured && |replay| > 0 {
        EnqueueAllDrains(s.(running := true), replay);
      } else if !s.configured {
        NothingEnqueued(s.(running := true), replay);
      }
    case _ =>
  }

  /** An event that arrives before the start and a start without events: the event waits for the next one. */
  lemma AnIdleStartStrands(e: Event) returns (steps: seq<Step>, s: State)
    ensures Run(Start0(true), steps, s) && steps == [Put(e), Start([])] && Stranded(s) && s.queue == [e]
  {
    var filled := Apply(Start0(true), Put(e));
    RunAppend(Start0(true), [], Start0(true), Put(e));
    RunAppend(Start0(true), [] + [Put(e)], filled, Start([]));
    steps, s := [] + [Put(e)] + [Start([])], Apply(filled, Start([]));
    assert [] + [Put(e)] + [Start([])] == [Put(e), Start([])];
    assert [] + [e] == [e];
  }
}
