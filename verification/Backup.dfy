/**
 * The backup store: full, incremental and differential backups as payloads that
 * overlay a base, with deletion and retention working on the same records.
 * Every operation is one atomic step.
 */
module Backup {
  import opened Outcome

  type BackupId = nat

  datatype Scope = Scope(organization: string, project: string, environment: string)

  datatype Context = Context(scope: Scope, canManage: bool)

  datatype Component = Database | Storage | Auth | Functions | Security | Config

  /** Serialised component values; two values are the same exactly when their texts are. */
  type Snapshot = map<Component, string>

  datatype Kind = Full | Incremental | Differential

  datatype Record = Record(scope: Scope, kind: Kind, components: set<Component>, base: Option<BackupId>, createdAt: int)

  /** A decrypted artifact. */
  datatype Payload = Payload(base: Option<BackupId>, components: Snapshot)

  datatype Policy = Policy(maxBackups: int, maxAgeDays: int)

  /** History of a backup: its chain length, what was captured, and what its chain stood for. */
  datatype Trace = Trace(depth: nat, captured: Snapshot, resolved: Snapshot)

  datatype Store = Store(
    testMode: bool,
    records: map<BackupId, Record>,
    artifacts: map<BackupId, Payload>,
    policies: map<Scope, Policy>,
    traces: map<BackupId, Trace>,
    total: nat)

  datatype Error = NotAllowed | UnsupportedComponents | NotFound | ArtifactMissing | ChainCycle | IsBase | InvalidPolicy

  const ALL_COMPONENTS: set<Component> := {Database, Storage, Auth, Functions, Security, Config}
  const REAL_COMPONENTS: set<Component> := {Database, Storage, Security}
  const DEFAULT_RETENTION := Policy(30, 30)
  const DAY_MS := 86_400_000

  function Supported(s: Store): set<Component> {
    if s.testMode then ALL_COMPONENTS else REAL_COMPONENTS
  }

  // -------------------------------------------------------------- reading

  /** payload(id, visited): the artifact's components over those of its base. */
  function Resolve(s: Store, id: BackupId, visited: set<BackupId>): Result<Snapshot, Error>
    decreases s.records.Keys - visited
  {
    if id in visited then Err(ChainCycle)
    else if id !in s.records then Err(NotFound)
    else if id !in s.artifacts then Err(ArtifactMissing)
    else
      var parsed := s.artifacts[id];
      if parsed.base.None? then Ok(parsed.components)
      else
        var base :- Resolve(s, parsed.base.value, visited + {id});
        Ok(base + parsed.components)
  }

  predicate InScope(s: Store, id: BackupId, scope: Scope) {
    id in s.records && s.records[id].scope == scope
  }

  function ScopeIds(s: Store, scope: Scope): set<BackupId> {
    set id | id in s.records && s.records[id].scope == scope
  }

  /** Some backup of the scope builds on this one. */
  predicate HasChild(s: Store, id: BackupId, scope: Scope) {
    exists child :: child in s.records && InScope(s, child, scope) && s.records[child].base == Some(id)
  }

  function PolicyOf(s: Store, scope: Scope): Policy {
    if scope in s.policies then s.policies[scope] else DEFAULT_RETENTION
  }

  /** The newest backup of a scope, or the newest full one. */
  predicate IsNewest(s: Store, id: BackupId, scope: Scope, fullOnly: bool) {
    && InScope(s, id, scope) && (fullOnly ==> s.records[id].kind == Full)
    && forall other :: other in s.records && InScope(s, other, scope) && (fullOnly ==> s.records[other].kind == Full)
         ==> s.records[other].createdAt <= s.records[id].createdAt
  }

  /** Incrementals build on the newest backup, differentials on the newest full one, if there is one. */
  predicate IsBaseChoice(s: Store, scope: Scope, kind: Kind, base: Option<BackupId>) {
    match kind
    case Full => base.None?
    case Incremental => if base.Some? then IsNewest(s, base.value, scope, false) else ScopeIds(s, scope) == {}
    case Differential =>
      if base.Some? then IsNewest(s, base.value, scope, true)
      else forall id :: id in s.records && InScope(s, id, scope) ==> s.records[id].kind != Full
  }

  // -------------------------------------------------------------- writing

  function Requested(s: Store, components: set<Component>): set<Component> {
    if components == {} then Supported(s) else components
  }

  function Capture(components: set<Component>, world: Snapshot): Snapshot
    requires components <= world.Keys
  {
    map c | c in components :: world[c]
  }

  /** The components whose value differs from the baseline. */
  function Changed(current: Snapshot, baseline: Snapshot): Snapshot {
    map c | c in current && !(c in baseline && baseline[c] == current[c]) :: current[c]
  }

  function Overlaid(baseline: Snapshot, own: Snapshot): Snapshot { baseline + own }

  /** The store after a backup of `current` with the given base has been persisted. */
  function Persist(s: Store, id: BackupId, scope: Scope, kind: Kind, current: Snapshot, base: Option<BackupId>,
                   baseline: Snapshot, depth: nat, createdAt: int): Store {
    var selected := if base.Some? then Changed(current, baseline) else current;
    var resolved := if base.Some? then Overlaid(baseline, selected) else selected;
    s.(records := s.records[id := Record(scope, kind, current.Keys, base, createdAt)],
       artifacts := s.artifacts[id := Payload(base, selected)],
       traces := s.traces[id := Trace(depth, current, resolved)],
       total := s.total + 1)
  }

  function Remove(s: Store, ids: set<BackupId>): Store {
    s.(records := s.records - ids, artifacts := s.artifacts - ids, traces := s.traces - ids)
  }

  function Newer(s: Store, id: BackupId, scope: Scope): set<BackupId>
    requires id in s.records
  {
    set other | other in s.records && s.records[other].scope == scope && s.records[other].createdAt > s.records[id].createdAt
  }

  /** The position in the newest-first listing of the scope. */
  function Rank(s: Store, id: BackupId, scope: Scope): nat
    requires id in s.records
  {
    |Newer(s, id, scope)|
  }

  predicate Expired(s: Store, id: BackupId, scope: Scope, policy: Policy, cutoff: int)
    requires id in s.records
  {
    Rank(s, id, scope) >= policy.maxBackups || s.records[id].createdAt < cutoff
  }

  function Cutoff(policy: Policy, now: int): int { now - policy.maxAgeDays * DAY_MS }

  /**
   * What the retention policy of its scope promises a backup: fewer than
   * maxBackups newer ones stand before it, and it is at most maxAgeDays days old.
   */
  predicate Entitled(s: Store, id: BackupId, now: int)
    requires id in s.records
  {
    var own := s.records[id];
    var policy := if own.scope in s.policies then s.policies[own.scope] else Policy(30, 30);
    && |set other | other in s.records && s.records[other].scope == own.scope && s.records[other].createdAt > own.createdAt|
       < policy.maxBackups
    && now - own.createdAt <= policy.maxAgeDays * 86_400_000
  }

  lemma ExpiredUnlessEntitled(s: Store, scope: Scope, now: int, id: BackupId)
    requires InScope(s, id, scope)
    ensures Expired(s, id, scope, PolicyOf(s, scope), Cutoff(PolicyOf(s, scope), now)) <==> !Entitled(s, id, now)
  {
    assert Newer(s, id, scope) ==
      set other | other in s.records && s.records[other].scope == s.records[id].scope
                  && s.records[other].createdAt > s.records[id].createdAt;
  }

  /** What one pass of retention deletes: expired backups that nothing in the listing builds on. */
  function Doomed(s: Store, scope: Scope, now: int): set<BackupId> {
    set id | id in s.records && s.records[id].scope == scope
             && Expired(s, id, scope, PolicyOf(s, scope), Cutoff(PolicyOf(s, scope), now)) && !HasChild(s, id, scope)
  }

  function Pass(s: Store, scope: Scope, now: int): Store {
    Remove(s, Doomed(s, scope, now))
  }

  /** A pass deletes exactly the backups of its scope that have no claim to stay and that none builds on. */
  lemma PassKeepsExactly(s: Store, scope: Scope, now: int, id: BackupId)
    requires id in s.records
    ensures id in Pass(s, scope, now).records <==>
      || s.records[id].scope != scope || Entitled(s, id, now)
      || exists child :: child in s.records && s.records[child].scope == scope && s.records[child].base == Some(id)
  {
    hide Entitled, Expired, Cutoff, PolicyOf;
    if s.records[id].scope == scope {
      ExpiredUnlessEntitled(s, scope, now, id);
      if HasChild(s, id, scope) {
        var child :| child in s.records && InScope(s, child, scope) && s.records[child].base == Some(id);
      }
      if child :| child in s.records && s.records[child].scope == scope && s.records[child].base == Some(id) {
        assert InScope(s, child, scope);
      }
    }
  }

  /**
   * One pass of retention as its caller sees it: of the scope exactly those
   * backups go that have no claim to stay and that none builds on, and what
   * stays is as it was.
   */
  predicate Retained(s: Store, s': Store, scope: Scope, now: int) {
    && s'.policies == s.policies && s'.records.Keys <= s.records.Keys
    && (forall id :: id in s'.records ==> s'.records[id] == s.records[id])
    && (forall id :: id in s'.records && id in s.artifacts ==> id in s'.artifacts && s'.artifacts[id] == s.artifacts[id])
    && forall id :: id in s.records ==>
         (id in s'.records <==>
           || s.records[id].scope != scope || Entitled(s, id, now)
           || exists child :: child in s.records && s.records[child].scope == scope && s.records[child].base == Some(id))
  }

  lemma PassRetains(s: Store, scope: Scope, now: int)
    ensures Retained(s, Pass(s, scope, now), scope, now)
  {
    hide Doomed, Entitled;
    forall id | id in s.records
      ensures id in Pass(s, scope, now).records <==>
        || s.records[id].scope != scope || Entitled(s, id, now)
        || exists child :: child in s.records && s.records[child].scope == scope && s.records[child].base == Some(id)
    {
      PassKeepsExactly(s, scope, now, id);
    }
  }

  datatype Op =
    | Create(id: BackupId, context: Context, kind: Kind, components: set<Component>, world: Snapshot,
             base: Option<BackupId>, createdAt: int)
    | Delete(context: Context, id: BackupId)
    | SetPolicy(scope: Scope, policy: Policy)
    | Enforce(scope: Scope, now: int)

  predicate Enabled(s: Store, op: Op) {
    match op
    case Create(id, ctx, kind, components, world, base, createdAt) =>
      && ctx.canManage && id !in s.records && Requested(s, components) <= Supported(s) <= world.Keys
      && IsBaseChoice(s, ctx.scope, kind, base) && (base.Some? ==> Resolve(s, base.value, {}).Ok? && base.value in s.traces)
      && (forall other :: other in s.records && InScope(s, other, ctx.scope) ==> s.records[other].createdAt != createdAt)
    case Delete(ctx, id) => ctx.canManage && InScope(s, id, ctx.scope) && !HasChild(s, id, ctx.scope)
    case SetPolicy(_, policy) => policy.maxBackups >= 1 && policy.maxAgeDays >= 1
    case Enforce(_, _) => true
  }

  function Apply(s: Store, op: Op): Store
    requires Enabled(s, op)
  {
    match op
    case Create(id, ctx, kind, components, world, base, createdAt) =>
      var baseline := if base.Some? then Resolve(s, base.value, {}).value else map[];
      var depth := if base.Some? then s.traces[base.value].depth + 1 else 0;
      Persist(s, id, ctx.scope, kind, Capture(Requested(s, components), world), base, baseline, depth, createdAt)
    case Delete(_, id) => Remove(s, {id})
    case SetPolicy(scope, policy) => s.(policies := s.policies[scope := policy])
    case Enforce(scope, now) => Pass(s, scope, now)
  }

  ghost predicate Run(states: seq<Store>, ops: seq<Op>) {
    && |states| == |ops| + 1
    && states[0].records == map[] && states[0].artifacts == map[] && states[0].traces == map[] && states[0].policies == map[]
    && forall i :: 0 <= i < |ops| ==> Enabled(states[i], ops[i]) && states[i + 1] == Apply(states[i], ops[i])
  }

  // ------------------------------------------------------------ invariant

  /** The chain below a backup is in place and stands for what was resolved at creation. */
  predicate Linked(s: Store, id: BackupId)
    requires id in s.records && id in s.artifacts && id in s.traces
  {
    var own := s.artifacts[id];
    && own.base == s.records[id].base && s.traces[id].depth < s.total
    && match own.base
       case None => s.traces[id].resolved == own.components
       case Some(base) =>
         && base in s.records && base in s.traces && s.records[base].scope == s.records[id].scope
         && s.traces[base].depth < s.traces[id].depth
         && s.traces[id].resolved == Overlaid(s.traces[base].resolved, own.components)
  }

  /** The resolved chain agrees with the full capture on every listed component. */
  predicate Faithful(s: Store, id: BackupId)
    requires id in s.records && id in s.traces
  {
    var t := s.traces[id];
    t.captured.Keys == s.records[id].components && forall c :: c in t.captured ==> c in t.resolved && t.resolved[c] == t.captured[c]
  }

  ghost predicate Inv(s: Store) {
    && s.artifacts.Keys == s.records.Keys && s.traces.Keys == s.records.Keys
    && (forall id {:trigger Linked(s, id)} :: id in s.records ==> Linked(s, id))
    && (forall id {:trigger Faithful(s, id)} :: id in s.records ==> Faithful(s, id))
    && (forall a, b :: a in s.records && b in s.records && a != b && s.records[a].scope == s.records[b].scope
          ==> s.records[a].createdAt != s.records[b].createdAt)
  }

  /** Resolution walks the chain and reports no error. */
  lemma {:induction false} ResolveWalks(s: Store, id: BackupId, visited: set<BackupId>)
    requires Inv(s) && id in s.records
    requires forall v :: v in visited ==> v in s.traces && s.traces[v].depth > s.traces[id].depth
    ensures Resolve(s, id, visited) == Ok(s.traces[id].resolved)
    decreases s.traces[id].depth
  {
    assert Linked(s, id);
    var base := s.artifacts[id].base;
    if base.Some? { ResolveWalks(s, base.value, visited + {id}); }
  }

  /** Nothing smaller would do: whatever restores the capture over the base holds every changed component. */
  lemma ChangedIsLeast(current: Snapshot, baseline: Snapshot, own: Snapshot)
    requires forall c :: c in current ==> c in baseline + own && (baseline + own)[c] == current[c]
    ensures Changed(current, baseline).Keys <= own.Keys
  {
  }

  /** The components a creation captures. */
  lemma RequestedMeans(s: Store, components: set<Component>)
    ensures components != {} ==> Requested(s, components) == components
    ensures components == {} && s.testMode ==> Requested(s, components) == {Database, Storage, Auth, Functions, Security, Config}
    ensures components == {} && !s.testMode ==> Requested(s, components) == {Database, Storage, Security}
  {
  }

  /** What a creation stores: the record asked for, and of the captured values those that the base does not resolve to. */
  lemma StoredPayload(s: Store, op: Op)
    requires Enabled(s, op) && op.Create?
    ensures var s', asked := Apply(s, op), Requested(s, op.components);
      && asked <= op.world.Keys && op.id in s'.artifacts
      && s'.records == s.records[op.id := Record(op.context.scope, op.kind, asked, op.base, op.createdAt)]
      && s'.artifacts == s.artifacts[op.id := s'.artifacts[op.id]]
    ensures var asked, stored := Requested(s, op.components), Apply(s, op).artifacts[op.id];
      && stored.base == op.base
      && (forall c :: c in stored.components <==>
            && c in asked
            && (op.base.Some? ==>
                  var r := Resolve(s, op.base.value, {}).value; !(c in r && r[c] == op.world[c])))
      && (forall c :: c in stored.components ==> stored.components[c] == op.world[c])
  {
    hide Resolve, IsBaseChoice, Requested;
    var asked := Requested(s, op.components);
    assert Capture(asked, op.world).Keys == asked;
  }

  lemma OverlayRecovers(current: Snapshot, baseline: Snapshot)
    ensures forall c :: c in current ==>
      c in Overlaid(baseline, Changed(current, baseline)) && Overlaid(baseline, Changed(current, baseline))[c] == current[c]
  {
  }

  /** A new record with a linked base leaves all chains in place and adds one. */
  lemma PersistKeepsInv(s: Store, id: BackupId, scope: Scope, kind: Kind, current: Snapshot, base: Option<BackupId>,
                        baseline: Snapshot, depth: nat, createdAt: int)
    requires Inv(s) && id !in s.records
    requires forall other :: other in s.records && InScope(s, other, scope) ==> s.records[other].createdAt != createdAt
    requires base.None? ==> depth == 0
    requires base.Some? ==>
      InScope(s, base.value, scope) && depth == s.traces[base.value].depth + 1 && baseline == s.traces[base.value].resolved
    ensures Inv(Persist(s, id, scope, kind, current, base, baseline, depth, createdAt))
  {
    hide *;
    PersistEntries(s, id, scope, kind, current, base, baseline, depth, createdAt);
    var s' := Persist(s, id, scope, kind, current, base, baseline, depth, createdAt);
    if base.Some? { BaseIsLinked(s, base.value, scope); }
    NewLink(s', id, current, base, baseline);
    SameKeys(s);
    forall x | x in s.records ensures Linked(s', x) && Faithful(s', x) {
      if s.records[x].base.Some? { BaseIsKept(s, x); }
      ChainFrame(s, s', x);
    }
    PersistIsConsistent(s, s', id, scope);
  }

  lemma BaseIsLinked(s: Store, base: BackupId, scope: Scope)
    requires Inv(s) && InScope(s, base, scope)
    ensures base in s.records && base in s.traces && s.records[base].scope == scope && s.traces[base].depth < s.total
  {
    assert Linked(s, base);
  }

  lemma BaseIsKept(s: Store, x: BackupId)
    requires Inv(s) && x in s.records && s.records[x].base.Some?
    ensures s.records[x].base.value in s.records && s.records[x].base.value in s.traces
  {
    assert Linked(s, x);
  }

  lemma PersistEntries(s: Store, id: BackupId, scope: Scope, kind: Kind, current: Snapshot, base: Option<BackupId>,
                       baseline: Snapshot, depth: nat, createdAt: int)
    requires id !in s.records
    ensures var s' := Persist(s, id, scope, kind, current, base, baseline, depth, createdAt);
      var selected := if base.Some? then Changed(current, baseline) else current;
      && s'.total == s.total + 1
      && s'.records == s.records[id := Record(scope, kind, current.Keys, base, createdAt)]
      && s'.artifacts == s.artifacts[id := Payload(base, selected)]
      && s'.traces == s.traces[id := Trace(depth, current, if base.Some? then Overlaid(baseline, selected) else selected)]
  {
    hide Changed, Overlaid;
  }

  lemma NewLink(s: Store, id: BackupId, current: Snapshot, base: Option<BackupId>, baseline: Snapshot)
    requires id in s.records && id in s.artifacts && id in s.traces
    requires s.records[id].base == base && s.records[id].components == current.Keys && s.traces[id].captured == current
    requires s.traces[id].depth < s.total
    requires base.None? ==> s.artifacts[id] == Payload(base, current) && s.traces[id].resolved == current
    requires base.Some? ==>
      && s.artifacts[id] == Payload(base, Changed(current, baseline))
      && s.traces[id].resolved == Overlaid(baseline, Changed(current, baseline))
      && base.value in s.records && base.value in s.traces && s.records[base.value].scope == s.records[id].scope
      && s.traces[base.value].depth < s.traces[id].depth && s.traces[base.value].resolved == baseline
    ensures Linked(s, id) && Faithful(s, id)
  {
    hide Changed, Overlaid;
    OverlayRecovers(current, baseline);
  }

  lemma PersistIsConsistent(s: Store, s': Store, id: BackupId, scope: Scope)
    requires Inv(s) && id !in s.records && id in s'.records && s'.records[id].scope == scope
    requires s'.records == s.records[id := s'.records[id]]
    requires s'.artifacts.Keys == s.artifacts.Keys + {id} && s'.traces.Keys == s.traces.Keys + {id}
    requires forall other :: other in s.records && InScope(s, other, scope) ==> s.records[other].createdAt != s'.records[id].createdAt
    requires (forall x :: x in s.records ==> x in s'.artifacts && x in s'.traces && Linked(s', x) && Faithful(s', x))
    requires id in s'.artifacts && id in s'.traces && Linked(s', id) && Faithful(s', id)
    ensures Inv(s')
  {
    hide Linked, Faithful;
    forall x | x in s.records && x != id && s.records[x].scope == scope
      ensures s.records[x].createdAt != s'.records[id].createdAt
    {
      assert InScope(s, x, scope);
    }
  }

  /** A chain link looks at nothing but its own entries and its base's scope and history. */
  lemma ChainFrame(s: Store, s': Store, id: BackupId)
    requires Inv(s) && id in s.records && s.total <= s'.total
    requires id in s'.records && id in s'.artifacts && id in s'.traces
    requires s'.records[id] == s.records[id] && s'.artifacts[id] == s.artifacts[id] && s'.traces[id] == s.traces[id]
    requires var base := s.records[id].base;
      base.Some? && base.value in s.records && base.value in s.traces ==>
        base.value in s'.records && base.value in s'.traces
        && s'.records[base.value] == s.records[base.value] && s'.traces[base.value] == s.traces[base.value]
    ensures Linked(s', id) && Faithful(s', id)
  {
    assert Linked(s, id) && Faithful(s, id);
  }

  lemma CreateKeepsInv(s: Store, op: Op)
    requires Inv(s) && Enabled(s, op) && op.Create?
    ensures Inv(Apply(s, op))
  {
    hide Inv, Resolve, Capture, Requested, Persist, Linked, Faithful;
    var current := Capture(Requested(s, op.components), op.world);
    if op.base.Some? {
      BaseInScope(s, op.context.scope, op.kind, op.base);
      SameKeys(s);
      ResolveWalks(s, op.base.value, {});
      PersistKeepsInv(s, op.id, op.context.scope, op.kind, current, op.base,
                      s.traces[op.base.value].resolved, s.traces[op.base.value].depth + 1, op.createdAt);
    } else {
      PersistKeepsInv(s, op.id, op.context.scope, op.kind, current, None, map[], 0, op.createdAt);
    }
  }

  lemma BaseInScope(s: Store, scope: Scope, kind: Kind, base: Option<BackupId>)
    requires IsBaseChoice(s, scope, kind, base) && base.Some?
    ensures InScope(s, base.value, scope)
  {
  }

  lemma SameKeys(s: Store)
    requires Inv(s)
    ensures s.artifacts.Keys == s.records.Keys && s.traces.Keys == s.records.Keys
  {
  }

  /** Removing backups that nothing builds on leaves every other chain in place. */
  lemma RemoveKeepsInv(s: Store, ids: set<BackupId>)
    requires Inv(s) && forall id, child :: id in ids && child in s.records ==> s.records[child].base != Some(id)
    ensures Inv(Remove(s, ids))
  {
    var s' := Remove(s, ids);
    hide Linked, Faithful;
    forall id | id in s'.records ensures Linked(s', id) && Faithful(s', id) { ChainFrame(s, s', id); }
  }

  lemma ChildlessHasNoBuilder(s: Store, id: BackupId, scope: Scope)
    requires Inv(s) && InScope(s, id, scope) && !HasChild(s, id, scope)
    ensures forall child :: child in s.records ==> s.records[child].base != Some(id)
  {
    forall child | child in s.records ensures s.records[child].base != Some(id) {
      assert Linked(s, child);
      if s.records[child].base == Some(id) { assert InScope(s, child, scope); }
    }
  }

  lemma PassKeepsInv(s: Store, scope: Scope, now: int)
    requires Inv(s)
    ensures Inv(Pass(s, scope, now))
  {
    forall id, child | id in Doomed(s, scope, now) && child in s.records ensures s.records[child].base != Some(id) {
      ChildlessHasNoBuilder(s, id, scope);
    }
    RemoveKeepsInv(s, Doomed(s, scope, now));
  }

  lemma StepKeepsInv(s: Store, op: Op)
    requires Inv(s) && Enabled(s, op)
    ensures Inv(Apply(s, op))
  {
    match op
    case Create(_, _, _, _, _, _, _) => CreateKeepsInv(s, op);
    case Delete(ctx, id) =>
      ChildlessHasNoBuilder(s, id, ctx.scope);
      RemoveKeepsInv(s, {id});
    case SetPolicy(scope, policy) =>
      var s' := Apply(s, op);
      forall id | id in s'.records ensures Linked(s', id) && Faithful(s', id) { assert Linked(s, id) && Faithful(s, id); }
    case Enforce(scope, now) => PassKeepsInv(s, scope, now);
  }

  /** No run ever sets a policy that would keep nothing. */
  lemma {:induction false} PoliciesAreSensible(states: seq<Store>, ops: seq<Op>, i: nat, scope: Scope)
    requires Run(states, ops) && i < |states|
    ensures PolicyOf(states[i], scope).maxBackups >= 1 && PolicyOf(states[i], scope).maxAgeDays >= 1
  {
    if i > 0 {
      PoliciesAreSensible(states, ops, i - 1, scope);
      assert Enabled(states[i - 1], ops[i - 1]) && states[i] == Apply(states[i - 1], ops[i - 1]);
      hide Doomed, Resolve, Capture, IsBaseChoice, HasChild, Changed, Overlaid, Requested;
    }
  }

  lemma {:induction false} RunKeepsInv(states: seq<Store>, ops: seq<Op>, i: nat)
    requires Run(states, ops) && i < |states|
    ensures Inv(states[i])
  {
    if i > 0 {
      RunKeepsInv(states, ops, i - 1);
      StepKeepsInv(states[i - 1], ops[i - 1]);
    }
  }

  // --------------------------------------------------------- main results

  /** A backup of this date would be among the newest of its scope and not be too old. */
  predicate HasPlace(s: Store, scope: Scope, createdAt: int, now: int) {
    var policy := if scope in s.policies then s.policies[scope] else Policy(30, 30);
    && |set other | other in s.records && s.records[other].scope == scope && s.records[other].createdAt > createdAt|
       < policy.maxBackups
    && now - createdAt <= policy.maxAgeDays * 86_400_000
  }

  lemma NewEntitledExactlyWhen(s: Store, t: Store, id: BackupId, record: Record, now: int)
    requires id !in s.records && t.records == s.records[id := record] && t.policies == s.policies
    ensures Entitled(t, id, now) <==> HasPlace(s, record.scope, record.createdAt, now)
  {
    var scope, createdAt := record.scope, record.createdAt;
    assert (set other | other in t.records && t.records[other].scope == scope && t.records[other].createdAt > createdAt)
        == (set other | other in s.records && s.records[other].scope == scope && s.records[other].createdAt > createdAt);
  }

  /**
   * Creation ends with a pass of retention, and the new backup survives it
   * exactly when the policy entitles it to stay by number and age.
   */
  lemma NewBackupStaysExactlyWhen(s: Store, op: Op, now: int)
    requires Inv(s) && Enabled(s, op) && op.Create?
    ensures op.id in Pass(Apply(s, op), op.context.scope, now).records <==> HasPlace(s, op.context.scope, op.createdAt, now)
  {
    hide *;
    CreationAdds(s, op);
    var t := Apply(s, op);
    NewEntitledExactlyWhen(s, t, op.id, t.records[op.id], now);
    PassKeepsExactly(t, op.context.scope, now, op.id);
    NothingBuildsOnNew(s, op);
  }

  lemma CreationAdds(s: Store, op: Op)
    requires Enabled(s, op) && op.Create?
    ensures var t := Apply(s, op);
      && t.policies == s.policies && op.id !in s.records && op.id in t.records
      && t.records == s.records[op.id := t.records[op.id]]
      && t.records[op.id].scope == op.context.scope && t.records[op.id].createdAt == op.createdAt
  {
    hide Resolve, IsBaseChoice, Requested, Capture, Changed, Overlaid;
  }

  lemma NothingBuildsOnNew(s: Store, op: Op)
    requires Inv(s) && Enabled(s, op) && op.Create?
    ensures forall child :: child in Apply(s, op).records ==> Apply(s, op).records[child].base != Some(op.id)
  {
    StoredPayload(s, op);
    if op.base.Some? { BaseInScope(s, op.context.scope, op.kind, op.base); }
    forall child | child in s.records ensures s.records[child].base != Some(op.id) { assert Linked(s, child); }
    hide Inv, Apply, Resolve, IsBaseChoice, Requested;
  }

  /** In particular, under any policy of any run, the newest backup of its scope is there when its creation ends on its first day. */
  lemma NewestBackupStays(states: seq<Store>, ops: seq<Op>, i: nat, op: Op, now: int)
    requires Run(states, ops) && i < |states| && Enabled(states[i], op) && op.Create?
    requires forall other :: other in states[i].records && states[i].records[other].scope == op.context.scope ==>
               states[i].records[other].createdAt <= op.createdAt
    requires op.createdAt <= now < op.createdAt + 86_400_000
    ensures op.id in Pass(Apply(states[i], op), op.context.scope, now).records
  {
    var s, scope := states[i], op.context.scope;
    RunKeepsInv(states, ops, i);
    PoliciesAreSensible(states, ops, i, scope);
    NewBackupStaysExactlyWhen(s, op, now);
    hide Apply, Enabled, Inv, Pass, Run;
    assert (set other | other in s.records && s.records[other].scope == scope && s.records[other].createdAt > op.createdAt) == {};
  }

  /** Every stored backup resolves, its base is present in the same scope, and the chain is free of cycles. */
  lemma ReachableBackupsResolve(states: seq<Store>, ops: seq<Op>, i: nat, id: BackupId)
    requires Run(states, ops) && i < |states| && id in states[i].records
    ensures var s := states[i];
      && Resolve(s, id, {}).Ok?
      && (s.records[id].base.Some? ==> InScope(s, s.records[id].base.value, s.records[id].scope))
  {
    RunKeepsInv(states, ops, i);
    ResolveWalks(states[i], id, {});
    assert Linked(states[i], id);
  }

  /** Steps never rewrite the history of a backup that stays. */
  lemma StepKeepsTrace(s: Store, op: Op, id: BackupId)
    requires Inv(s) && Enabled(s, op) && !(op.Create? && op.id == id) && id in Apply(s, op).records
    ensures id in s.records && id in s.traces && id in Apply(s, op).traces
    ensures Apply(s, op).traces[id] == s.traces[id] && Apply(s, op).records[id] == s.records[id]
  {
    hide Doomed, Resolve, Capture, Requested, Linked, Faithful, IsBaseChoice, HasChild, Changed, Overlaid;
  }

  lemma {:induction false} TraceStays(states: seq<Store>, ops: seq<Op>, k: nat, i: nat, id: BackupId)
    requires Run(states, ops) && k <= i < |states| && id in states[i].records
    requires forall m :: k <= m < i ==> !(ops[m].Create? && ops[m].id == id)
    ensures id in states[k].records && id in states[k].traces && id in states[i].traces
    ensures states[i].traces[id] == states[k].traces[id] && states[i].records[id] == states[k].records[id]
    decreases i
  {
    hide Inv, Apply, Enabled;
    RunKeepsInv(states, ops, i);
    SameKeys(states[i]);
    if k < i {
      assert states[i - 1 + 1] == Apply(states[i - 1], ops[i - 1]);
      RunKeepsInv(states, ops, i - 1);
      StepKeepsTrace(states[i - 1], ops[i - 1], id);
      TraceStays(states, ops, k, i - 1, id);
    }
  }

  /**
   * A backup created in a run reads back, at any later moment while it is kept,
   * exactly the values its components had when it was created.
   */
  lemma BackupsReadBackAsCaptured(states: seq<Store>, ops: seq<Op>, k: nat, i: nat)
    requires Run(states, ops) && k < i < |states| && ops[k].Create? && ops[k].id in states[i].records
    requires forall m :: k < m < i ==> !(ops[m].Create? && ops[m].id == ops[k].id)
    ensures var r := Resolve(states[i], ops[k].id, {});
      && r.Ok?
      && forall c :: c in Requested(states[k], ops[k].components) ==>
           c in r.value && c in ops[k].world && r.value[c] == ops[k].world[c]
  {
    var id, s := ops[k].id, states[i];
    TraceStays(states, ops, k + 1, i, id);
    RunKeepsInv(states, ops, i);
    RunKeepsInv(states, ops, k + 1);
    ResolveWalks(s, id, {});
    assert Faithful(s, id);
    assert Enabled(states[k], ops[k]) && states[k + 1] == Apply(states[k], ops[k]);
    assert states[k + 1].traces[id].captured == Capture(Requested(states[k], ops[k].components), ops[k].world);
  }
}
