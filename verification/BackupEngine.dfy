/**
 * The backup engine's operations on its in-memory catalogue, each run to its end
 * before the next: listing, creation, deletion and one pass of retention, which
 * decides on a listing taken before its first deletion.
 */
module BackupEngine {
  import opened Outcome
  import opened Backup

  datatype Entry = Entry(id: BackupId, record: Record)

  function Ids(list: seq<Entry>): set<BackupId> { set k | 0 <= k < |list| :: list[k].id }

  ghost predicate Descending(list: seq<Entry>) {
    forall j, k :: 0 <= j < k < |list| ==> list[j].record.createdAt > list[k].record.createdAt
  }

  ghost predicate Copies(s: Store, list: seq<Entry>) {
    forall k :: 0 <= k < |list| ==> list[k].id in s.records && s.records[list[k].id] == list[k].record
  }

  /** The entries of a scope, newest first. */
  ghost predicate IsListing(s: Store, scope: Scope, list: seq<Entry>) {
    Copies(s, list) && Ids(list) == ScopeIds(s, scope) && Descending(list)
  }

  /** A listing under construction: `rest` is still to be placed. */
  ghost predicate Listed(s: Store, scope: Scope, list: seq<Entry>, rest: set<BackupId>) {
    && Copies(s, list) && Descending(list)
    && Ids(list) + rest == ScopeIds(s, scope) && Ids(list) !! rest
    && forall k, id :: 0 <= k < |list| && id in rest && id in s.records ==> list[k].record.createdAt > s.records[id].createdAt
  }

  lemma ListedStep(s: Store, scope: Scope, list: seq<Entry>, rest: set<BackupId>, id: BackupId)
    requires Inv(s) && Listed(s, scope, list, rest) && id in rest && id in s.records
    requires forall other :: other in rest && other in s.records ==> s.records[other].createdAt <= s.records[id].createdAt
    ensures Listed(s, scope, list + [Entry(id, s.records[id])], rest - {id})
  {
    hide Linked, Faithful;
    var list' := list + [Entry(id, s.records[id])];
    assert Ids(list') == Ids(list) + {id} by {
      assert forall k :: 0 <= k < |list| ==> list'[k] == list[k];
      assert list'[|list|].id == id;
      forall x | x in Ids(list) ensures x in Ids(list') { var k :| 0 <= k < |list| && list[k].id == x; assert list'[k].id == x; }
    }
    forall other | other in rest - {id} ensures s.records[other].createdAt < s.records[id].createdAt {
      assert other in ScopeIds(s, scope) && id in ScopeIds(s, scope);
    }
  }

  lemma {:induction false} PrefixSize(list: seq<Entry>, n: nat)
    requires n <= |list| && forall j, k :: 0 <= j < k < |list| ==> list[j].record.createdAt > list[k].record.createdAt
    requires forall j, k :: 0 <= j < |list| && 0 <= k < |list| && list[j].id == list[k].id ==> list[j].record == list[k].record
    ensures |Ids(list[..n])| == n
  {
    if n > 0 {
      PrefixSize(list, n - 1);
      forall k | 0 <= k < n - 1 ensures list[k].id != list[n - 1].id {
        assert list[k].record.createdAt > list[n - 1].record.createdAt;
      }
      PrefixStep(list, n);
      hide Ids;
    }
  }

  lemma PrefixStep(list: seq<Entry>, n: nat)
    requires 0 < n <= |list| && forall k :: 0 <= k < n - 1 ==> list[k].id != list[n - 1].id
    ensures Ids(list[..n]) == Ids(list[..n - 1]) + {list[n - 1].id} && list[n - 1].id !in Ids(list[..n - 1])
  {
    var a, b := list[..n - 1], list[..n];
    forall x | x in Ids(a) ensures x in Ids(b) { var k :| 0 <= k < |a| && a[k].id == x; assert b[k].id == x; }
    assert b[n - 1].id in Ids(b);
  }

  /** The index in the listing is the rank used by the retention policy. */
  lemma IndexIsRank(s: Store, scope: Scope, list: seq<Entry>, k: nat)
    requires IsListing(s, scope, list) && k < |list|
    ensures InScope(s, list[k].id, scope) && Rank(s, list[k].id, scope) == k && s.records[list[k].id] == list[k].record
    ensures list[k].id !in Ids(list[..k])
  {
    assert list[k].id in Ids(list);
    var newer := Newer(s, list[k].id, scope);
    forall id | id in newer ensures id in Ids(list[..k]) {
      assert id in ScopeIds(s, scope);
      var j :| 0 <= j < |list| && list[j].id == id;
      assert j < k;
      assert list[..k][j].id == id;
    }
    forall id | id in Ids(list[..k]) ensures id in newer {
      var j :| 0 <= j < k && list[..k][j].id == id;
      assert list[j].id in Ids(list);
    }
    assert newer == Ids(list[..k]);
    PrefixSize(list, k);
  }

  class Engine {
    const testMode: bool
    var records: map<BackupId, Record>
    var artifacts: map<BackupId, Payload>
    var policies: map<Scope, Policy>
    var traces: map<BackupId, Trace>
    var total: nat

    constructor (testMode: bool)
      ensures Inv(State()) && this.testMode == testMode && State() == Store(testMode, map[], map[], map[], map[], 0)
    {
      this.testMode := testMode;
      records, artifacts, policies, traces, total := map[], map[], map[], map[], 0;
    }

    function State(): Store
      reads this
    {
      Store(testMode, records, artifacts, policies, traces, total)
    }

    /** The newest of some entries. */
    method Newest(ids: set<BackupId>) returns (best: BackupId)
      requires ids != {} && ids <= records.Keys
      ensures best in ids && forall id :: id in ids ==> records[id].createdAt <= records[best].createdAt
    {
      best :| best in ids;
      var rest := ids - {best};
      while rest != {}
        invariant best in ids && rest <= ids
        invariant forall id :: id in ids && id !in rest ==> records[id].createdAt <= records[best].createdAt
        decreases rest
      {
        var id :| id in rest;
        if records[id].createdAt > records[best].createdAt { best := id; }
        rest := rest - {id};
      }
    }

    method ListBackups(scope: Scope) returns (list: seq<Entry>)
      requires Inv(State())
      ensures IsListing(State(), scope, list)
    {
      hide Inv;
      list := [];
      var rest := set id | id in records && records[id].scope == scope;
      while rest != {}
        invariant rest <= records.Keys && Listed(State(), scope, list, rest)
        decreases rest
      {
        hide Listed;
        var id := Newest(rest);
        ListedStep(State(), scope, list, rest, id);
        list := list + [Entry(id, records[id])];
        rest := rest - {id};
      }
    }

    method SomeChild(list: seq<Entry>, id: BackupId) returns (found: bool)
      ensures found <==> exists k :: 0 <= k < |list| && list[k].record.base == Some(id)
    {
      found := false;
      for k := 0 to |list|
        invariant found <==> exists j :: 0 <= j < k && list[j].record.base == Some(id)
      {
        if list[k].record.base == Some(id) { found := true; }
      }
    }

    /** Refuses callers without a managing role and backups that others build on; ignores foreign ones. */
    method DeleteBackup(ctx: Context, id: BackupId) returns (r: Result<bool, Error>)
      requires Inv(State())
      modifies this
      ensures Inv(State())
      ensures
        var s := old(State());
        if !ctx.canManage then r == Err(NotAllowed) && State() == s
        else if !InScope(s, id, ctx.scope) then r == Ok(false) && State() == s
        else if HasChild(s, id, ctx.scope) then r == Err(IsBase) && State() == s
        else r == Ok(true) && State() == Remove(s, {id})
    {
      if !ctx.canManage { return Err(NotAllowed); }
      if id !in records || records[id].scope != ctx.scope { return Ok(false); }
      hide *;
      var list := ListBackups(ctx.scope);
      var isBase := SomeChild(list, id);
      ListedChild(State(), ctx.scope, list, id, isBase);
      if isBase { return Err(IsBase); }
      ghost var s := State();
      records, artifacts, traces := records - {id}, artifacts - {id}, traces - {id};
      RemoveOne(s, State(), id);
      ChildlessHasNoBuilder(s, id, ctx.scope);
      RemoveKeepsInv(s, {id});
      return Ok(true);
    }

    /** A managing caller never sees an error: what is expired and childless goes, nothing else. */
    method EnforceRetention(ctx: Context, now: int) returns (r: Result<nat, Error>)
      requires Inv(State())
      modifies this
      ensures Inv(State())
      ensures ctx.canManage ==>
        State() == Pass(old(State()), ctx.scope, now) && r == Ok(|Doomed(old(State()), ctx.scope, now)|)
      ensures !ctx.canManage ==>
        State() == old(State()) && r == if Doomed(old(State()), ctx.scope, now) == {} then Ok(0) else Err(NotAllowed)
      ensures ctx.canManage ==> Retained(old(State()), State(), ctx.scope, now)
    {
      hide *;
      ghost var s := State();
      PassRetains(s, ctx.scope, now);
      var policy := PolicyOf(State(), ctx.scope);
      var cutoff := Cutoff(policy, now);
      var all := ListBackups(ctx.scope);
      ghost var gone: set<BackupId> := {};
      var deleted := 0;
      RemoveNothing(s);
      NothingYet(s, ctx.scope, now, all);
      for k := 0 to |all|
        invariant Inv(State()) && State() == Remove(s, gone) && |gone| == deleted
        invariant gone == Doomed(s, ctx.scope, now) * Ids(all[..k])
        invariant !ctx.canManage ==> gone == {}
      {
        IndexIsRank(s, ctx.scope, all, k);
        IdsGrow(all, k);
        if k >= policy.maxBackups || all[k].record.createdAt < cutoff {
          var isBase := SomeChild(all, all[k].id);
          ListedChild(s, ctx.scope, all, all[k].id, isBase);
          DoomedMeans(s, ctx.scope, now, all[k].id);
          if !isBase {
            StillDeletable(s, ctx.scope, gone, all[k].id);
            var removed := DeleteBackup(ctx, all[k].id);
            if removed.Err? { return Err(removed.error); }
            RemoveTwice(s, gone, all[k].id);
            gone := gone + {all[k].id};
            if removed.value { deleted := deleted + 1; }
          }
        } else {
          DoomedMeans(s, ctx.scope, now, all[k].id);
        }
      }
      assert all[..|all|] == all;
      DoomedIsListed(s, ctx.scope, now, all);
      PassRemoves(s, ctx.scope, now);
      return Ok(deleted);
    }

    /** Merges the given fields into the current policy, refuses senseless values, then enforces it. */
    method SetRetention(ctx: Context, maxBackups: Option<int>, maxAgeDays: Option<int>, now: int) returns (r: Result<Policy, Error>)
      requires Inv(State())
      modifies this
      ensures Inv(State())
      ensures
        var s := old(State());
        var current := PolicyOf(s, ctx.scope);
        var next := Policy(if maxBackups.Some? then maxBackups.value else current.maxBackups,
                           if maxAgeDays.Some? then maxAgeDays.value else current.maxAgeDays);
        if !ctx.canManage then r == Err(NotAllowed) && State() == s
        else if next.maxBackups < 1 || next.maxAgeDays < 1 then r == Err(InvalidPolicy) && State() == s
        else r == Ok(next) && State() == Pass(Apply(s, SetPolicy(ctx.scope, next)), ctx.scope, now)
    {
      if !ctx.canManage { return Err(NotAllowed); }
      var next := PolicyOf(State(), ctx.scope);
      if maxBackups.Some? { next := next.(maxBackups := maxBackups.value); }
      if maxAgeDays.Some? { next := next.(maxAgeDays := maxAgeDays.value); }
      if next.maxBackups < 1 || next.maxAgeDays < 1 { return Err(InvalidPolicy); }
      StepKeepsInv(State(), SetPolicy(ctx.scope, next));
      policies := policies[ctx.scope := next];
      var _ := EnforceRetention(ctx, now);
      return Ok(next);
    }

    /** The first entry of the listing that an incremental, or a differential, builds on. */
    method ChooseBase(list: seq<Entry>, kind: Kind, ghost scope: Scope) returns (base: Option<BackupId>)
      requires IsListing(State(), scope, list)
      ensures IsBaseChoice(State(), scope, kind, base)
    {
      match kind
      case Full => return None;
      case Incremental =>
        if |list| == 0 { return None; }
        FirstIsNewest(State(), scope, list, 0, false);
        return Some(list[0].id);
      case Differential =>
        for k := 0 to |list|
          invariant forall j :: 0 <= j < k ==> list[j].record.kind != Full
        {
          if list[k].record.kind == Full {
            FirstIsNewest(State(), scope, list, k, true);
            return Some(list[k].id);
          }
        }
        NoneFull(State(), scope, list);
        return None;
    }

    method SelectChanged(current: Snapshot, baseline: Snapshot) returns (selected: Snapshot)
      ensures selected == Changed(current, baseline)
    {
      selected := map[];
      var rest := current.Keys;
      while rest != {}
        invariant rest <= current.Keys
        invariant selected == map c | c in Changed(current, baseline) && c !in rest :: current[c]
        decreases rest
      {
        var c :| c in rest;
        if !(c in baseline && baseline[c] == current[c]) { selected := selected[c := current[c]]; }
        rest := rest - {c};
      }
    }

    /** Subtracts the resolved base and stores record, payload and count. */
    method StoreBackup(scope: Scope, kind: Kind, current: Snapshot, base: Option<BackupId>, id: BackupId, createdAt: int, ghost op: Op)
      requires op.Create? && op.kind == kind && op.base == base && op.id == id && op.createdAt == createdAt
      requires op.context.scope == scope && Enabled(State(), op)
      requires Requested(State(), op.components) <= op.world.Keys
      requires current == Capture(Requested(State(), op.components), op.world)
      requires base.Some? ==> base.value in traces && Resolve(State(), base.value, {}).Ok?
      modifies this
      ensures State() == Apply(old(State()), op)
    {
      hide Requested, Capture, Changed, Overlaid, Resolve, IsBaseChoice, Supported, Apply, Enabled, Inv;
      ghost var s := State();
      var selected, resolved, depth := current, current, 0;
      if base.Some? {
        var baseline := Resolve(State(), base.value, {}).value;
        selected := SelectChanged(current, baseline);
        resolved := Overlaid(baseline, selected);
        depth := traces[base.value].depth + 1;
      }
      records := records[id := Record(scope, kind, current.Keys, base, createdAt)];
      artifacts := artifacts[id := Payload(base, selected)];
      traces := traces[id := Trace(depth, current, resolved)];
      total := total + 1;
      ApplyCreate(s, State(), op, selected, resolved, depth);
    }

    /** Creation captures, subtracts the resolved base, persists, and enforces retention. */
    method CreateBackup(ctx: Context, kind: Kind, components: set<Component>, world: Snapshot,
                        id: BackupId, createdAt: int, now: int) returns (r: Result<BackupId, Error>)
      requires Inv(State()) && id !in records && Supported(State()) <= world.Keys
      requires forall other :: InScope(State(), other, ctx.scope) ==> records[other].createdAt != createdAt
      modifies this
      ensures Inv(State())
      ensures
        var s := old(State());
        if !ctx.canManage then r == Err(NotAllowed) && State() == s
        else if !(Requested(s, components) <= Supported(s)) then r == Err(UnsupportedComponents) && State() == s
        else r == Ok(id) && exists base ::
          var op := Create(id, ctx, kind, components, world, base, createdAt);
          Enabled(s, op) && State() == Pass(Apply(s, op), ctx.scope, now)
      ensures r.Ok? ==> (Present(State(), id) <==> HasPlace(old(State()), ctx.scope, createdAt, now))
    {
      if !ctx.canManage { return Err(NotAllowed); }
      hide *;
      ghost var s := State();
      var requested := Requested(State(), components);
      if !(requested <= Supported(State())) { return Err(UnsupportedComponents); }
      var current := Capture(requested, world);
      var list := ListBackups(ctx.scope);
      var base := ChooseBase(list, kind, ctx.scope);
      ghost var op := Create(id, ctx, kind, components, world, base, createdAt);
      CreateIsEnabled(s, op);
      StoreBackup(ctx.scope, kind, current, base, id, createdAt, op);
      StepKeepsInv(s, op);
      NewBackupIsPresent(s, op, now);
      var _ := EnforceRetention(ctx, now);
      return Ok(id);
    }
  }

  predicate Present(s: Store, id: BackupId) { id in s.records }

  lemma NewBackupIsPresent(s: Store, op: Op, now: int)
    requires Inv(s) && Enabled(s, op) && op.Create?
    ensures Present(Pass(Apply(s, op), op.context.scope, now), op.id) <==> HasPlace(s, op.context.scope, op.createdAt, now)
  {
    hide Inv, Enabled, Pass, Apply;
    NewBackupStaysExactlyWhen(s, op, now);
  }

  lemma RemoveOne(s: Store, s': Store, id: BackupId)
    requires s' == s.(records := s.records - {id}, artifacts := s.artifacts - {id}, traces := s.traces - {id})
    ensures s' == Remove(s, {id})
  {
  }

  lemma PassRemoves(s: Store, scope: Scope, now: int)
    ensures Pass(s, scope, now) == Remove(s, Doomed(s, scope, now))
  {
  }

  lemma NothingYet(s: Store, scope: Scope, now: int, all: seq<Entry>)
    ensures {} == Doomed(s, scope, now) * Ids(all[..0])
  {
    hide Doomed;
  }

  lemma IdsGrow(all: seq<Entry>, k: nat)
    requires k < |all|
    ensures Ids(all[..k + 1]) == Ids(all[..k]) + {all[k].id}
  {
    forall id | id in Ids(all[..k]) ensures id in Ids(all[..k + 1]) {
      var j :| 0 <= j < k && all[..k][j].id == id;
      assert all[..k + 1][j].id == id;
    }
    assert all[..k + 1][k].id == all[k].id;
    forall id | id in Ids(all[..k + 1]) ensures id in Ids(all[..k]) + {all[k].id} {
      var j :| 0 <= j < k + 1 && all[..k + 1][j].id == id;
      if j < k { assert all[..k][j].id == id; }
    }
  }

  lemma DoomedMeans(s: Store, scope: Scope, now: int, id: BackupId)
    requires InScope(s, id, scope)
    ensures id in s.records
    ensures id in Doomed(s, scope, now) <==>
      && (Rank(s, id, scope) >= PolicyOf(s, scope).maxBackups || s.records[id].createdAt < Cutoff(PolicyOf(s, scope), now))
      && !HasChild(s, id, scope)
  {
    hide Rank, HasChild;
  }

  lemma DoomedIsListed(s: Store, scope: Scope, now: int, all: seq<Entry>)
    requires IsListing(s, scope, all)
    ensures Doomed(s, scope, now) * Ids(all) == Doomed(s, scope, now)
  {
    hide Expired, HasChild;
  }

  /** The first entry of a listing with the wanted kind is the newest of that kind. */
  lemma FirstIsNewest(s: Store, scope: Scope, list: seq<Entry>, k: nat, fullOnly: bool)
    requires IsListing(s, scope, list) && k < |list| && (fullOnly ==> list[k].record.kind == Full)
    requires forall j :: 0 <= j < k ==> fullOnly && list[j].record.kind != Full
    ensures IsNewest(s, list[k].id, scope, fullOnly)
  {
    IndexIsRank(s, scope, list, k);
    forall other | other in s.records && InScope(s, other, scope) && (fullOnly ==> s.records[other].kind == Full)
      ensures s.records[other].createdAt <= s.records[list[k].id].createdAt
    {
      assert other in Ids(list);
      var j :| 0 <= j < |list| && list[j].id == other;
    }
  }

  lemma NoneFull(s: Store, scope: Scope, list: seq<Entry>)
    requires IsListing(s, scope, list) && forall j :: 0 <= j < |list| ==> list[j].record.kind != Full
    ensures forall id :: id in s.records && InScope(s, id, scope) ==> s.records[id].kind != Full
  {
    forall id | id in s.records && InScope(s, id, scope) ensures s.records[id].kind != Full {
      assert id in Ids(list);
      var j :| 0 <= j < |list| && list[j].id == id;
    }
  }

  lemma CreateIsEnabled(s: Store, op: Op)
    requires Inv(s) && op.Create? && op.context.canManage && op.id !in s.records
    requires Requested(s, op.components) <= Supported(s) <= op.world.Keys && IsBaseChoice(s, op.context.scope, op.kind, op.base)
    requires forall other :: InScope(s, other, op.context.scope) ==> other in s.records && s.records[other].createdAt != op.createdAt
    ensures Enabled(s, op)
    ensures op.base.Some? ==> op.base.value in s.traces && Resolve(s, op.base.value, {}).Ok?
  {
    hide Inv, Requested, Supported, IsBaseChoice, Resolve;
    if op.base.Some? {
      BaseInScope(s, op.context.scope, op.kind, op.base);
      SameKeys(s);
      ResolveWalks(s, op.base.value, {});
    }
  }

  lemma ApplyCreate(s: Store, s': Store, op: Op, selected: Snapshot, resolved: Snapshot, depth: nat)
    requires op.Create? && Enabled(s, op) && Requested(s, op.components) <= op.world.Keys
    requires var current := Capture(Requested(s, op.components), op.world);
      && (if op.base.None? then selected == current && resolved == current && depth == 0
          else
            && Resolve(s, op.base.value, {}).Ok? && op.base.value in s.traces
            && selected == Changed(current, Resolve(s, op.base.value, {}).value)
            && resolved == Overlaid(Resolve(s, op.base.value, {}).value, selected)
            && depth == s.traces[op.base.value].depth + 1)
      && s' == s.(records := s.records[op.id := Record(op.context.scope, op.kind, current.Keys, op.base, op.createdAt)],
                  artifacts := s.artifacts[op.id := Payload(op.base, selected)],
                  traces := s.traces[op.id := Trace(depth, current, resolved)],
                  total := s.total + 1)
    ensures s' == Apply(s, op)
  {
    hide Requested, Capture, Changed, Overlaid, Resolve, IsBaseChoice, Supported;
  }

  lemma RemoveNothing(s: Store)
    ensures Remove(s, {}) == s
  {
    assert s.records - {} == s.records && s.artifacts - {} == s.artifacts && s.traces - {} == s.traces;
  }

  lemma RemoveTwice(s: Store, ids: set<BackupId>, id: BackupId)
    ensures Remove(Remove(s, ids), {id}) == Remove(s, ids + {id})
  {
    assert s.records - ids - {id} == s.records - (ids + {id});
    assert s.artifacts - ids - {id} == s.artifacts - (ids + {id});
    assert s.traces - ids - {id} == s.traces - (ids + {id});
  }

  lemma ListedChild(s: Store, scope: Scope, all: seq<Entry>, id: BackupId, isBase: bool)
    requires IsListing(s, scope, all)
    requires isBase <==> exists k :: 0 <= k < |all| && all[k].record.base == Some(id)
    ensures isBase <==> HasChild(s, id, scope)
  {
    if isBase {
      var k :| 0 <= k < |all| && all[k].record.base == Some(id);
      assert all[k].id in Ids(all);
      assert InScope(s, all[k].id, scope);
    }
    if HasChild(s, id, scope) {
      var child :| child in s.records && InScope(s, child, scope) && s.records[child].base == Some(id);
      assert child in Ids(all);
      var k :| 0 <= k < |all| && all[k].id == child;
    }
  }

  /** A backup without children in the listing has none later in the pass. */
  lemma StillDeletable(s: Store, scope: Scope, gone: set<BackupId>, id: BackupId)
    requires InScope(s, id, scope) && !HasChild(s, id, scope) && id !in gone
    ensures InScope(Remove(s, gone), id, scope) && !HasChild(Remove(s, gone), id, scope)
  {
    var s' := Remove(s, gone);
    forall child | child in s'.records && InScope(s', child, scope) ensures s'.records[child].base != Some(id) {
      assert InScope(s, child, scope);
    }
  }
}
