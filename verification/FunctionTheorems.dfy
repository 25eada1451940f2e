/**
 * The deployment and backup guarantees of the function engine, over every run
 * of creates, updates, deploys, rollbacks, deletes, exports and restores.
 */
module FunctionTheorems {
  import opened Outcome
  import opened JsText
  import opened FunctionVersions
  import opened FunctionLaws

  // ---------------------------------------------------------- deployment

  lemma DeployedWhen(s: State, owner: map<Id, Scope>, scope: Scope, key: Text)
    requires PartsOk(s.functions, s.versions, s.secrets, owner)
    ensures var i := Find(s.functions, scope, key);
      if i < |s.functions| && s.functions[i].currentVersion.Some? then
        var d := s.functions[i];
        var number := d.currentVersion.value;
        && d.id in s.versions && 1 <= number <= |s.versions[d.id]|
        && Deployed(s, scope, key) == Ok(s.versions[d.id][number - 1])
        && s.versions[d.id][number - 1].number == number && s.versions[d.id][number - 1].status == Published
        && (forall k :: 0 <= k < |s.versions[d.id]| && s.versions[d.id][k].status == Published ==> k == number - 1)
      else Deployed(s, scope, key) == Err(NotDeployed)
  {
    var i := Find(s.functions, scope, key);
    if i < |s.functions| {
      PartsAt(s, owner, i);
      hide PartsOk;
      if s.functions[i].currentVersion.Some? {
        FindNumber(s.versions[s.functions[i].id], s.functions[i].currentVersion.value);
      }
    }
  }

  /**
   * In every reachable state executing a function either reports that nothing
   * is deployed or runs the one published version, the current one.
   */
  lemma ExecuteFindsItsVersion(steps: seq<Step>, y: System, scope: Scope, key: Text)
    requires Run(START, steps, y)
    ensures var s, i := y.state, Find(y.state.functions, scope, key);
      && Deployed(s, scope, key) != Err(VersionUnavailable)
      && (Deployed(s, scope, key).Ok? <==> i < |s.functions| && s.functions[i].currentVersion.Some?)
      && (Deployed(s, scope, key).Ok? ==>
          var v, vs := Deployed(s, scope, key).value, VersionsOf(s, s.functions[i].id);
          v in vs && s.functions[i].currentVersion == Some(v.number) && forall w <- vs :: w.status == Published <==> w == v)
  {
    hide Run, Inv, PartsOk, Deployed, ExportOk, Find;
    ReachableInv(steps, y);
    InvParts(y);
    DeployedWhen(y.state, y.owner, scope, key);
  }

  /** The version numbers of every function are 1 to n, in order, and only the current one is published. */
  lemma VersionsAreNumbered(steps: seq<Step>, y: System, d: Definition)
    requires Run(START, steps, y) && d in y.state.functions
    ensures var vs := VersionsOf(y.state, d.id);
      && |vs| > 0 && (forall k :: 0 <= k < |vs| ==> vs[k].number == k + 1)
      && (d.currentVersion.Some? ==> 1 <= d.currentVersion.value <= |vs|)
      && (forall v <- vs :: v.status == Published <==> d.currentVersion == Some(v.number))
  {
    ReachableInv(steps, y);
    assert VersionsOk(d, y.state.versions[d.id]);
  }

  lemma {:induction false} FindSame(fs: seq<Definition>, i: nat, d: Definition, scope: Scope, key: Text)
    requires i < |fs| && d.id == fs[i].id && d.scope == fs[i].scope && d.slug == fs[i].slug
    ensures Find(fs[i := d], scope, key) == Find(fs, scope, key)
  {
    if i > 0 {
      assert fs[i := d][1..] == fs[1..][i - 1 := d];
      FindSame(fs[1..], i - 1, d, scope, key);
    } else {
      assert fs[0 := d][1..] == fs[1..];
    }
  }

  /** What a successful deploy stores. */
  lemma DeployStores(y: System, scope: Scope, key: Text, requested: Option<nat>, now: nat)
    requires Inv(y) && Deploy(y.state, scope, key, requested, now).1.Ok?
    ensures var s, t, i := y.state, Deploy(y.state, scope, key, requested, now).0, Find(y.state.functions, scope, key);
      && i < |s.functions| && |t.functions| == |s.functions| && Find(t.functions, scope, key) == i
      && var d, vs := s.functions[i], VersionsOf(s, s.functions[i].id);
      && var k := if requested.Some? then requested.value - 1 else |vs| - 1;
      && 0 <= k < |vs| && t.functions[i].id == d.id && t.functions[i].currentVersion == Some(k + 1)
      && d.id in t.versions && t.versions[d.id] == Publish(vs, k)
  {
    var s, i := y.state, Find(y.state.functions, scope, key);
    hide Inv, PartsOk, ExportOk, Find, Publish;
    InvParts(y);
    PartsAt(s, y.owner, i);
    var vs := s.versions[s.functions[i].id];
    if requested.Some? { FindNumber(vs, requested.value); }
    FindSame(s.functions, i, Deploy(s, scope, key, requested, now).0.functions[i], scope, key);
  }

  lemma InvParts(y: System)
    requires Inv(y)
    ensures PartsOk(y.state.functions, y.state.versions, y.state.secrets, y.owner)
  {
  }

  lemma DeployKeepsParts(y: System, scope: Scope, key: Text, requested: Option<nat>, now: nat)
    requires Inv(y)
    ensures var t := Deploy(y.state, scope, key, requested, now).0; PartsOk(t.functions, t.versions, t.secrets, y.owner)
  {
    var step := DeployStep(scope, key, requested, now);
    assert Enabled(y, step);
    hide Inv, PartsOk, Deploy;
    DeployStepKeepsParts(y, step);
  }

  /** A successful deploy or rollback is what execute runs next: the requested version, its code untouched. */
  lemma DeployIsWhatRuns(y: System, scope: Scope, key: Text, requested: Option<nat>, now: nat)
    requires Inv(y) && Deploy(y.state, scope, key, requested, now).1.Ok?
    ensures var s, t := y.state, Deploy(y.state, scope, key, requested, now).0;
      && var i := Find(s.functions, scope, key);
      && i < |s.functions|
      && var vs := VersionsOf(s, s.functions[i].id);
      && var k := if requested.Some? then requested.value - 1 else |vs| - 1;
      && 0 <= k < |vs| && Deployed(t, scope, key) == Ok(vs[k].(status := Published))
  {
    hide Inv, PartsOk, Deploy, Deployed, Find;
    DeployStores(y, scope, key, requested, now);
    DeployKeepsParts(y, scope, key, requested, now);
    DeployedWhen(Deploy(y.state, scope, key, requested, now).0, y.owner, scope, key);
  }

  // ------------------------------------------------- nothing else changes

  /** What a function runs, if it is deployed. */
  function Running(s: State, id: Id): Option<Version> {
    var i := DefinitionIndex(s.functions, id);
    if i == |s.functions| || s.functions[i].currentVersion == None then None
    else
      var vs := VersionsOf(s, id);
      var k := FindVersion(vs, s.functions[i].currentVersion.value);
      if k == |vs| then None else Some(vs[k])
  }

  lemma {:induction false} FindVersionAppend(vs: seq<Version>, v: Version, number: nat)
    ensures FindVersion(vs, number) < |vs| ==> FindVersion(vs + [v], number) == FindVersion(vs, number)
  {
    if |vs| > 0 {
      assert (vs + [v])[1..] == vs[1..] + [v];
      FindVersionAppend(vs[1..], v, number);
    }
  }

  lemma IndexIs(fs: seq<Definition>, i: nat)
    requires DistinctIds(fs) && i < |fs|
    ensures DefinitionIndex(fs, fs[i].id) == i
  {
  }

  lemma {:induction false} IndexSame(fs: seq<Definition>, i: nat, d: Definition, id: Id)
    requires i < |fs| && d.id == fs[i].id
    ensures DefinitionIndex(fs[i := d], id) == DefinitionIndex(fs, id)
  {
    if i > 0 {
      assert fs[i := d][1..] == fs[1..][i - 1 := d];
      IndexSame(fs[1..], i - 1, d, id);
    } else {
      assert fs[0 := d][1..] == fs[1..];
    }
  }

  lemma StateDistinct(y: System)
    requires Inv(y)
    ensures DistinctIds(y.state.functions)
  {
  }

  lemma StateAt(y: System, i: nat)
    requires Inv(y) && i < |y.state.functions|
    ensures var d := y.state.functions[i];
      && d.id in y.state.versions && VersionsOf(y.state, d.id) == y.state.versions[d.id]
      && DefinitionIndex(y.state.functions, d.id) == i
      && (d.currentVersion.Some? ==> FindVersion(y.state.versions[d.id], d.currentVersion.value) < |y.state.versions[d.id]|)
  {
    PartsAt(y.state, y.owner, i);
    StateDistinct(y);
    IndexIs(y.state.functions, i);
    var d := y.state.functions[i];
    if d.currentVersion.Some? { FindNumber(y.state.versions[d.id], d.currentVersion.value); }
  }

  /** What changing one definition and its versions does to what another function, or it itself, runs. */
  lemma RunningAfterReplace(s: State, i: nat, e: Definition, vs: seq<Version>, id: Id)
    requires i < |s.functions| && e.id == s.functions[i].id && DefinitionIndex(s.functions, e.id) == i
    ensures var t := s.(functions := s.functions[i := e], versions := s.versions[e.id := vs]);
      if id != e.id then Running(t, id) == Running(s, id)
      else Running(t, id) == (if e.currentVersion == None || FindVersion(vs, e.currentVersion.value) == |vs| then None
                              else Some(vs[FindVersion(vs, e.currentVersion.value)]))
  {
    IndexSame(s.functions, i, e, id);
    hide FindVersion;
  }

  /** An update, even a refused one, does not change what runs. */
  lemma UpdateKeepsRunning(y: System, scope: Scope, key: Text, code: Text, access: Option<Text>,
                           limits: Option<LimitsInput>, now: nat, id: Id)
    requires Inv(y)
    ensures Running(Update(y.state, scope, key, code, access, limits, now).0, id) == Running(y.state, id)
  {
    hide Inv, Running, ValidLimits, Merge, Trim, MaxNumber, FindVersion, DefinitionIndex;
    var s, t := y.state, Update(y.state, scope, key, code, access, limits, now).0;
    var i := Find(s.functions, scope, key);
    if i < |s.functions| && Trim(code) != [] {
      StateAt(y, i);
      var d, v := s.functions[i], Version(MaxNumber(s.versions[s.functions[i].id]) + 1, code, Draft);
      var vs := s.versions[d.id];
      RunningAfterReplace(s, i, t.functions[i], vs + [v], id);
      RunningAfterReplace(s, i, d, vs, id);
      assert s == s.(functions := s.functions[i := d], versions := s.versions[d.id := vs]);
      if d.currentVersion.Some? { FindVersionAppend(vs, v, d.currentVersion.value); }
      assert t == s.(functions := s.functions[i := t.functions[i]], versions := s.versions[d.id := vs + [v]]);
    }
  }

  /** A deploy changes only what its own function runs. */
  lemma DeployKeepsOthers(y: System, scope: Scope, key: Text, requested: Option<nat>, now: nat, id: Id)
    requires Inv(y)
    requires var i := Find(y.state.functions, scope, key); i < |y.state.functions| ==> y.state.functions[i].id != id
    ensures Running(Deploy(y.state, scope, key, requested, now).0, id) == Running(y.state, id)
  {
    hide Inv, Running, FindVersion, DefinitionIndex;
    var s, t := y.state, Deploy(y.state, scope, key, requested, now).0;
    var i := Find(s.functions, scope, key);
    if t != s {
      StateAt(y, i);
      RunningAfterReplace(s, i, t.functions[i], t.versions[s.functions[i].id], id);
    }
  }

  ghost predicate SameHistory(before: seq<Version>, after: seq<Version>) {
    |before| <= |after| && forall k :: 0 <= k < |before| ==> after[k].number == before[k].number && after[k].code == before[k].code
  }

  lemma UpdateKeepsHistory(y: System, scope: Scope, key: Text, code: Text, access: Option<Text>, limits: Option<LimitsInput>,
                           now: nat, id: Id)
    requires Inv(y)
    ensures SameHistory(VersionsOf(y.state, id), VersionsOf(Update(y.state, scope, key, code, access, limits, now).0, id))
  {
    hide Inv, ValidLimits, Merge, Trim, MaxNumber;
  }

  lemma DeployKeepsHistory(y: System, scope: Scope, key: Text, requested: Option<nat>, now: nat, id: Id)
    requires Inv(y)
    ensures SameHistory(VersionsOf(y.state, id), VersionsOf(Deploy(y.state, scope, key, requested, now).0, id))
  {
    hide Inv;
  }

  lemma HistoryReflexive(vs: seq<Version>)
    ensures SameHistory(vs, vs)
  {
  }

  lemma CreateKeepsHistory(s: State, scope: Scope, newId: Id, name: Text, slugInput: Text, access: Option<Text>,
                           limits: Option<LimitsInput>, code: Option<Text>, now: nat, id: Id)
    requires id != newId
    ensures VersionsOf(Create(s, scope, newId, name, slugInput, access, limits, code, now).0, id) == VersionsOf(s, id)
  {
    hide ValidLimits, Merge, Trim, NormaliseSlug, DefaultCode;
  }

  /** Every step but a deletion and a restore keeps the history of every function. */
  lemma OrdinaryStepKeepsHistory(y: System, step: Step, id: Id)
    requires Inv(y) && Enabled(y, step) && !step.DeleteStep? && !step.RestoreStep? && id in y.state.versions
    ensures SameHistory(y.state.versions[id], VersionsOf(Apply(y, step).state, id))
    ensures id in Apply(y, step).state.versions
  {
    if step.CreateStep? { CreateIdIsNew(y, step, id); }
    KeysStay(y, step, id);
    hide Inv, Enabled, Create, Update, Deploy, SameHistory, ExportOf;
    HistoryReflexive(y.state.versions[id]);
    if step.CreateStep? {
      CreateKeepsHistory(y.state, step.scope, step.id, step.name, step.slug, step.access, step.limits, step.code, step.now, id);
    } else if step.UpdateStep? {
      UpdateKeepsHistory(y, step.scope, step.key, step.source, step.access, step.limits, step.now, id);
    } else if step.DeployStep? {
      DeployKeepsHistory(y, step.scope, step.key, step.requested, step.now, id);
    }
  }

  lemma KeysStay(y: System, step: Step, id: Id)
    requires Enabled(y, step) && !step.DeleteStep? && !step.RestoreStep? && id in y.state.versions
    ensures id in Apply(y, step).state.versions
  {
    hide ValidLimits, Merge, Trim, NormaliseSlug, DefaultCode, MaxNumber, FindVersion, Publish, ExportOf, Find;
  }

  lemma CreateIdIsNew(y: System, step: Step, id: Id)
    requires Inv(y) && Enabled(y, step) && step.CreateStep? && id in y.state.versions
    ensures id != step.id
  {
    assert id in Ids(y.state.functions);
    var d :| d in y.state.functions && d.id == id;
  }

  // --------------------------------------------------- backup and restore

  lemma {:induction false} InScopeConcat(a: seq<Definition>, b: seq<Definition>, scope: Scope)
    ensures InScope(a + b, scope) == InScope(a, scope) + InScope(b, scope)
  {
    if |a| == 0 {
      assert a + b == b;
    } else {
      assert (a + b)[1..] == a[1..] + b;
      InScopeConcat(a[1..], b, scope);
    }
  }

  lemma {:induction false} InScopeAll(fs: seq<Definition>, scope: Scope)
    ensures (forall d <- fs :: d.scope == scope) ==> InScope(fs, scope) == fs
    ensures (forall d <- fs :: d.scope != scope) ==> InScope(fs, scope) == []
  {
    if |fs| > 0 { InScopeAll(fs[1..], scope); }
  }

  lemma {:induction false} InScopeKept(fs: seq<Definition>, scope: Scope, only: Option<Id>, other: Scope)
    requires other != scope
    ensures InScope(Kept(fs, scope, only), other) == InScope(fs, other)
  {
    if |fs| > 0 {
      InScopeKept(fs[1..], scope, only, other);
      var rest := Kept(fs[1..], scope, only);
      if Replaced(fs[0], scope, only) {
        assert Kept(fs, scope, only) == [] + rest == rest;
      } else {
        assert Kept(fs, scope, only) == [fs[0]] + rest;
        InScopeConcat([fs[0]], rest, other);
      }
    }
  }

  lemma {:induction false} SecretsConcat(a: seq<Secret>, b: seq<Secret>, scope: Scope)
    ensures SecretsIn(a + b, scope) == SecretsIn(a, scope) + SecretsIn(b, scope)
  {
    if |a| == 0 {
      assert a + b == b;
    } else {
      assert (a + b)[1..] == a[1..] + b;
      SecretsConcat(a[1..], b, scope);
    }
  }

  lemma {:induction false} SecretsAll(ss: seq<Secret>, scope: Scope)
    ensures (forall x <- ss :: x.scope == scope) ==> SecretsIn(ss, scope) == ss
    ensures (forall x <- ss :: x.scope != scope) ==> SecretsIn(ss, scope) == []
  {
    if |ss| > 0 { SecretsAll(ss[1..], scope); }
  }

  lemma {:induction false} SecretsKeptOutside(ss: seq<Secret>, scope: Scope, other: Scope)
    requires other != scope
    ensures SecretsIn(SecretsOutside(ss, scope), other) == SecretsIn(ss, other)
  {
    if |ss| > 0 {
      SecretsKeptOutside(ss[1..], scope, other);
      if ss[0].scope == scope {
        assert SecretsOutside(ss, scope) == [] + SecretsOutside(ss[1..], scope) == SecretsOutside(ss[1..], scope);
      } else {
        SecretsConcat([ss[0]], SecretsOutside(ss[1..], scope), other);
      }
    }
  }

  function ExportVersions(e: Export, id: Id): seq<Version> { if id in e.versions then e.versions[id] else [] }

  lemma ApartIds(a: seq<Definition>, b: seq<Definition>)
    requires Apart(a, b)
    ensures Ids(a) !! Ids(b)
  {
  }

  lemma PartsKeys(fs: seq<Definition>, versions: map<Id, seq<Version>>, ss: seq<Secret>, owner: map<Id, Scope>)
    requires PartsOk(fs, versions, ss, owner)
    ensures versions.Keys == Ids(fs)
  {
  }

  /** The versions after a restore, function by function. */
  lemma RestoredVersions(s: State, owner: map<Id, Scope>, scope: Scope, e: Export, only: Option<Id>)
    requires PartsOk(s.functions, s.versions, s.secrets, owner) && ExportOk(scope, e, owner)
    requires only.Some? ==> Targets(e, only) != {}
    ensures var t := Restore(s, scope, e, only).0;
      && t.versions.Keys == Ids(Kept(s.functions, scope, only)) + Ids(Chosen(e.functions, only))
      && (forall id <- Ids(Chosen(e.functions, only)) :: id in e.versions && t.versions[id] == e.versions[id])
      && (forall id <- Ids(Kept(s.functions, scope, only)) :: id in s.versions && t.versions[id] == s.versions[id])
  {
    hide *;
    var kept, chosen := Kept(s.functions, scope, only), Chosen(e.functions, only);
    var gone := set d | d in s.functions && Replaced(d, scope, only) :: d.id;
    var back := map id | id in e.versions && id in Targets(e, only) :: e.versions[id];
    KeptIsOk(s, owner, scope, only);
    ChosenIsOk(e, owner, scope, only);
    PartsKeys(kept, s.versions - gone, if only.Some? then s.secrets else SecretsOutside(s.secrets, scope), owner);
    PartsKeys(chosen, back, if only.Some? then [] else e.secrets, owner);
    RestoreUnfold(s, scope, e, only);
    KeepsApart(s, owner, scope, e, only);
    ApartIds(kept, chosen);
    var t := Restore(s, scope, e, only).0;
    assert t.versions == s.versions - gone + back;
    forall id | id in Ids(kept) ensures id in s.versions && t.versions[id] == s.versions[id] {
      assert id in (s.versions - gone).Keys && id !in back.Keys;
    }
    forall id | id in Ids(chosen) ensures id in e.versions && t.versions[id] == e.versions[id] {
      assert id in back.Keys;
    }
  }

  lemma ExportUnfold(s: State, scope: Scope)
    ensures var fs := Sort(InScope(s.functions, scope));
      ExportOf(s, scope) ==
        Export(fs, map id | id in s.versions && id in Ids(fs) :: s.versions[id], SecretsIn(s.secrets, scope))
  {
  }

  lemma ExportMeans(scope: Scope, e: Export, owner: map<Id, Scope>)
    requires ExportOk(scope, e, owner)
    ensures Descending(e.functions) && e.versions.Keys == Ids(e.functions)
    ensures (forall d <- e.functions :: d.scope == scope) && (forall x <- e.secrets :: x.scope == scope)
  {
  }

  lemma KeptOutside(fs: seq<Definition>, scope: Scope)
    ensures forall d <- Kept(fs, scope, None) :: d.scope != scope
  {
    KeptFacts(fs, scope, None);
  }

  /** Restoring an export makes the scope export to the same value again, whatever happened in between. */
  lemma RestoreBringsBack(s: State, owner: map<Id, Scope>, scope: Scope, e: Export)
    requires PartsOk(s.functions, s.versions, s.secrets, owner) && ExportOk(scope, e, owner)
    ensures ExportOf(Restore(s, scope, e, None).0, scope) == e
  {
    hide *;
    var t := Restore(s, scope, e, None).0;
    var kept, outside := Kept(s.functions, scope, None), SecretsOutside(s.secrets, scope);
    ExportMeans(scope, e, owner);
    RestoreIs(s, owner, scope, e, None);
    ChosenFacts(e.functions, None);
    assert InScope(t.functions, scope) == e.functions by {
      KeptOutside(s.functions, scope);
      InScopeAll(kept, scope);
      InScopeAll(e.functions, scope);
      InScopeConcat(kept, e.functions, scope);
      assert [] + e.functions == e.functions;
    }
    assert SecretsIn(t.secrets, scope) == e.secrets by {
      SecretsOutsideFacts(s.secrets, scope);
      SecretsAll(outside, scope);
      SecretsAll(e.secrets, scope);
      SecretsConcat(outside, e.secrets, scope);
      assert [] + e.secrets == e.secrets;
    }
    SortOfSorted(e.functions);
    RestoredVersions(s, owner, scope, e, None);
    ExportUnfold(t, scope);
    assert (map id | id in t.versions && id in Ids(e.functions) :: t.versions[id]) == e.versions;
  }

  /** A restore, of a whole scope or of one function, leaves every other scope as it was. */
  lemma RestoreSparesOthers(s: State, owner: map<Id, Scope>, scope: Scope, e: Export, only: Option<Id>, other: Scope)
    requires PartsOk(s.functions, s.versions, s.secrets, owner) && ExportOk(scope, e, owner) && other != scope
    ensures ExportOf(Restore(s, scope, e, only).0, other) == ExportOf(s, other)
  {
    if only.Some? && Targets(e, only) == {} {
    } else {
      hide *;
      var t := Restore(s, scope, e, only).0;
      var kept, chosen := Kept(s.functions, scope, only), Chosen(e.functions, only);
      ExportMeans(scope, e, owner);
      RestoreIs(s, owner, scope, e, only);
      assert InScope(t.functions, other) == InScope(s.functions, other) by {
        ChosenFacts(e.functions, only);
        InScopeAll(chosen, other);
        InScopeConcat(kept, chosen, other);
        InScopeKept(s.functions, scope, only, other);
        assert InScope(s.functions, other) + [] == InScope(s.functions, other);
      }
      assert SecretsIn(t.secrets, other) == SecretsIn(s.secrets, other) by {
        if only == None {
          SecretsConcat(SecretsOutside(s.secrets, scope), e.secrets, other);
          SecretsAll(e.secrets, other);
          SecretsKeptOutside(s.secrets, scope, other);
          assert SecretsIn(s.secrets, other) + [] == SecretsIn(s.secrets, other);
        }
      }
      OtherVersions(s, owner, scope, e, only, other);
      ExportUnfold(s, other);
      ExportUnfold(t, other);
    }
  }

  lemma OtherVersions(s: State, owner: map<Id, Scope>, scope: Scope, e: Export, only: Option<Id>, other: Scope)
    requires PartsOk(s.functions, s.versions, s.secrets, owner) && ExportOk(scope, e, owner) && other != scope
    requires only.Some? ==> Targets(e, only) != {}
    ensures var t, ids := Restore(s, scope, e, only).0, Ids(Sort(InScope(s.functions, other)));
      (map id | id in t.versions && id in ids :: t.versions[id]) == (map id | id in s.versions && id in ids :: s.versions[id])
  {
    hide *;
    var t, ids := Restore(s, scope, e, only).0, Ids(Sort(InScope(s.functions, other)));
    RestoredVersions(s, owner, scope, e, only);
    OtherIdsKept(s.functions, scope, only, other);
  }

  lemma OtherIdsKept(fs: seq<Definition>, scope: Scope, only: Option<Id>, other: Scope)
    requires other != scope
    ensures Ids(Sort(InScope(fs, other))) <= Ids(Kept(fs, scope, only))
  {
    SortFacts(InScope(fs, other));
    InScopeFacts(fs, other);
    KeptFacts(fs, scope, only);
  }

  /** Over whole runs: an export restored after any further steps undoes them for its scope and nothing else. */
  lemma RestoreUndoesARun(before: seq<Step>, y: System, scope: Scope, after: seq<Step>, z: System, other: Scope)
    requires Run(START, before, y) && Run(Apply(y, ExportStep(scope)), after, z)
    ensures |y.exports| < |z.exports| && z.exports[|y.exports|] == (scope, ExportOf(y.state, scope))
    ensures var t := Apply(z, RestoreStep(|y.exports|, None)).state;
      && ExportOf(t, scope) == ExportOf(y.state, scope)
      && (other != scope ==> ExportOf(t, other) == ExportOf(z.state, other))
  {
    hide *;
    ReachableInv(before, y);
    ExportStepIs(y, scope);
    StepKeepsInv(y, ExportStep(scope));
    var k, x := |y.exports|, Apply(y, ExportStep(scope));
    RunKeepsInv(x, after, z);
    assert x.exports[k] == z.exports[k];
    InvMeans(z, k);
    RestoreStepIs(z, k);
    RestoreBringsBack(z.state, z.owner, scope, z.exports[k].1);
    if other != scope { RestoreSparesOthers(z.state, z.owner, scope, z.exports[k].1, None, other); }
  }

  lemma ExportStepIs(y: System, scope: Scope)
    ensures Enabled(y, ExportStep(scope)) && Apply(y, ExportStep(scope)).exports == y.exports + [(scope, ExportOf(y.state, scope))]
  {
  }

  lemma RestoreStepIs(z: System, k: nat)
    requires k < |z.exports|
    ensures Enabled(z, RestoreStep(k, None))
    ensures Apply(z, RestoreStep(k, None)).state == Restore(z.state, z.exports[k].0, z.exports[k].1, None).0
  {
  }

  lemma InvMeans(z: System, k: nat)
    requires Inv(z) && k < |z.exports|
    ensures PartsOk(z.state.functions, z.state.versions, z.state.secrets, z.owner)
    ensures ExportOk(z.exports[k].0, z.exports[k].1, z.owner)
  {
  }

  // ------------------------------------------------ histories of versions

  /** Some function of the state with this id is replaced by the restore. */
  predicate Hit(s: State, id: Id, scope: Scope, only: Option<Id>) {
    exists d <- s.functions :: d.id == id && Replaced(d, scope, only)
  }

  /**
   * The step does not take the versions of the function away: it deletes
   * another one, and a restore replaces it, if at all, by an export that
   * continues its versions.
   */
  ghost predicate Spares(y: System, step: Step, id: Id)
    requires Enabled(y, step) && id in y.state.versions
  {
    match step
    case DeleteStep(scope, key) =>
      var i := Find(y.state.functions, scope, key);
      i == |y.state.functions| || y.state.functions[i].id != id
    case RestoreStep(k, only) =>
      var scope, e := y.exports[k].0, y.exports[k].1;
      || (only.Some? && Targets(e, only) == {})
      || !Hit(y.state, id, scope, only)
      || (id in Targets(e, only) && id in e.versions && SameHistory(y.state.versions[id], e.versions[id]))
    case _ => true
  }

  /** The function's versions are still there after the step, none changed, perhaps more at the end. */
  ghost predicate HistoryKept(y: System, step: Step, id: Id)
    requires Enabled(y, step) && id in y.state.versions
  {
    id in Apply(y, step).state.versions && SameHistory(y.state.versions[id], Apply(y, step).state.versions[id])
  }

  lemma DeleteKeepsExactlyWhen(y: System, scope: Scope, key: Text, id: Id)
    requires Inv(y) && id in y.state.versions
    ensures HistoryKept(y, DeleteStep(scope, key), id) <==> Spares(y, DeleteStep(scope, key), id)
  {
    HistoryReflexive(y.state.versions[id]);
    hide Inv, SameHistory, Find;
  }

  lemma HitMeans(s: State, owner: map<Id, Scope>, scope: Scope, only: Option<Id>, id: Id)
    requires PartsOk(s.functions, s.versions, s.secrets, owner) && id in s.versions
    ensures id in Ids(Kept(s.functions, scope, only)) <==> !Hit(s, id, scope, only)
  {
    PartsKeys(s.functions, s.versions, s.secrets, owner);
    var d :| d in s.functions && d.id == id;
    PartsDistinct(s.functions, s.versions, s.secrets, owner);
    OneWithId(s.functions, d);
    hide PartsOk, DistinctIds, Replaced;
    KeptFacts(s.functions, scope, only);
    if !Hit(s, id, scope, only) { assert d in Kept(s.functions, scope, only); }
  }

  lemma OneWithId(fs: seq<Definition>, d: Definition)
    requires DistinctIds(fs) && d in fs
    ensures forall x <- fs :: x.id == d.id ==> x == d
  {
    var i :| 0 <= i < |fs| && fs[i] == d;
    forall x | x in fs && x.id == d.id ensures x == d { var j :| 0 <= j < |fs| && fs[j] == x; }
  }

  lemma ChosenAreTargets(e: Export, only: Option<Id>)
    ensures Ids(Chosen(e.functions, only)) == Targets(e, only)
  {
    ChosenFacts(e.functions, only);
    hide Chosen;
    forall id | id in Targets(e, only) ensures id in Ids(Chosen(e.functions, only)) {
      var d :| d in e.functions && d.id == id;
      assert d in Chosen(e.functions, only);
    }
  }

  lemma RestoreKeepsExactlyWhen(y: System, k: nat, only: Option<Id>, id: Id)
    requires Inv(y) && k < |y.exports| && id in y.state.versions
    ensures HistoryKept(y, RestoreStep(k, only), id) <==> Spares(y, RestoreStep(k, only), id)
  {
    var s, scope, e := y.state, y.exports[k].0, y.exports[k].1;
    InvMeans(y, k);
    HistoryReflexive(s.versions[id]);
    hide Inv, PartsOk, ExportOk, SameHistory, Hit, Kept, Chosen, Targets;
    if only.Some? && Targets(e, only) == {} {
    } else {
      RestoredVersions(s, y.owner, scope, e, only);
      HitMeans(s, y.owner, scope, only, id);
      ChosenAreTargets(e, only);
      hide Restore;
    }
  }

  /** A step keeps the versions of a function, their numbers and their code, exactly when it spares them. */
  lemma VersionsAreImmutable(y: System, step: Step, id: Id)
    requires Inv(y) && Enabled(y, step) && id in y.state.versions
    ensures HistoryKept(y, step, id) <==> Spares(y, step, id)
  {
    if step.DeleteStep? {
      DeleteKeepsExactlyWhen(y, step.scope, step.key, id);
    } else if step.RestoreStep? {
      RestoreKeepsExactlyWhen(y, step.k, step.only, id);
    } else {
      OrdinaryStepKeepsHistory(y, step, id);
      hide Inv, Apply, SameHistory;
    }
  }

  /** Every step of the run spares the versions of the function. */
  ghost predicate Spared(y: System, steps: seq<Step>, id: Id)
    decreases |steps|
  {
    |steps| == 0 ||
    (Enabled(y, steps[0]) && id in y.state.versions && Spares(y, steps[0], id) && Spared(Apply(y, steps[0]), steps[1..], id))
  }

  /** Every state of the run continues the versions of the one before. */
  ghost predicate KeptThroughout(y: System, steps: seq<Step>, id: Id)
    decreases |steps|
  {
    |steps| == 0 ||
    (Enabled(y, steps[0]) && id in y.state.versions && HistoryKept(y, steps[0], id) && KeptThroughout(Apply(y, steps[0]), steps[1..], id))
  }

  lemma HistoryTransitive(a: seq<Version>, b: seq<Version>, c: seq<Version>)
    requires SameHistory(a, b) && SameHistory(b, c)
    ensures SameHistory(a, c)
  {
  }

  lemma {:induction false} HistoryAlong(y: System, steps: seq<Step>, z: System, id: Id)
    requires Inv(y) && Run(y, steps, z) && id in y.state.versions
    ensures KeptThroughout(y, steps, id) <==> Spared(y, steps, id)
    ensures Spared(y, steps, id) ==> id in z.state.versions && SameHistory(y.state.versions[id], z.state.versions[id])
    decreases |steps|
  {
    hide Inv, Apply, Enabled, Spares, SameHistory;
    if |steps| == 0 {
      HistoryReflexive(y.state.versions[id]);
    } else {
      var next := Apply(y, steps[0]);
      StepKeepsInv(y, steps[0]);
      VersionsAreImmutable(y, steps[0], id);
      if Spares(y, steps[0], id) {
        HistoryAlong(next, steps[1..], z, id);
        if Spared(next, steps[1..], id) {
          HistoryTransitive(y.state.versions[id], next.state.versions[id], z.state.versions[id]);
        }
      }
    }
  }

  /** Over whole runs: versions stay as they are, in every state, exactly while no step takes them away. */
  lemma HistoryLastsExactlyWhen(before: seq<Step>, y: System, steps: seq<Step>, z: System, id: Id)
    requires Run(START, before, y) && Run(y, steps, z) && id in y.state.versions
    ensures KeptThroughout(y, steps, id) <==> Spared(y, steps, id)
    ensures Spared(y, steps, id) ==> id in z.state.versions && SameHistory(y.state.versions[id], z.state.versions[id])
  {
    hide *;
    ReachableInv(before, y);
    HistoryAlong(y, steps, z, id);
  }

  /** Restoring one function brings that one back and leaves all others, and all secrets, alone. */
  lemma SingleRestoreIsLocal(s: State, owner: map<Id, Scope>, scope: Scope, e: Export, d: Definition)
    requires PartsOk(s.functions, s.versions, s.secrets, owner) && ExportOk(scope, e, owner) && d in e.functions
    ensures var t := Restore(s, scope, e, Some(d.id)).0;
      && t.secrets == s.secrets && d in t.functions && VersionsOf(t, d.id) == ExportVersions(e, d.id)
      && forall x: Definition :: x.id != d.id ==>
         (x in t.functions <==> x in s.functions) && (x in s.functions ==> VersionsOf(t, x.id) == VersionsOf(s, x.id))
  {
    hide PartsOk, ExportOk, Restore, Kept, Chosen, Descending;
    var t, only := Restore(s, scope, e, Some(d.id)).0, Some(d.id);
    var kept, chosen := Kept(s.functions, scope, only), Chosen(e.functions, only);
    assert d.id in Targets(e, only);
    RestoreIs(s, owner, scope, e, only);
    KeptFacts(s.functions, scope, only);
    ChosenFacts(e.functions, only);
    RestoredVersions(s, owner, scope, e, only);
    assert d.id in Ids(chosen);
    forall x: Definition | x.id != d.id && x in s.functions ensures VersionsOf(t, x.id) == VersionsOf(s, x.id) {
      assert x in kept && x.id in Ids(kept);
    }
  }

  // ------------------------------------------------------------- creation

  /** What a creation asks for, the defaults filled in. */
  function AskedLimits(limits: Option<LimitsInput>): Limits {
    if limits.None? then Limits(15_000, 128, T("shared"))
    else
      Limits(if limits.value.timeoutMs.Some? then limits.value.timeoutMs.value else 15_000,
             if limits.value.memoryMb.Some? then limits.value.memoryMb.value else 128,
             if limits.value.cpuProfile.Some? then limits.value.cpuProfile.value else T("shared"))
  }

  predicate Offered(l: Limits) {
    && (l.timeoutMs == 5_000 || l.timeoutMs == 15_000 || l.timeoutMs == 30_000 || l.timeoutMs == 60_000)
    && (l.memoryMb == 128 || l.memoryMb == 256 || l.memoryMb == 512 || l.memoryMb == 1_024)
    && (l.cpuProfile == T("shared") || l.cpuProfile == T("standard") || l.cpuProfile == T("performance"))
  }

  /**
   * A function is created exactly when it has a name and a slug of 1 to 80
   * units that nothing in its scope is called by, and limits that are offered.
   */
  lemma CreatedExactlyWhen(s: State, scope: Scope, id: Id, name: Text, slugInput: Text, access: Option<Text>,
                           limits: Option<LimitsInput>, code: Option<Text>, now: nat)
    ensures var slug := NormaliseSlug(if slugInput == [] then Trim(name) else slugInput);
      Create(s, scope, id, name, slugInput, access, limits, code, now).1.Ok? <==>
        && Trim(name) != [] && 1 <= |slug| <= 80 && Offered(AskedLimits(limits))
        && forall d <- s.functions :: d.scope == scope ==> d.id != slug && d.slug != slug
  {
    hide NormaliseSlug, Trim, T, DefaultCode;
    var slug := NormaliseSlug(if slugInput == [] then Trim(name) else slugInput);
    var k := Find(s.functions, scope, slug);
    if k < |s.functions| { assert s.functions[k] in s.functions; }
    if d :| d in s.functions && d.scope == scope && (d.id == slug || d.slug == slug) {
      var j :| 0 <= j < |s.functions| && s.functions[j] == d;
      assert j >= k;
    }
    hide Find;
  }

  /** A created function is inactive, with the limits asked for and one draft, and everything else stays. */
  lemma CreationAddsADraft(s: State, scope: Scope, id: Id, name: Text, slugInput: Text, access: Option<Text>,
                           limits: Option<LimitsInput>, code: Option<Text>, now: nat)
    ensures var (t, r) := Create(s, scope, id, name, slugInput, access, limits, code, now);
      && (r.Err? ==> t == s)
      && (r.Ok? ==>
            && t.functions == s.functions + [r.value] && t.secrets == s.secrets
            && r.value.id == id && r.value.scope == scope && r.value.limits == AskedLimits(limits)
            && !r.value.active && r.value.currentVersion == None
            && id in t.versions && t.versions == s.versions[id := t.versions[id]]
            && |t.versions[id]| == 1 && t.versions[id][0].number == 1 && t.versions[id][0].status == Draft
            && (code.Some? && Trim(code.value) != [] ==> t.versions[id][0].code == Trim(code.value)))
  {
    hide NormaliseSlug, Trim, T, DefaultCode, Find, ValidLimits;
  }

  // ------------------------------------------------ deployments and updates

  predicate Called(d: Definition, scope: Scope, key: Text) { d.scope == scope && (d.id == key || d.slug == key) }

  lemma FindsTheFirstCalled(fs: seq<Definition>, scope: Scope, key: Text)
    ensures Find(fs, scope, key) == |fs| <==> forall d <- fs :: !Called(d, scope, key)
    ensures Find(fs, scope, key) < |fs| ==> Called(fs[Find(fs, scope, key)], scope, key)
  {
    var k := Find(fs, scope, key);
    if k < |fs| { assert fs[k] in fs; }
  }

  /**
   * A deployment succeeds exactly when the function is there and has the version
   * asked for, or any at all when none is asked for; each refusal says which was missing.
   */
  lemma DeploysExactlyWhen(s: State, scope: Scope, key: Text, requested: Option<nat>, now: nat)
    ensures var (t, r) := Deploy(s, scope, key, requested, now);
      && (r == Err(NotFound) <==> forall d <- s.functions :: !Called(d, scope, key))
      && (r.Err? ==> t == s && (r.error == NotFound || r.error == VersionNotFound))
      && (Find(s.functions, scope, key) < |s.functions| ==>
            var vs := VersionsOf(s, s.functions[Find(s.functions, scope, key)].id);
            r.Ok? <==> if requested.Some? then exists v <- vs :: v.number == requested.value else vs != [])
  {
    FindsTheFirstCalled(s.functions, scope, key);
    var i := Find(s.functions, scope, key);
    if i < |s.functions| && requested.Some? {
      var vs := VersionsOf(s, s.functions[i].id);
      var k := FindVersion(vs, requested.value);
      if k < |vs| { assert vs[k] in vs; }
    }
    hide Find, FindVersion, Publish;
  }

  /** A deployment supersedes what was published and leaves every other status, and all code and numbers, as they were. */
  lemma DeploySupersedes(s: State, scope: Scope, key: Text, requested: Option<nat>, now: nat, j: nat)
    requires Deploy(s, scope, key, requested, now).1.Ok?
    ensures var i := Find(s.functions, scope, key);
      && i < |s.functions|
      && var id, t := s.functions[i].id, Deploy(s, scope, key, requested, now).0;
      && id in t.versions && |t.versions[id]| == |VersionsOf(s, id)|
      && (j < |t.versions[id]| ==>
            var before, after := VersionsOf(s, id)[j], t.versions[id][j];
            && after.number == before.number && after.code == before.code
            && (after.status == before.status || after.status == Published
                || (before.status == Published && after.status == Superseded)))
  {
    hide Find, FindVersion;
  }

  /** An update adds a draft whenever the function is there and the code is not blank; only then may its limits be refused. */
  lemma UpdatesExactlyWhen(s: State, scope: Scope, key: Text, code: Text, access: Option<Text>, limits: Option<LimitsInput>, now: nat)
    ensures var (t, r) := Update(s, scope, key, code, access, limits, now);
      && (r == Err(NotFound) <==> forall d <- s.functions :: !Called(d, scope, key))
      && (r.Err? && r.error != InvalidLimits ==> t == s && (r.error == NotFound || (r.error == CodeRequired && Trim(code) == [])))
      && (r.Ok? || r == Err(InvalidLimits) ==>
            && Trim(code) != []
            && var i := Find(s.functions, scope, key);
            && i < |s.functions|
            && var id, vs := s.functions[i].id, VersionsOf(s, s.functions[i].id);
            && id in t.versions && |t.versions[id]| == |vs| + 1 && vs <= t.versions[id]
            && t.versions[id][|vs|].code == code && t.versions[id][|vs|].status == Draft
            && |t.functions| == |s.functions| && t.functions[i].access == (if access.Some? then access.value else s.functions[i].access)
            && (r.Ok? ==> Offered(t.functions[i].limits))
            && (r.Err? ==> t.functions[i].limits == s.functions[i].limits))
  {
    FindsTheFirstCalled(s.functions, scope, key);
    hide Find, Trim, T, MaxNumber;
  }

  /** Executing reports nothing deployed exactly for functions that are missing, inactive or without a current version. */
  lemma NothingDeployedExactlyWhen(s: State, scope: Scope, key: Text)
    ensures Deployed(s, scope, key) == Err(NotDeployed) <==>
      var i := Find(s.functions, scope, key);
      i == |s.functions| || !s.functions[i].active || s.functions[i].currentVersion == None || s.functions[i].currentVersion == Some(0)
  {
    hide Find, FindVersion;
  }
}
