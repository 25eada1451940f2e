/**
 * The function engine as an object: its maps are changed step by step, and
 * every operation is proved equal to its specification.
 */
module FunctionEngine {
  import opened Outcome
  import opened JsText
  import opened FunctionVersions

  class Engine {
    var functions: seq<Definition>
    var versions: map<Id, seq<Version>>
    var secrets: seq<Secret>

    ghost function Contents(): State
      reads this
    {
      State(functions, versions, secrets)
    }

    constructor ()
      ensures Contents() == START.state
    {
      functions, versions, secrets := [], map[], [];
    }

    method CreateFunction(scope: Scope, id: Id, name: Text, slugInput: Text, access: Option<Text>,
                          limits: Option<LimitsInput>, code: Option<Text>, now: nat) returns (r: Result<Definition, Error>)
      modifies this
      ensures (Contents(), r) == Create(old(Contents()), scope, id, name, slugInput, access, limits, code, now)
    {
      hide NormaliseSlug, Merge, ValidLimits, DefaultLimits, DefaultCode, Trim;
      var title := Trim(name);
      var slug := NormaliseSlug(if slugInput == [] then title else slugInput);
      if title == [] || slug == [] || |slug| > 80 { return Err(InvalidName); }
      if Find(functions, scope, slug) < |functions| { return Err(AlreadyExists); }
      var resolved := Merge(DefaultLimits(), limits);
      if !ValidLimits(resolved) { return Err(InvalidLimits); }
      var definition := Definition(id, scope, slug, GetOr(access, T("authenticated")), resolved, false, None, now);
      var body := Trim(GetOr(code, []));
      functions := functions + [definition];
      versions := versions[id := [Version(1, if body == [] then DefaultCode(title) else body, Draft)]];
      return Ok(definition);
    }

    method NextNumber(vs: seq<Version>) returns (n: nat)
      ensures n == MaxNumber(vs) + 1
    {
      var max := 0;
      for i := 0 to |vs|
        invariant max == MaxNumber(vs[..i])
      {
        assert vs[..i + 1][..i] == vs[..i];
        if vs[i].number > max { max := vs[i].number; }
      }
      assert vs[..|vs|] == vs;
      n := max + 1;
    }

    method UpdateFunction(scope: Scope, key: Text, code: Text, access: Option<Text>, limits: Option<LimitsInput>, now: nat)
      returns (r: Result<Version, Error>)
      modifies this
      ensures (Contents(), r) == Update(old(Contents()), scope, key, code, access, limits, now)
    {
      hide MaxNumber, Merge, ValidLimits;
      var i := Find(functions, scope, key);
      if i == |functions| { return Err(NotFound); }
      if Trim(code) == [] { return Err(CodeRequired); }
      var definition := functions[i];
      var list := if definition.id in versions then versions[definition.id] else [];
      var number := NextNumber(list);
      var version := Version(number, code, Draft);
      versions := versions[definition.id := list + [version]];
      definition := definition.(access := GetOr(access, definition.access));
      functions := functions[i := definition];
      var resolved := Merge(definition.limits, limits);
      if !ValidLimits(resolved) { return Err(InvalidLimits); }
      definition := definition.(limits := resolved, updatedAt := now);
      functions := functions[i := definition];
      assert functions == old(functions)[i := definition];
      return Ok(version);
    }

    method DeployFunction(scope: Scope, key: Text, requested: Option<nat>, now: nat) returns (r: Result<Definition, Error>)
      modifies this
      ensures (Contents(), r) == Deploy(old(Contents()), scope, key, requested, now)
    {
      var i := Find(functions, scope, key);
      if i == |functions| { return Err(NotFound); }
      var definition := functions[i];
      var list := if definition.id in versions then versions[definition.id] else [];
      var k := if requested.Some? then FindVersion(list, requested.value) else if |list| > 0 then |list| - 1 else 0;
      if k >= |list| { return Err(VersionNotFound); }
      ghost var before := list;
      for j := 0 to |list|
        invariant |list| == |before|
        invariant forall x :: 0 <= x < |list| ==> list[x] == if x < j then Retired(before[x]) else before[x]
      {
        if list[j].status == Published { list := list[j := list[j].(status := Superseded)]; }
      }
      list := list[k := list[k].(status := Published)];
      assert list == Publish(before, k);
      versions := versions[definition.id := list];
      definition := definition.(active := true, currentVersion := Some(list[k].number), updatedAt := now);
      functions := functions[i := definition];
      return Ok(definition);
    }

    method RollbackFunction(scope: Scope, key: Text, version: nat, now: nat) returns (r: Result<Definition, Error>)
      modifies this
      ensures (Contents(), r) == Deploy(old(Contents()), scope, key, Some(version), now)
    {
      r := DeployFunction(scope, key, Some(version), now);
    }

    method DeleteFunction(scope: Scope, key: Text) returns (found: bool)
      modifies this
      ensures (Contents(), found) == Delete(old(Contents()), scope, key)
    {
      var i := Find(functions, scope, key);
      if i == |functions| { return false; }
      versions := versions - {functions[i].id};
      functions := functions[..i] + functions[i + 1..];
      return true;
    }

    /** What execute() looks up before it runs anything. */
    method DeployedVersion(scope: Scope, key: Text) returns (r: Result<Version, Error>)
      ensures r == Deployed(Contents(), scope, key)
    {
      var i := Find(functions, scope, key);
      if i == |functions| || !functions[i].active || GetOr(functions[i].currentVersion, 0) == 0 { return Err(NotDeployed); }
      var list := if functions[i].id in versions then versions[functions[i].id] else [];
      var k := FindVersion(list, functions[i].currentVersion.value);
      if k == |list| { return Err(VersionUnavailable); }
      return Ok(list[k]);
    }

    /** Deletes what the restore replaces, with its versions. */
    method DropReplaced(scope: Scope, only: Option<Id>)
      modifies this
      ensures secrets == old(secrets) && functions == Kept(old(functions), scope, only)
      ensures versions == old(versions) - Gone(old(functions), scope, only)
    {
      hide Replaced, Gone, Kept;
      var all, kept: seq<Definition> := functions, [];
      ghost var gone: set<Id> := {};
      assert all[0..] == all;
      NoneGone(scope, only);
      assert all[..0] == [];
      for i := 0 to |all|
        invariant functions == old(functions) == all && secrets == old(secrets)
        invariant kept + Kept(all[i..], scope, only) == Kept(all, scope, only)
        invariant gone == Gone(all[..i], scope, only)
        invariant versions == old(versions) - gone
      {
        KeptStep(all, i, scope, only);
        GoneStep(all, i, scope, only);
        if Replaced(all[i], scope, only) {
          versions := versions - {all[i].id};
          gone := gone + {all[i].id};
        } else {
          kept := kept + [all[i]];
        }
      }
      assert all[..|all|] == all;
      assert kept + [] == kept;
      NothingKept(all[|all|..], scope, only);
      functions := kept;
    }

    method PutBack(more: seq<Definition>, only: Option<Id>)
      modifies this
      ensures secrets == old(secrets) && versions == old(versions) && functions == PutAll(old(functions), more, only)
    {
      for i := 0 to |more|
        invariant secrets == old(secrets) && versions == old(versions)
        invariant PutAll(functions, more[i..], only) == PutAll(old(functions), more, only)
      {
        assert more[i..][0] == more[i] && more[i..][1..] == more[i + 1..];
        if only.None? || more[i].id == only.value {
          var k := DefinitionIndex(functions, more[i].id);
          functions := if k < |functions| then functions[k := more[i]] else functions + [more[i]];
        }
      }
    }

    method ReplaceSecrets(scope: Scope, more: seq<Secret>)
      modifies this
      ensures functions == old(functions) && versions == old(versions)
      ensures secrets == PutSecrets(SecretsOutside(old(secrets), scope), more)
    {
      var all, kept: seq<Secret> := secrets, [];
      assert all[0..] == all;
      for i := 0 to |all|
        invariant functions == old(functions) && versions == old(versions) && secrets == old(secrets)
        invariant kept + SecretsOutside(all[i..], scope) == SecretsOutside(all, scope)
      {
        assert all[i..][0] == all[i] && all[i..][1..] == all[i + 1..];
        if all[i].scope != scope { kept := kept + [all[i]]; }
      }
      assert kept + [] == kept;
      secrets := kept;
      for i := 0 to |more|
        invariant functions == old(functions) && versions == old(versions)
        invariant PutSecrets(secrets, more[i..]) == PutSecrets(SecretsOutside(old(secrets), scope), more)
      {
        assert more[i..][0] == more[i] && more[i..][1..] == more[i + 1..];
        var k := SecretIndex(secrets, more[i].id);
        secrets := if k < |secrets| then secrets[k := more[i]] else secrets + [more[i]];
      }
    }

    method RestoreBackupState(scope: Scope, e: Export, only: Option<Id>) returns (r: Result<(), Error>)
      modifies this
      ensures (Contents(), r) == Restore(old(Contents()), scope, e, only)
    {
      hide Kept, PutAll, PutSecrets, SecretsOutside, Replaced;
      if only.Some? && Targets(e, only) == {} { return Err(NotInBackup); }
      DropReplaced(scope, only);
      PutBack(e.functions, only);
      versions := versions + map id | id in e.versions && id in Targets(e, only) :: e.versions[id];
      if only.None? { ReplaceSecrets(scope, e.secrets); }
      return Ok(());
    }
  }

  /** The ids of the definitions a restore replaces. */
  ghost function Gone(fs: seq<Definition>, scope: Scope, only: Option<Id>): set<Id> {
    set d | d in fs && Replaced(d, scope, only) :: d.id
  }

  lemma NoneGone(scope: Scope, only: Option<Id>)
    ensures Gone([], scope, only) == {}
  {
  }

  lemma NothingKept(fs: seq<Definition>, scope: Scope, only: Option<Id>)
    ensures |fs| == 0 ==> Kept(fs, scope, only) == []
  {
  }

  lemma KeptStep(fs: seq<Definition>, i: nat, scope: Scope, only: Option<Id>)
    requires i < |fs|
    ensures Kept(fs[i..], scope, only) == (if Replaced(fs[i], scope, only) then [] else [fs[i]]) + Kept(fs[i + 1..], scope, only)
    ensures forall kept: seq<Definition> :: kept + ([fs[i]] + Kept(fs[i + 1..], scope, only)) == kept + [fs[i]] + Kept(fs[i + 1..], scope, only)
    ensures [] + Kept(fs[i + 1..], scope, only) == Kept(fs[i + 1..], scope, only)
  {
    assert fs[i..][0] == fs[i] && fs[i..][1..] == fs[i + 1..];
  }

  lemma GoneStep(fs: seq<Definition>, i: nat, scope: Scope, only: Option<Id>)
    requires i < |fs|
    ensures Gone(fs[..i + 1], scope, only) == Gone(fs[..i], scope, only) + (if Replaced(fs[i], scope, only) then {fs[i].id} else {})
  {
    assert fs[..i + 1] == fs[..i] + [fs[i]];
    assert fs[i] in fs[..i + 1];
    hide Replaced;
  }
}
