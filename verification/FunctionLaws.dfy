/**
 * What every operation on functions keeps, and what a restore brings back.
 */
module FunctionLaws {
  import opened Outcome
  import opened JsText
  import opened FunctionVersions

  // ---------------------------------------------------------------- slugs

  lemma {:induction false} DashedIsSlug(t: Text, gap: bool)
    ensures IsSlug(Dashed(t, gap))
  {
    if |t| > 0 { DashedIsSlug(t[1..], !SlugUnit(LowerUnit(t[0]))); }
    if |t| > 0 && !SlugUnit(LowerUnit(t[0])) {
      DashedIsSlug(t[1..], true);
    }
  }

  lemma {:induction false} StripStartIsSlug(t: Text)
    requires IsSlug(t)
    ensures IsSlug(StripStart(t))
  {
    if |t| > 0 { StripStartIsSlug(t[1..]); }
  }

  lemma {:induction false} StripEndIsSlug(t: Text)
    requires IsSlug(t)
    ensures IsSlug(StripEnd(t))
  {
    if |t| > 0 { StripEndIsSlug(t[..|t| - 1]); }
  }

  lemma NormalisedIsSlug(t: Text)
    ensures IsSlug(NormaliseSlug(t))
  {
    DashedIsSlug(Trim(t), false);
    StripStartIsSlug(Dashed(Trim(t), false));
    StripEndIsSlug(StripStart(Dashed(Trim(t), false)));
  }

  // ---------------------------------------------------------- single steps

  lemma {:induction false} NumbersGiveMax(vs: seq<Version>)
    requires forall k :: 0 <= k < |vs| ==> vs[k].number == k + 1
    ensures MaxNumber(vs) == |vs|
  {
    if |vs| > 0 { NumbersGiveMax(vs[..|vs| - 1]); }
  }

  lemma FindNumber(vs: seq<Version>, number: nat)
    requires forall k :: 0 <= k < |vs| ==> vs[k].number == k + 1
    ensures FindVersion(vs, number) == if 1 <= number <= |vs| then number - 1 else |vs|
  {
    assert 1 <= number <= |vs| ==> vs[number - 1].number == number;
  }

  lemma ReplacedFacts(fs: seq<Definition>, i: nat, d: Definition)
    requires DistinctIds(fs) && i < |fs| && d.id == fs[i].id
    ensures DistinctIds(fs[i := d]) && Ids(fs[i := d]) == Ids(fs)
    ensures forall x <- fs[i := d] :: x == d || (x in fs && x.id != d.id)
    ensures fs[i] in fs
  {
    var next := fs[i := d];
    assert forall j :: 0 <= j < |fs| ==> next[j].id == fs[j].id;
    forall x | x in Ids(fs) ensures x in Ids(next) {
      var j :| 0 <= j < |fs| && fs[j].id == x;
      assert next[j] in next;
    }
    forall x | x in Ids(next) ensures x in Ids(fs) {
      var j :| 0 <= j < |next| && next[j].id == x;
      assert fs[j] in fs;
    }
  }

  /** Replacing a definition by one with the same id, scope and slug. */
  lemma ReplaceKeepsParts(fs: seq<Definition>, versions: map<Id, seq<Version>>, ss: seq<Secret>, owner: map<Id, Scope>,
                          i: nat, d: Definition, vs: seq<Version>)
    requires PartsOk(fs, versions, ss, owner) && i < |fs| && VersionsOk(d, vs)
    requires d.id == fs[i].id && d.scope == fs[i].scope && d.slug == fs[i].slug
    ensures PartsOk(fs[i := d], versions[d.id := vs], ss, owner)
  {
    ReplacedFacts(fs, i, d);
    hide VersionsOk, DistinctIds, DistinctSecrets, IsSlug;
    assert d.id in Ids(fs);
  }

  lemma AppendKeepsVersionsOk(d: Definition, vs: seq<Version>, e: Definition, code: Text)
    requires VersionsOk(d, vs) && e.active == d.active && e.currentVersion == d.currentVersion
    ensures VersionsOk(e, vs + [Version(MaxNumber(vs) + 1, code, Draft)])
  {
    NumbersGiveMax(vs);
  }

  lemma PublishVersionsOk(d: Definition, vs: seq<Version>, k: nat, now: nat)
    requires VersionsOk(d, vs) && k < |vs|
    ensures VersionsOk(d.(active := true, currentVersion := Some(vs[k].number), updatedAt := now), Publish(vs, k))
  {
  }

  lemma CreateKeepsParts(s: State, owner: map<Id, Scope>, d: Definition, v: Version)
    requires PartsOk(s.functions, s.versions, s.secrets, owner) && d.id !in owner && U('_') in d.id && IsSlug(d.slug)
    requires v.number == 1 && v.status == Draft && !d.active && d.currentVersion == None
    ensures PartsOk(s.functions + [d], s.versions[d.id := [v]], s.secrets, owner[d.id := d.scope])
  {
    var next := s.functions + [d];
    assert VersionsOk(d, [v]);
    forall i, j | 0 <= i < j < |next| ensures next[i].id != next[j].id {
      assert s.functions[i] in s.functions;
    }
    assert DistinctIds(next);
    hide VersionsOk, DistinctIds, DistinctSecrets, IsSlug;
    forall x | x in next ensures x == d || (x in s.functions && x.id != d.id) {}
    assert Ids(next) == Ids(s.functions) + {d.id} by { assert d in next; }
  }

  lemma NewOwnerKeepsParts(fs: seq<Definition>, versions: map<Id, seq<Version>>, ss: seq<Secret>, owner: map<Id, Scope>,
                           id: Id, scope: Scope)
    requires PartsOk(fs, versions, ss, owner) && id !in owner
    ensures PartsOk(fs, versions, ss, owner[id := scope])
  {
    hide VersionsOk;
  }

  lemma RemovedFacts(fs: seq<Definition>, i: nat)
    requires DistinctIds(fs) && i < |fs|
    ensures var next := fs[..i] + fs[i + 1..];
      DistinctIds(next) && Ids(next) == Ids(fs) - {fs[i].id} && forall x <- next :: x in fs && x.id != fs[i].id
  {
    var next := fs[..i] + fs[i + 1..];
    assert forall j :: 0 <= j < |next| ==> next[j] == fs[if j < i then j else j + 1];
    forall x | x in next ensures x in fs && x.id != fs[i].id {
      var j :| 0 <= j < |next| && next[j] == x;
      assert fs[if j < i then j else j + 1] in fs;
    }
    forall x | x in Ids(fs) && x != fs[i].id ensures x in Ids(next) {
      var j :| 0 <= j < |fs| && fs[j].id == x;
      assert next[if j < i then j else j - 1] == fs[j];
    }
  }

  lemma DeleteKeepsParts(s: State, owner: map<Id, Scope>, i: nat)
    requires PartsOk(s.functions, s.versions, s.secrets, owner) && i < |s.functions|
    ensures PartsOk(s.functions[..i] + s.functions[i + 1..], s.versions - {s.functions[i].id}, s.secrets, owner)
  {
    RemovedFacts(s.functions, i);
    hide VersionsOk, DistinctIds, DistinctSecrets, IsSlug;
  }

  lemma SecretsKept(s: State, t: State, owner: map<Id, Scope>)
    requires PartsOk(s.functions, s.versions, s.secrets, owner) && t == s.(secrets := t.secrets)
    requires DistinctSecrets(t.secrets) && SecretsOwned(t.secrets, owner)
    ensures PartsOk(t.functions, t.versions, t.secrets, owner)
  {
  }

  lemma SetSecretKeepsParts(s: State, owner: map<Id, Scope>, scope: Scope, id: Id, name: Text, encrypted: Text)
    requires PartsOk(s.functions, s.versions, s.secrets, owner) && id !in owner
    ensures var t := SetSecret(s, scope, id, name, encrypted);
      PartsOk(t.functions, t.versions, t.secrets, owner[id := scope])
  {
    var t, i := SetSecret(s, scope, id, name, encrypted), FindSecret(s.secrets, scope, name);
    NewOwnerKeepsParts(s.functions, s.versions, s.secrets, owner, id, scope);
    forall x | x in s.secrets ensures x.id != id {}
    if i < |s.secrets| {
      assert s.secrets[i] in s.secrets;
      forall x | x in t.secrets ensures x == t.secrets[i] || x in s.secrets {}
    } else {
      forall a, b | 0 <= a < b < |t.secrets| ensures t.secrets[a].id != t.secrets[b].id { assert s.secrets[a] in s.secrets; }
    }
    SecretsKept(s, t, owner[id := scope]);
  }

  lemma DeleteSecretKeepsParts(s: State, owner: map<Id, Scope>, scope: Scope, name: Text)
    requires PartsOk(s.functions, s.versions, s.secrets, owner)
    ensures var t := DeleteSecret(s, scope, name); PartsOk(t.functions, t.versions, t.secrets, owner)
  {
    var t, i := DeleteSecret(s, scope, name), FindSecret(s.secrets, scope, name);
    if i < |s.secrets| {
      assert forall j :: 0 <= j < |t.secrets| ==> t.secrets[j] == s.secrets[if j < i then j else j + 1];
      forall x | x in t.secrets ensures x in s.secrets {
        var j :| 0 <= j < |t.secrets| && t.secrets[j] == x;
        assert s.secrets[if j < i then j else j + 1] in s.secrets;
      }
    }
    SecretsKept(s, t, owner);
  }

  // -------------------------------------------------------------- export

  /** Putting a new id in front of definitions drawn from a list that does not hold it. */
  lemma PrependFacts(d: Definition, fs: seq<Definition>)
    requires DistinctIds(fs) && forall x <- fs :: x.id != d.id
    ensures DistinctIds([d] + fs)
  {
    forall i, j | 0 <= i < j < |[d] + fs| ensures ([d] + fs)[i].id != ([d] + fs)[j].id {
      assert fs[j - 1] in fs;
    }
  }

  lemma PrependDescends(d: Definition, fs: seq<Definition>)
    requires Descending(fs) && forall x <- fs :: d.updatedAt >= x.updatedAt
    ensures Descending([d] + fs)
  {
    forall i, j | 0 <= i < j < |[d] + fs| ensures ([d] + fs)[i].updatedAt >= ([d] + fs)[j].updatedAt {
      assert fs[j - 1] in fs;
    }
  }

  lemma HeadFacts(fs: seq<Definition>)
    requires |fs| > 0
    ensures fs == [fs[0]] + fs[1..]
    ensures Descending(fs) ==> Descending(fs[1..]) && forall x <- fs[1..] :: fs[0].updatedAt >= x.updatedAt
    ensures DistinctIds(fs) ==> DistinctIds(fs[1..]) && forall x <- fs[1..] :: x.id != fs[0].id
  {
    forall x | x in fs[1..] ensures exists k :: 0 < k < |fs| && fs[k] == x {
      var k :| 0 <= k < |fs[1..]| && fs[1..][k] == x;
      assert fs[k + 1] == x;
    }
  }

  lemma {:induction false} InScopeFacts(fs: seq<Definition>, scope: Scope)
    ensures forall d :: d in InScope(fs, scope) <==> d in fs && d.scope == scope
    ensures DistinctIds(fs) ==> DistinctIds(InScope(fs, scope))
  {
    if |fs| > 0 {
      hide DistinctIds;
      HeadFacts(fs);
      InScopeFacts(fs[1..], scope);
      var r := InScope(fs[1..], scope);
      if DistinctIds(fs) { PrependFacts(fs[0], r); assert [] + r == r; }
    }
  }

  lemma {:induction false} InsertFacts(d: Definition, fs: seq<Definition>)
    requires Descending(fs)
    ensures Descending(Insert(d, fs)) && (forall x :: x in Insert(d, fs) <==> x == d || x in fs)
    ensures DistinctIds(fs) && (forall x <- fs :: x.id != d.id) ==> DistinctIds(Insert(d, fs))
  {
    hide Descending, DistinctIds;
    if |fs| == 0 {
      PrependDescends(d, fs);
      if DistinctIds(fs) { PrependFacts(d, fs); }
    } else {
      HeadFacts(fs);
      if d.updatedAt >= fs[0].updatedAt {
        PrependDescends(d, fs);
        if DistinctIds(fs) && (forall x <- fs :: x.id != d.id) { PrependFacts(d, fs); }
      } else {
        InsertFacts(d, fs[1..]);
        PrependDescends(fs[0], Insert(d, fs[1..]));
        if DistinctIds(fs) && (forall x <- fs :: x.id != d.id) { PrependFacts(fs[0], Insert(d, fs[1..])); }
      }
    }
  }

  lemma {:induction false} SortFacts(fs: seq<Definition>)
    ensures Descending(Sort(fs)) && (forall d :: d in Sort(fs) <==> d in fs)
    ensures DistinctIds(fs) ==> DistinctIds(Sort(fs))
  {
    if |fs| > 0 {
      SortFacts(fs[1..]);
      HeadFacts(fs);
      InsertFacts(fs[0], Sort(fs[1..]));
    }
  }

  lemma {:induction false} SortOfSorted(fs: seq<Definition>)
    requires Descending(fs)
    ensures Sort(fs) == fs
  {
    if |fs| > 0 { SortOfSorted(fs[1..]); }
  }

  lemma {:induction false} SecretsInFacts(ss: seq<Secret>, scope: Scope)
    ensures forall x :: x in SecretsIn(ss, scope) <==> x in ss && x.scope == scope
    ensures DistinctSecrets(ss) ==> DistinctSecrets(SecretsIn(ss, scope))
  {
    if |ss| > 0 {
      SecretsInFacts(ss[1..], scope);
      var r := SecretsIn(ss[1..], scope);
      if DistinctSecrets(ss) {
        forall j | 0 <= j < |r| ensures r[j].id != ss[0].id {
          assert r[j] in ss[1..];
          var k :| 0 <= k < |ss[1..]| && ss[1..][k] == r[j];
          assert ss[k + 1] == r[j];
        }
      }
    }
  }

  lemma ExportIsOk(s: State, owner: map<Id, Scope>, scope: Scope)
    requires PartsOk(s.functions, s.versions, s.secrets, owner)
    ensures ExportOk(scope, ExportOf(s, scope), owner)
  {
    hide VersionsOk, DistinctIds, DistinctSecrets, IsSlug, Descending, Sort, InScope, SecretsIn;
    var e := ExportOf(s, scope);
    InScopeFacts(s.functions, scope);
    SortFacts(InScope(s.functions, scope));
    SecretsInFacts(s.secrets, scope);
    assert e.versions.Keys == Ids(e.functions);
  }

  // -------------------------------------------------------------- restore

  lemma {:induction false} KeptFacts(fs: seq<Definition>, scope: Scope, only: Option<Id>)
    ensures forall d :: d in Kept(fs, scope, only) <==> d in fs && !Replaced(d, scope, only)
    ensures DistinctIds(fs) ==> DistinctIds(Kept(fs, scope, only))
  {
    if |fs| > 0 {
      hide DistinctIds, Replaced;
      HeadFacts(fs);
      KeptFacts(fs[1..], scope, only);
      var r := Kept(fs[1..], scope, only);
      if DistinctIds(fs) { PrependFacts(fs[0], r); assert [] + r == r; }
    }
  }

  /** The part of an export that a restore puts back. */
  function Chosen(fs: seq<Definition>, only: Option<Id>): seq<Definition> {
    if |fs| == 0 then []
    else (if only.Some? && fs[0].id != only.value then [] else [fs[0]]) + Chosen(fs[1..], only)
  }

  lemma {:induction false} ChosenFacts(fs: seq<Definition>, only: Option<Id>)
    ensures forall d :: d in Chosen(fs, only) <==> d in fs && (only.Some? ==> d.id == only.value)
    ensures DistinctIds(fs) ==> DistinctIds(Chosen(fs, only))
    ensures only == None ==> Chosen(fs, only) == fs
  {
    if |fs| > 0 {
      hide DistinctIds;
      HeadFacts(fs);
      ChosenFacts(fs[1..], only);
      var r := Chosen(fs[1..], only);
      if DistinctIds(fs) { PrependFacts(fs[0], r); assert [] + r == r; }
    }
  }

  predicate Apart(a: seq<Definition>, b: seq<Definition>) { forall x <- a :: forall y <- b :: x.id != y.id }

  lemma PutNew(fs: seq<Definition>, d: Definition, rest: seq<Definition>)
    requires Apart(fs, [d] + rest)
    ensures Put(fs, d) == fs + [d]
  {
    assert d in [d] + rest;
    assert forall i :: 0 <= i < |fs| ==> fs[i] in fs;
  }

  lemma ApartStep(fs: seq<Definition>, d: Definition, rest: seq<Definition>)
    requires Apart(fs, [d] + rest) && forall x <- rest :: x.id != d.id
    ensures Apart(fs + [d], rest)
  {
    forall x, y | x in fs + [d] && y in rest ensures x.id != y.id { assert y in [d] + rest; }
  }

  lemma ChosenUnfold(more: seq<Definition>, only: Option<Id>)
    ensures |more| == 0 ==> Chosen(more, only) == []
    ensures |more| > 0 ==>
      Chosen(more, only) ==
      if only.Some? && more[0].id != only.value then Chosen(more[1..], only) else [more[0]] + Chosen(more[1..], only)
  {
    if |more| > 0 { assert [] + Chosen(more[1..], only) == Chosen(more[1..], only); }
  }

  /** Ids that are new to the map are appended in order. */
  lemma {:induction false} PutAllAppends(fs: seq<Definition>, more: seq<Definition>, only: Option<Id>)
    requires DistinctIds(more) && Apart(fs, Chosen(more, only))
    ensures PutAll(fs, more, only) == fs + Chosen(more, only)
    decreases |more|
  {
    hide DistinctIds, Put, Chosen, Apart;
    ChosenUnfold(more, only);
    if |more| == 0 {
      assert fs + [] == fs;
    } else {
      HeadFacts(more);
      if only.Some? && more[0].id != only.value {
        PutAllAppends(fs, more[1..], only);
      } else {
        var d, rest := more[0], Chosen(more[1..], only);
        ChosenFacts(more[1..], only);
        PutNew(fs, d, rest);
        ApartStep(fs, d, rest);
        PutAllAppends(fs + [d], more[1..], only);
        assert fs + [d] + rest == fs + ([d] + rest);
      }
    }
  }

  lemma {:induction false} SecretsOutsideFacts(ss: seq<Secret>, scope: Scope)
    ensures forall x :: x in SecretsOutside(ss, scope) <==> x in ss && x.scope != scope
    ensures DistinctSecrets(ss) ==> DistinctSecrets(SecretsOutside(ss, scope))
  {
    if |ss| > 0 {
      SecretsOutsideFacts(ss[1..], scope);
      var r := SecretsOutside(ss[1..], scope);
      if DistinctSecrets(ss) {
        forall j | 0 <= j < |r| ensures r[j].id != ss[0].id {
          assert r[j] in ss[1..];
          var k :| 0 <= k < |ss[1..]| && ss[1..][k] == r[j];
          assert ss[k + 1] == r[j];
        }
      }
    }
  }

  lemma {:induction false} PutSecretsAppends(ss: seq<Secret>, more: seq<Secret>)
    requires DistinctSecrets(more) && forall i, j :: 0 <= i < |ss| && 0 <= j < |more| ==> ss[i].id != more[j].id
    ensures PutSecrets(ss, more) == ss + more
    decreases |more|
  {
    if |more| == 0 {
      assert ss + more == ss;
    } else {
      assert PutSecret(ss, more[0]) == ss + [more[0]];
      PutSecretsAppends(ss + [more[0]], more[1..]);
      assert ss + [more[0]] + more[1..] == ss + more;
    }
  }

  /** Two lists with owners that keep their ids apart. */
  lemma ConcatKeepsParts(a: seq<Definition>, b: seq<Definition>, va: map<Id, seq<Version>>, vb: map<Id, seq<Version>>,
                         sa: seq<Secret>, sb: seq<Secret>, owner: map<Id, Scope>)
    requires PartsOk(a, va, sa, owner) && PartsOk(b, vb, sb, owner)
    requires Apart(a, b)
    requires forall i, j :: 0 <= i < |sa| && 0 <= j < |sb| ==> sa[i].id != sb[j].id
    ensures PartsOk(a + b, va + vb, sa + sb, owner)
  {
    hide VersionsOk, IsSlug;
    forall i, j | 0 <= i < j < |a + b| ensures (a + b)[i].id != (a + b)[j].id {
      if i < |a| <= j { assert a[i] in a && b[j - |a|] in b; }
    }
    assert DistinctIds(a + b) && DistinctSecrets(sa + sb);
    hide DistinctIds, DistinctSecrets;
    assert Ids(a + b) == Ids(a) + Ids(b);
    forall d | d in a ensures d.id !in vb {
      assert d.id !in Ids(b);
    }
  }

  lemma SubsetKeepsParts(fs: seq<Definition>, versions: map<Id, seq<Version>>, ss: seq<Secret>, owner: map<Id, Scope>,
                         gs: seq<Definition>, kept: map<Id, seq<Version>>, ts: seq<Secret>)
    requires PartsOk(fs, versions, ss, owner) && DistinctIds(gs) && DistinctSecrets(ts)
    requires (forall d <- gs :: d in fs) && (forall x <- ts :: x in ss) && kept.Keys == Ids(gs)
    requires forall id <- kept :: id in versions && kept[id] == versions[id]
    ensures PartsOk(gs, kept, ts, owner)
  {
    hide VersionsOk, IsSlug, DistinctIds, DistinctSecrets;
    forall d | d in gs ensures d.id in kept { assert d.id in Ids(gs); }
  }

  lemma KeptIds(fs: seq<Definition>, scope: Scope, only: Option<Id>)
    requires DistinctIds(fs)
    ensures Ids(Kept(fs, scope, only)) == Ids(fs) - set d | d in fs && Replaced(d, scope, only) :: d.id
  {
    var gone := set d | d in fs && Replaced(d, scope, only) :: d.id;
    KeptFacts(fs, scope, only);
    assert forall x, y :: x in fs && y in fs && x.id == y.id ==> x == y;
    hide DistinctIds, Replaced, Kept;
    forall id | id in Ids(fs) && id !in gone ensures id in Ids(Kept(fs, scope, only)) {
      var d :| d in fs && d.id == id;
      assert d in Kept(fs, scope, only);
    }
  }

  lemma PartsDistinct(fs: seq<Definition>, versions: map<Id, seq<Version>>, ss: seq<Secret>, owner: map<Id, Scope>)
    requires PartsOk(fs, versions, ss, owner)
    ensures DistinctIds(fs) && DistinctSecrets(ss) && versions.Keys == Ids(fs)
  {
  }

  /** What remains of the state when a restore has deleted its targets. */
  lemma KeptIsOk(s: State, owner: map<Id, Scope>, scope: Scope, only: Option<Id>)
    requires PartsOk(s.functions, s.versions, s.secrets, owner)
    ensures var gone := set d | d in s.functions && Replaced(d, scope, only) :: d.id;
      var ss := if only.Some? then s.secrets else SecretsOutside(s.secrets, scope);
      PartsOk(Kept(s.functions, scope, only), s.versions - gone, ss, owner)
  {
    hide *;
    var gone := set d | d in s.functions && Replaced(d, scope, only) :: d.id;
    PartsDistinct(s.functions, s.versions, s.secrets, owner);
    KeptFacts(s.functions, scope, only);
    KeptIds(s.functions, scope, only);
    SecretsOutsideFacts(s.secrets, scope);
    assert (s.versions - gone).Keys == s.versions.Keys - gone;
    SubsetKeepsParts(s.functions, s.versions, s.secrets, owner, Kept(s.functions, scope, only), s.versions - gone,
                     if only.Some? then s.secrets else SecretsOutside(s.secrets, scope));
  }

  lemma ChosenIds(fs: seq<Definition>, only: Option<Id>)
    ensures Ids(Chosen(fs, only)) == set id | id in Ids(fs) && (only.Some? ==> id == only.value)
  {
    ChosenFacts(fs, only);
    hide Chosen;
    forall id | id in Ids(fs) && (only.Some? ==> id == only.value) ensures id in Ids(Chosen(fs, only)) {
      var d :| d in fs && d.id == id;
      assert d in Chosen(fs, only);
    }
  }

  lemma ExportParts(scope: Scope, e: Export, owner: map<Id, Scope>)
    requires ExportOk(scope, e, owner)
    ensures PartsOk(e.functions, e.versions, e.secrets, owner) && DistinctSecrets([])
  {
  }

  lemma TargetsAre(e: Export, only: Option<Id>)
    ensures Targets(e, only) == set id | id in Ids(e.functions) && (only.Some? ==> id == only.value)
  {
  }

  lemma ChosenIsOk(e: Export, owner: map<Id, Scope>, scope: Scope, only: Option<Id>)
    requires ExportOk(scope, e, owner)
    ensures var back := map id | id in e.versions && id in Targets(e, only) :: e.versions[id];
      PartsOk(Chosen(e.functions, only), back, if only.Some? then [] else e.secrets, owner)
  {
    hide *;
    var back := map id | id in e.versions && id in Targets(e, only) :: e.versions[id];
    ExportParts(scope, e, owner);
    PartsDistinct(e.functions, e.versions, e.secrets, owner);
    ChosenFacts(e.functions, only);
    ChosenIds(e.functions, only);
    TargetsAre(e, only);
    assert back.Keys == Ids(Chosen(e.functions, only));
    SubsetKeepsParts(e.functions, e.versions, e.secrets, owner, Chosen(e.functions, only), back,
                     if only.Some? then [] else e.secrets);
  }

  lemma RestoreUnfold(s: State, scope: Scope, e: Export, only: Option<Id>)
    requires only.Some? ==> Targets(e, only) != {}
    ensures var gone := set d | d in s.functions && Replaced(d, scope, only) :: d.id;
      var back := map id | id in e.versions && id in Targets(e, only) :: e.versions[id];
      Restore(s, scope, e, only) ==
      (State(PutAll(Kept(s.functions, scope, only), e.functions, only), s.versions - gone + back,
             if only.Some? then s.secrets else PutSecrets(SecretsOutside(s.secrets, scope), e.secrets)), Ok(()))
  {
  }

  lemma DistinctParts(scope: Scope, e: Export, owner: map<Id, Scope>)
    requires ExportOk(scope, e, owner)
    ensures DistinctIds(e.functions) && DistinctSecrets(e.secrets)
  {
  }

  /** A restore leaves what it does not replace and appends the chosen part of the export. */
  lemma RestoreIs(s: State, owner: map<Id, Scope>, scope: Scope, e: Export, only: Option<Id>)
    requires PartsOk(s.functions, s.versions, s.secrets, owner) && ExportOk(scope, e, owner)
    requires only.Some? ==> Targets(e, only) != {}
    ensures var t := Restore(s, scope, e, only).0;
      && t.functions == Kept(s.functions, scope, only) + Chosen(e.functions, only)
      && t.secrets == (if only.Some? then s.secrets else SecretsOutside(s.secrets, scope) + e.secrets)
      && PartsOk(t.functions, t.versions, t.secrets, owner)
  {
    hide *;
    var kept, chosen := Kept(s.functions, scope, only), Chosen(e.functions, only);
    KeptIsOk(s, owner, scope, only);
    ChosenIsOk(e, owner, scope, only);
    KeepsApart(s, owner, scope, e, only);
    DistinctParts(scope, e, owner);
    RestoreUnfold(s, scope, e, only);
    PutAllAppends(kept, e.functions, only);
    var gone := set d | d in s.functions && Replaced(d, scope, only) :: d.id;
    var back := map id | id in e.versions && id in Targets(e, only) :: e.versions[id];
    if only == None {
      PutSecretsAppends(SecretsOutside(s.secrets, scope), e.secrets);
      ConcatKeepsParts(kept, chosen, s.versions - gone, back, SecretsOutside(s.secrets, scope), e.secrets, owner);
    } else {
      ConcatKeepsParts(kept, chosen, s.versions - gone, back, s.secrets, [], owner);
      assert s.secrets + [] == s.secrets;
    }
  }

  lemma KeepsApart(s: State, owner: map<Id, Scope>, scope: Scope, e: Export, only: Option<Id>)
    requires PartsOk(s.functions, s.versions, s.secrets, owner) && ExportOk(scope, e, owner)
    ensures Apart(Kept(s.functions, scope, only), Chosen(e.functions, only))
    ensures forall i, j :: 0 <= i < |SecretsOutside(s.secrets, scope)| && 0 <= j < |e.secrets| ==>
      SecretsOutside(s.secrets, scope)[i].id != e.secrets[j].id
  {
    KeptFacts(s.functions, scope, only);
    ChosenFacts(e.functions, only);
    SecretsOutsideFacts(s.secrets, scope);
    hide VersionsOk, IsSlug, DistinctIds, DistinctSecrets, AllVersionsOk;
    var outside := SecretsOutside(s.secrets, scope);
    forall i, j | 0 <= i < |outside| && 0 <= j < |e.secrets| ensures outside[i].id != e.secrets[j].id {
      assert outside[i] in outside && e.secrets[j] in e.secrets;
    }
  }

  // ----------------------------------------------------------- every step

  lemma StateStepKeepsParts(y: System, step: Step)
    requires Inv(y) && Enabled(y, step)
    ensures var z := Apply(y, step); PartsOk(z.state.functions, z.state.versions, z.state.secrets, z.owner)
  {
    hide PartsOk, VersionsOk, ExportOk, NormaliseSlug, ValidLimits, Merge, DefaultCode, Trim, ExportOf, Restore;
    var s := y.state;
    match step
    case CreateStep(scope, id, name, slug, access, limits, code, now) =>
      CreateStepKeepsParts(y, step);
    case UpdateStep(scope, key, source, access, limits, now) => UpdateStepKeepsParts(y, step);
    case DeployStep(scope, key, requested, now) => DeployStepKeepsParts(y, step);
    case DeleteStep(scope, key) =>
      var i := Find(s.functions, scope, key);
      if i < |s.functions| { DeleteKeepsParts(s, y.owner, i); }
    case SetSecretStep(scope, id, name, encrypted) => SetSecretKeepsParts(s, y.owner, scope, id, name, encrypted);
    case DeleteSecretStep(scope, name) => DeleteSecretKeepsParts(s, y.owner, scope, name);
    case ExportStep(scope) =>
    case RestoreStep(k, only) => RestoreStepKeepsParts(y, k, only);
  }

  lemma CreateStepKeepsParts(y: System, step: Step)
    requires Inv(y) && Enabled(y, step) && step.CreateStep?
    ensures var z := Apply(y, step); PartsOk(z.state.functions, z.state.versions, z.state.secrets, z.owner)
  {
    var s, title := y.state, Trim(step.name);
    var slug := NormaliseSlug(if step.slug == [] then title else step.slug);
    NormalisedIsSlug(if step.slug == [] then title else step.slug);
    hide PartsOk, NormaliseSlug, ValidLimits, Merge, DefaultCode, Trim;
    NewOwnerKeepsParts(s.functions, s.versions, s.secrets, y.owner, step.id, step.scope);
    var r := Create(s, step.scope, step.id, step.name, step.slug, step.access, step.limits, step.code, step.now);
    if r.1.Ok? {
      var d := r.1.value;
      CreateKeepsParts(s, y.owner, d, r.0.versions[d.id][0]);
    }
  }

  lemma PartsAt(s: State, owner: map<Id, Scope>, i: nat)
    requires PartsOk(s.functions, s.versions, s.secrets, owner) && i < |s.functions|
    ensures var d := s.functions[i]; d.id in s.versions && VersionsOk(d, s.versions[d.id]) && VersionsOf(s, d.id) == s.versions[d.id]
  {
    hide VersionsOk;
    assert s.functions[i] in s.functions;
  }

  lemma UpdateStepKeepsParts(y: System, step: Step)
    requires Inv(y) && Enabled(y, step) && step.UpdateStep?
    ensures var z := Apply(y, step); PartsOk(z.state.functions, z.state.versions, z.state.secrets, z.owner)
  {
    hide PartsOk, ValidLimits, Merge, Trim, VersionsOk, MaxNumber;
    var s, i := y.state, Find(y.state.functions, step.scope, step.key);
    if i < |s.functions| && Trim(step.source) != [] {
      PartsAt(s, y.owner, i);
      var d := s.functions[i];
      var vs := s.versions[d.id];
      var touched, l := d.(access := GetOr(step.access, d.access)), Merge(d.limits, step.limits);
      var e := if ValidLimits(l) then touched.(limits := l, updatedAt := step.now) else touched;
      AppendKeepsVersionsOk(d, vs, e, step.source);
      ReplaceKeepsParts(s.functions, s.versions, s.secrets, y.owner, i, e, vs + [Version(MaxNumber(vs) + 1, step.source, Draft)]);
    }
  }

  lemma DeployStepKeepsParts(y: System, step: Step)
    requires Inv(y) && Enabled(y, step) && step.DeployStep?
    ensures var z := Apply(y, step); PartsOk(z.state.functions, z.state.versions, z.state.secrets, z.owner)
  {
    hide PartsOk, VersionsOk, Publish;
    var s, i := y.state, Find(y.state.functions, step.scope, step.key);
    if i < |s.functions| {
      PartsAt(s, y.owner, i);
      var d := s.functions[i];
      var vs := s.versions[d.id];
      var k := if step.requested.Some? then FindVersion(vs, step.requested.value) else if |vs| > 0 then |vs| - 1 else 0;
      if k < |vs| {
        PublishVersionsOk(d, vs, k, step.now);
        ReplaceKeepsParts(s.functions, s.versions, s.secrets, y.owner, i,
                          d.(active := true, currentVersion := Some(vs[k].number), updatedAt := step.now), Publish(vs, k));
      }
    }
  }

  lemma RestoreStepKeepsParts(y: System, k: nat, only: Option<Id>)
    requires Inv(y) && k < |y.exports|
    ensures var z := Apply(y, RestoreStep(k, only)); PartsOk(z.state.functions, z.state.versions, z.state.secrets, z.owner)
  {
    hide PartsOk, ExportOk;
    if only.Some? && Targets(y.exports[k].1, only) == {} {
    } else {
      RestoreIs(y.state, y.owner, y.exports[k].0, y.exports[k].1, only);
    }
  }

  lemma NewOwnerKeepsExport(scope: Scope, e: Export, owner: map<Id, Scope>, id: Id, s: Scope)
    requires ExportOk(scope, e, owner) && id !in owner
    ensures ExportOk(scope, e, owner[id := s])
  {
    NewOwnerKeepsParts(e.functions, e.versions, e.secrets, owner, id, s);
  }

  lemma StepKeepsInv(y: System, step: Step)
    requires Inv(y) && Enabled(y, step)
    ensures Inv(Apply(y, step))
    ensures y.exports <= Apply(y, step).exports
  {
    StateStepKeepsParts(y, step);
    hide PartsOk, ExportOk, Create, Update, Deploy, Delete, SetSecret, DeleteSecret, Restore, ExportOf;
    var z := Apply(y, step);
    forall k | 0 <= k < |z.exports| ensures ExportOk(z.exports[k].0, z.exports[k].1, z.owner) {
      if step.ExportStep? && k == |y.exports| {
        ExportIsOk(y.state, y.owner, step.scope);
      } else if step.CreateStep? || step.SetSecretStep? {
        NewOwnerKeepsExport(y.exports[k].0, y.exports[k].1, y.owner, step.id, step.scope);
      }
    }
  }

  lemma {:induction false} RunKeepsInv(y: System, steps: seq<Step>, z: System)
    requires Inv(y) && Run(y, steps, z)
    ensures Inv(z) && y.exports <= z.exports
    decreases |steps|
  {
    hide Inv, Apply, Enabled;
    if |steps| > 0 {
      StepKeepsInv(y, steps[0]);
      RunKeepsInv(Apply(y, steps[0]), steps[1..], z);
    }
  }

  lemma ReachableInv(steps: seq<Step>, y: System)
    requires Run(START, steps, y)
    ensures Inv(y)
  {
    assert Inv(START);
    hide Run, Inv;
    RunKeepsInv(START, steps, y);
  }
}
