/**
 * Slugs are meant to name one function of a scope.  Every step keeps that but
 * the restore of a single function whose slug has been taken since.
 */
module FunctionSlugs {
  import opened Outcome
  import opened JsText
  import opened FunctionVersions
  import opened FunctionLaws
  import opened FunctionTheorems

  predicate UniqueSlugs(fs: seq<Definition>) {
    forall x <- fs :: forall y <- fs :: x.scope == y.scope && x.slug == y.slug ==> x.id == y.id
  }

  lemma CreateKeepsSlugs(s: State, scope: Scope, id: Id, name: Text, slugInput: Text, access: Option<Text>,
                         limits: Option<LimitsInput>, code: Option<Text>, now: nat)
    requires UniqueSlugs(s.functions)
    ensures UniqueSlugs(Create(s, scope, id, name, slugInput, access, limits, code, now).0.functions)
  {
    hide NormaliseSlug, Trim, ValidLimits, Merge, DefaultCode;
    var r := Create(s, scope, id, name, slugInput, access, limits, code, now);
    if r.1.Ok? {
      var d := r.1.value;
      forall x | x in s.functions && x.scope == scope ensures x.slug != d.slug {
        var k :| 0 <= k < |s.functions| && s.functions[k] == x;
      }
    }
  }

  /**
   * Restoring one function keeps slugs unique exactly when no other function
   * of its scope has taken the slug since the export.
   */
  lemma SingleRestoreKeepsSlugsExactlyWhen(s: State, owner: map<Id, Scope>, scope: Scope, e: Export, d: Definition)
    requires PartsOk(s.functions, s.versions, s.secrets, owner) && ExportOk(scope, e, owner)
    requires UniqueSlugs(s.functions) && d in e.functions
    ensures UniqueSlugs(Restore(s, scope, e, Some(d.id)).0.functions) <==>
      forall x <- s.functions :: x.scope == scope && x.slug == d.slug ==> x.id == d.id
  {
    var t, kept := Restore(s, scope, e, Some(d.id)).0, Kept(s.functions, scope, Some(d.id));
    RestoredOne(s, owner, scope, e, d);
    hide PartsOk, ExportOk, Kept, Restore, Replaced;
    assert forall x :: x in s.functions && x.id != d.id ==> x in t.functions;
    assert d in t.functions;
  }

  /** The functions after restoring one of them. */
  lemma RestoredOne(s: State, owner: map<Id, Scope>, scope: Scope, e: Export, d: Definition)
    requires PartsOk(s.functions, s.versions, s.secrets, owner) && ExportOk(scope, e, owner) && d in e.functions
    ensures d.scope == scope
    ensures var t := Restore(s, scope, e, Some(d.id)).0;
      forall x :: x in t.functions <==> x == d || (x in s.functions && x.id != d.id)
  {
    var only := Some(d.id);
    assert d.id in Targets(e, only);
    ExportMeans(scope, e, owner);
    OwnedOne(s, owner, scope, e, d);
    hide PartsOk, ExportOk, Restore, Kept, Chosen, Descending;
    RestoreIs(s, owner, scope, e, only);
    KeptFacts(s.functions, scope, only);
    ChosenFacts(e.functions, only);
  }

  lemma OwnedOne(s: State, owner: map<Id, Scope>, scope: Scope, e: Export, d: Definition)
    requires PartsOk(s.functions, s.versions, s.secrets, owner) && ExportOk(scope, e, owner) && d in e.functions
    ensures forall x <- s.functions :: x.id == d.id ==> x.scope == scope
    ensures forall x <- e.functions :: x.id == d.id ==> x == d
  {
    hide VersionsOk, IsSlug, DistinctSecrets, AllVersionsOk, Slugged;
  }

  // ------------------------------------------------------- step by step

  /** The slugs of the state and of every export are unique. */
  ghost predicate SlugsUnique(y: System) {
    UniqueSlugs(y.state.functions) && forall k :: 0 <= k < |y.exports| ==> UniqueSlugs(y.exports[k].1.functions)
  }

  /** A restore of one function while another one of its scope has its slug. */
  predicate Clashes(y: System, step: Step)
    requires Enabled(y, step)
  {
    && step.RestoreStep? && step.only.Some?
    && exists d <- y.exports[step.k].1.functions :: d.id == step.only.value && Taken(y.state.functions, y.exports[step.k].0, d)
  }

  predicate Taken(fs: seq<Definition>, scope: Scope, d: Definition) {
    exists x <- fs :: x.scope == scope && x.slug == d.slug && x.id != d.id
  }

  lemma SubsetKeepsSlugs(fs: seq<Definition>, gs: seq<Definition>)
    requires UniqueSlugs(fs) && forall x <- gs :: x in fs
    ensures UniqueSlugs(gs)
  {
  }

  lemma ReplaceKeepsSlugs(fs: seq<Definition>, i: nat, d: Definition)
    requires UniqueSlugs(fs) && i < |fs| && d.id == fs[i].id && d.scope == fs[i].scope && d.slug == fs[i].slug
    ensures UniqueSlugs(fs[i := d])
  {
    assert fs[i] in fs;
    assert forall x :: x in fs[i := d] ==> x == d || x in fs;
  }

  lemma UpdateKeepsSlugs(s: State, scope: Scope, key: Text, code: Text, access: Option<Text>, limits: Option<LimitsInput>, now: nat)
    requires UniqueSlugs(s.functions)
    ensures UniqueSlugs(Update(s, scope, key, code, access, limits, now).0.functions)
  {
    hide UniqueSlugs, ValidLimits, Merge, Trim, MaxNumber, VersionsOf;
    var t, i := Update(s, scope, key, code, access, limits, now).0, Find(s.functions, scope, key);
    if i < |s.functions| && Trim(code) != [] { ReplaceKeepsSlugs(s.functions, i, t.functions[i]); }
  }

  lemma DeployKeepsSlugs(s: State, scope: Scope, key: Text, requested: Option<nat>, now: nat)
    requires UniqueSlugs(s.functions)
    ensures UniqueSlugs(Deploy(s, scope, key, requested, now).0.functions)
  {
    hide UniqueSlugs, FindVersion, Publish, VersionsOf;
    var t, i := Deploy(s, scope, key, requested, now).0, Find(s.functions, scope, key);
    if i < |s.functions| && t != s { ReplaceKeepsSlugs(s.functions, i, t.functions[i]); }
  }

  lemma DeleteKeepsSlugs(s: State, scope: Scope, key: Text)
    requires UniqueSlugs(s.functions)
    ensures UniqueSlugs(Delete(s, scope, key).0.functions)
  {
    SubsetKeepsSlugs(s.functions, Delete(s, scope, key).0.functions);
  }

  lemma ExportKeepsSlugs(s: State, scope: Scope)
    requires UniqueSlugs(s.functions)
    ensures UniqueSlugs(ExportOf(s, scope).functions)
  {
    InScopeFacts(s.functions, scope);
    SortFacts(InScope(s.functions, scope));
    ExportUnfold(s, scope);
    hide ExportOf, Sort, InScope, UniqueSlugs;
    SubsetKeepsSlugs(s.functions, ExportOf(s, scope).functions);
  }

  lemma FullRestoreKeepsSlugs(s: State, owner: map<Id, Scope>, scope: Scope, e: Export)
    requires PartsOk(s.functions, s.versions, s.secrets, owner) && ExportOk(scope, e, owner)
    requires UniqueSlugs(s.functions) && UniqueSlugs(e.functions)
    ensures UniqueSlugs(Restore(s, scope, e, None).0.functions)
  {
    ExportMeans(scope, e, owner);
    RestoreIs(s, owner, scope, e, None);
    ChosenFacts(e.functions, None);
    KeptFacts(s.functions, scope, None);
    hide PartsOk, ExportOk, Restore, Kept, Chosen;
  }

  lemma RestoreKeepsSlugsExactlyWhen(y: System, k: nat, only: Option<Id>)
    requires Inv(y) && SlugsUnique(y) && k < |y.exports|
    ensures UniqueSlugs(Apply(y, RestoreStep(k, only)).state.functions) <==> !Clashes(y, RestoreStep(k, only))
  {
    InvMeans(y, k);
    var s, scope, e := y.state, y.exports[k].0, y.exports[k].1;
    hide Inv, PartsOk, ExportOk;
    if only == None {
      FullRestoreKeepsSlugs(s, y.owner, scope, e);
    } else if Targets(e, only) == {} {
      hide UniqueSlugs, Taken;
      forall d | d in e.functions ensures d.id != only.value { NotTarget(e, only, d); }
    } else {
      var d := OnlyTarget(s, y.owner, scope, e, only.value);
      SingleRestoreKeepsSlugsExactlyWhen(s, y.owner, scope, e, d);
      hide Restore, UniqueSlugs;
    }
  }

  lemma NotTarget(e: Export, only: Option<Id>, d: Definition)
    requires only.Some? && Targets(e, only) == {} && d in e.functions
    ensures d.id != only.value
  {
    assert d.id in Ids(e.functions);
    assert d.id == only.value ==> d.id in Targets(e, only);
  }

  lemma OnlyTarget(s: State, owner: map<Id, Scope>, scope: Scope, e: Export, id: Id) returns (d: Definition)
    requires PartsOk(s.functions, s.versions, s.secrets, owner) && ExportOk(scope, e, owner) && Targets(e, Some(id)) != {}
    ensures d in e.functions && d.id == id && forall x <- e.functions :: x.id == id ==> x == d
  {
    var found :| found in Targets(e, Some(id));
    d :| d in e.functions && d.id == id;
    OwnedOne(s, owner, scope, e, d);
  }

  /** A step keeps slugs unique exactly when it does not bring back a function whose slug another one has taken. */
  lemma StepKeepsSlugsExactlyWhen(y: System, step: Step)
    requires Inv(y) && SlugsUnique(y) && Enabled(y, step)
    ensures SlugsUnique(Apply(y, step)) <==> !Clashes(y, step)
  {
    hide Inv, UniqueSlugs, Create, Update, Deploy, Delete, SetSecret, DeleteSecret, ExportOf, Restore;
    match step
    case CreateStep(scope, id, name, slug, access, limits, code, now) =>
      CreateKeepsSlugs(y.state, scope, id, name, slug, access, limits, code, now);
    case UpdateStep(scope, key, source, access, limits, now) => UpdateKeepsSlugs(y.state, scope, key, source, access, limits, now);
    case DeployStep(scope, key, requested, now) => DeployKeepsSlugs(y.state, scope, key, requested, now);
    case DeleteStep(scope, key) => DeleteKeepsSlugs(y.state, scope, key);
    case SetSecretStep(scope, id, name, encrypted) => SecretsKeepFunctions(y.state, scope, id, name, encrypted);
    case DeleteSecretStep(scope, name) => SecretsKeepFunctions(y.state, scope, [], name, []);
    case ExportStep(scope) => ExportKeepsSlugs(y.state, scope);
    case RestoreStep(k, only) => RestoreKeepsSlugsExactlyWhen(y, k, only);
  }

  lemma SecretsKeepFunctions(s: State, scope: Scope, id: Id, name: Text, encrypted: Text)
    ensures SetSecret(s, scope, id, name, encrypted).functions == s.functions
    ensures DeleteSecret(s, scope, name).functions == s.functions
  {
  }

  // ----------------------------------------------------------- over runs

  /** No step of the run brings back a function whose slug has been taken. */
  ghost predicate NoClash(y: System, steps: seq<Step>)
    decreases |steps|
  {
    |steps| == 0 || (Enabled(y, steps[0]) && !Clashes(y, steps[0]) && NoClash(Apply(y, steps[0]), steps[1..]))
  }

  /** Slugs are unique in every state of the run. */
  ghost predicate UniqueThroughout(y: System, steps: seq<Step>)
    decreases |steps|
  {
    SlugsUnique(y) && (|steps| == 0 || (Enabled(y, steps[0]) && UniqueThroughout(Apply(y, steps[0]), steps[1..])))
  }

  lemma {:induction false} UniqueExactlyWhen(y: System, steps: seq<Step>, z: System)
    requires Inv(y) && SlugsUnique(y) && Run(y, steps, z)
    ensures UniqueThroughout(y, steps) <==> NoClash(y, steps)
    ensures NoClash(y, steps) ==> SlugsUnique(z)
    decreases |steps|
  {
    hide Inv, SlugsUnique, Apply, Enabled, Clashes;
    if |steps| > 0 {
      StepKeepsInv(y, steps[0]);
      StepKeepsSlugsExactlyWhen(y, steps[0]);
      if !Clashes(y, steps[0]) {
        UniqueExactlyWhen(Apply(y, steps[0]), steps[1..], z);
      } else {
        ThroughoutStarts(Apply(y, steps[0]), steps[1..]);
      }
    }
  }

  lemma ThroughoutStarts(y: System, steps: seq<Step>)
    ensures UniqueThroughout(y, steps) ==> SlugsUnique(y)
  {
    hide SlugsUnique, Apply, Enabled;
  }

  lemma StartIsUnique()
    ensures Inv(START) && SlugsUnique(START)
  {
  }

  /** In a run from the start slugs stay unique throughout exactly when no single restore meets a taken slug. */
  lemma SlugsStayUniqueExactlyWhen(steps: seq<Step>, y: System)
    requires Run(START, steps, y)
    ensures UniqueThroughout(START, steps) <==> NoClash(START, steps)
    ensures NoClash(START, steps) ==> UniqueSlugs(y.state.functions)
  {
    StartIsUnique();
    hide Inv, Run, NoClash, UniqueThroughout;
    UniqueExactlyWhen(START, steps, y);
  }

  /** Runs without the restore of single functions have no clash. */
  lemma {:induction false} WholeRestoresOnly(y: System, steps: seq<Step>, z: System)
    requires Run(y, steps, z) && forall step <- steps :: step.RestoreStep? ==> step.only == None
    ensures NoClash(y, steps)
    decreases |steps|
  {
    hide Apply, Enabled;
    if |steps| > 0 {
      assert steps[0] in steps && forall step :: step in steps[1..] ==> step in steps;
      WholeRestoresOnly(Apply(y, steps[0]), steps[1..], z);
    }
  }

  /** In such a run an id or a slug names at most one function of a scope. */
  lemma KeysAreUnambiguous(steps: seq<Step>, s: System, scope: Scope, key: Text, x: Definition, y: Definition)
    requires Run(START, steps, s) && NoClash(START, steps)
    requires x in s.state.functions && y in s.state.functions && x.scope == y.scope == scope
    requires (x.id == key || x.slug == key) && (y.id == key || y.slug == key)
    ensures x == y
  {
    SlugsStayUniqueExactlyWhen(steps, s);
    ReachableInv(steps, s);
    hide Run, NoClash, UniqueThroughout;
    StateSlugged(s);
    StateDistinct(s);
    SameId(s.state.functions, x, y);
  }

  lemma StateSlugged(y: System)
    requires Inv(y)
    ensures Slugged(y.state.functions)
  {
  }

  lemma SameId(fs: seq<Definition>, x: Definition, y: Definition)
    requires DistinctIds(fs) && x in fs && y in fs
    ensures x.id == y.id ==> x == y
  {
    var i :| 0 <= i < |fs| && fs[i] == x;
    var j :| 0 <= j < |fs| && fs[j] == y;
  }

  // -------------------------------------------------------- a run that clashes

  const HERE := Scope([], [], [])
  const NAME: Text := [U('a')]
  const OLD: Id := [U('_')]
  const NEW: Id := [U('_'), U('_')]

  function Called(id: Id): Definition { Definition(id, HERE, NAME, T("authenticated"), DefaultLimits(), false, None, 0) }

  function Creation(id: Id): Step { CreateStep(HERE, id, NAME, [], None, None, None, 0) }

  lemma NameIsSlug()
    ensures Trim(NAME) == NAME && NormaliseSlug(NAME) == NAME && ValidLimits(DefaultLimits()) && Trim([]) == []
  {
    assert NAME[1..] == [];
    assert [U('a')] + [] == NAME;
    assert Dashed(NAME, false) == NAME;
  }

  lemma Created(s: State, id: Id)
    requires s.functions == []
    ensures Create(s, HERE, id, NAME, [], None, None, None, 0).0.functions == [Called(id)]
  {
    NameIsSlug();
    hide NormaliseSlug, Trim, ValidLimits, DefaultCode;
    assert [] + [Called(id)] == [Called(id)];
  }

  lemma {:induction false} RunAppend(y: System, steps: seq<Step>, z: System, step: Step)
    requires Run(y, steps, z) && Enabled(z, step)
    ensures Run(y, steps + [step], Apply(z, step))
    decreases |steps|
  {
    hide Apply, Enabled;
    if |steps| == 0 {
      assert ([] + [step])[1..] == [];
    } else {
      assert (steps + [step])[0] == steps[0] && (steps + [step])[1..] == steps[1..] + [step];
      RunAppend(Apply(y, steps[0]), steps[1..], z, step);
    }
  }

  lemma CreationStep(y: System, id: Id)
    requires y.state.functions == [] && id !in y.owner && (id == OLD || id == NEW)
    ensures Enabled(y, Creation(id))
    ensures var z := Apply(y, Creation(id));
      z.state.functions == [Called(id)] && z.exports == y.exports && z.owner == y.owner[id := HERE]
  {
    Created(y.state, id);
    assert OLD[0] == NEW[0] == U('_');
    hide Create;
  }

  lemma ExportHere(y: System)
    requires y.state.functions == [Called(OLD)] && y.exports == []
    ensures var z := Apply(y, ExportStep(HERE));
      && z.state == y.state && z.owner == y.owner && |z.exports| == 1
      && z.exports[0].0 == HERE && z.exports[0].1.functions == [Called(OLD)]
  {
    var d := Called(OLD);
    assert [d][1..] == [];
    assert InScope([d], HERE) == [d] + [] == [d];
    assert Sort([d]) == [d];
  }

  lemma DeleteHere(y: System)
    requires y.state.functions == [Called(OLD)]
    ensures var z := Apply(y, DeleteStep(HERE, NAME)); z.state.functions == [] && z.exports == y.exports && z.owner == y.owner
  {
  }

  lemma StartIsEmpty()
    ensures START.state.functions == [] && START.owner == map[] && START.exports == [] && NEW != OLD
  {
    assert |NEW| != |OLD|;
  }

  lemma CreatedRun() returns (steps: seq<Step>, y: System)
    ensures Run(START, steps, y) && y.state.functions == [Called(OLD)] && y.exports == [] && NEW !in y.owner
  {
    hide *;
    NoSteps(START);
    StartIsEmpty();
    CreationStep(START, OLD);
    RunAppend(START, [], START, Creation(OLD));
    steps, y := [] + [Creation(OLD)], Apply(START, Creation(OLD));
  }

  lemma ExportedRun() returns (steps: seq<Step>, y: System)
    ensures Run(START, steps, y) && y.state.functions == [Called(OLD)] && NEW !in y.owner && |y.exports| == 1
    ensures y.exports[0].0 == HERE && y.exports[0].1.functions == [Called(OLD)]
  {
    hide *;
    var before, x := CreatedRun();
    ExportHere(x);
    ExportStepIs(x, HERE);
    RunAppend(START, before, x, ExportStep(HERE));
    steps, y := before + [ExportStep(HERE)], Apply(x, ExportStep(HERE));
  }

  lemma DeletedRun() returns (steps: seq<Step>, y: System)
    ensures Run(START, steps, y) && y.state.functions == [] && NEW !in y.owner && |y.exports| == 1
    ensures y.exports[0].0 == HERE && y.exports[0].1.functions == [Called(OLD)]
  {
    hide *;
    var before, x := ExportedRun();
    DeleteHere(x);
    DeleteEnabled(x);
    RunAppend(START, before, x, DeleteStep(HERE, NAME));
    steps, y := before + [DeleteStep(HERE, NAME)], Apply(x, DeleteStep(HERE, NAME));
  }

  lemma RecreatedRun() returns (steps: seq<Step>, y: System)
    ensures Run(START, steps, y) && y.state.functions == [Called(NEW)] && |y.exports| == 1
    ensures y.exports[0].0 == HERE && y.exports[0].1.functions == [Called(OLD)]
  {
    hide *;
    var before, x := DeletedRun();
    CreationStep(x, NEW);
    RunAppend(START, before, x, Creation(NEW));
    steps, y := before + [Creation(NEW)], Apply(x, Creation(NEW));
  }

  lemma DeleteEnabled(y: System)
    ensures Enabled(y, DeleteStep(HERE, NAME))
  {
  }

  lemma NoSteps(y: System)
    ensures Run(y, [], y)
  {
  }

  /** The functions after the old one has been restored next to the new one. */
  lemma RestoredBeside(y: System)
    requires Inv(y) && |y.exports| == 1 && y.state.functions == [Called(NEW)]
    requires y.exports[0].0 == HERE && y.exports[0].1.functions == [Called(OLD)]
    ensures Enabled(y, RestoreStep(0, Some(OLD)))
    ensures forall x :: x in Apply(y, RestoreStep(0, Some(OLD))).state.functions <==> x == Called(OLD) || x == Called(NEW)
  {
    InvMeans(y, 0);
    assert Called(OLD) in y.exports[0].1.functions && |NEW| != |OLD|;
    hide Inv, PartsOk, ExportOk, Restore;
    RestoredOne(y.state, y.owner, HERE, y.exports[0].1, Called(OLD));
  }

  /** Create, export, delete, create again under the same name, restore the first: one slug names two functions. */
  lemma SingleRestoreClashes() returns (steps: seq<Step>, y: System)
    ensures Run(START, steps, y) && Called(OLD) in y.state.functions && Called(NEW) in y.state.functions
    ensures !UniqueSlugs(y.state.functions)
  {
    assert |NEW| != |OLD|;
    hide Run, Inv, Apply, Enabled;
    var before, s := RecreatedRun();
    var restore := RestoreStep(0, Some(OLD));
    ReachableInv(before, s);
    RestoredBeside(s);
    RunAppend(START, before, s, restore);
    steps, y := before + [restore], Apply(s, restore);
    assert Called(OLD) in y.state.functions && Called(NEW) in y.state.functions;
  }

  // ------------------------------------------------------ what a slug is

  predicate WordUnit(c: CodeUnit) { IsLetter(c) || IsDigit(c) }

  /** The longest runs of ASCII letters and digits, in lower case. */
  function Words(t: Text): (words: seq<Text>)
    decreases |t|
  {
    if |t| == 0 then []
    else if !WordUnit(t[0]) then Words(t[1..])
    else
      var n := Span(t, 0, WordUnit);
      [Lower(t[..n])] + Words(t[n..])
  }

  lemma UnitsAre(c: CodeUnit)
    ensures SlugUnit(LowerUnit(c)) <==> WordUnit(c)
    ensures WordUnit(c) ==> LowerUnit(c) != DASH
  {
  }

  lemma {:induction false} DashedRun(t: Text, n: nat, gap: bool)
    requires 0 < n <= |t| && forall k :: 0 <= k < n ==> WordUnit(t[k])
    ensures Dashed(t, gap) == Lower(t[..n]) + Dashed(t[n..], false)
    decreases n
  {
    UnitsAre(t[0]);
    if n == 1 {
      assert Lower(t[..1]) == [LowerUnit(t[0])];
    } else {
      DashedRun(t[1..], n - 1, false);
      assert t[1..][n - 1..] == t[n..];
      assert Lower(t[..n]) == [LowerUnit(t[0])] + Lower(t[1..][..n - 1]);
    }
  }

  lemma DashedGap(t: Text, gap: bool)
    requires |t| > 0 && !WordUnit(t[0])
    ensures Dashed(t, gap) == (if gap then [] else [DASH]) + Dashed(t[1..], true) && Words(t) == Words(t[1..])
  {
    UnitsAre(t[0]);
  }

  lemma WordsRun(t: Text)
    requires |t| > 0 && WordUnit(t[0])
    ensures var n := Span(t, 0, WordUnit);
      && 0 < n <= |t| && (forall k :: 0 <= k < n ==> WordUnit(t[k])) && (n < |t| ==> !WordUnit(t[n]))
      && Words(t) == [Lower(t[..n])] + Words(t[n..])
  {
  }

  lemma JoinStep(word: Text, rest: seq<Text>)
    ensures Join([word] + rest, DASH) == if rest == [] then word else word + ([DASH] + Join(rest, DASH))
  {
    assert ([word] + rest)[1..] == rest;
  }

  /** After a gap, what is dashed are the words with dashes between them and perhaps one at the end. */
  lemma {:induction false} DashedWords(t: Text) returns (tail: Text)
    ensures Dashed(t, true) == Join(Words(t), DASH) + tail && (tail == [] || (tail == [DASH] && Words(t) != []))
    decreases |t|
  {
    hide Dashed, Words, Join, WordUnit;
    if |t| == 0 {
      tail := [];
      Nothing();
      assert t == [];
    } else if !WordUnit(t[0]) {
      DashedGap(t, true);
      tail := DashedWords(t[1..]);
      assert [] + Dashed(t[1..], true) == Dashed(t[1..], true);
    } else {
      WordsRun(t);
      var n := Span(t, 0, WordUnit);
      var word, rest := Lower(t[..n]), t[n..];
      DashedRun(t, n, true);
      JoinStep(word, Words(rest));
      if n == |t| {
        Nothing();
        assert rest == [];
        tail := [];
        assert word + [] == word;
      } else {
        DashedGap(rest, false);
        var more := DashedWords(rest[1..]);
        tail := if Words(rest) == [] then [DASH] else more;
        Assemble(word, Words(rest), more);
      }
    }
  }

  lemma Assemble(word: Text, words: seq<Text>, tail: Text)
    requires tail == [] || (tail == [DASH] && words != [])
    ensures word + ([DASH] + (Join(words, DASH) + tail)) ==
      (if words == [] then word + [DASH] else word + ([DASH] + Join(words, DASH)) + tail)
  {
    if words == [] { assert Join(words, DASH) == []; }
  }

  lemma Nothing()
    ensures Dashed([], true) == [] && Dashed([], false) == [] && Words([]) == [] && Join([], DASH) == []
  {
  }

  lemma {:induction false} JoinEdges(t: Text)
    ensures var joined := Join(Words(t), DASH);
      joined != [] ==> joined[0] != DASH && joined[|joined| - 1] != DASH
    ensures Words(t) != [] ==> Join(Words(t), DASH) != []
    decreases |t|
  {
    hide Join, WordUnit;
    if |t| == 0 {
      Nothing();
    } else if !WordUnit(t[0]) {
      JoinEdges(t[1..]);
    } else {
      WordsRun(t);
      hide Words;
      var n := Span(t, 0, WordUnit);
      UnitsAre(t[0]);
      UnitsAre(t[n - 1]);
      var word := Lower(t[..n]);
      assert word[0] != DASH && word[|word| - 1] != DASH;
      JoinStep(word, Words(t[n..]));
      JoinEdges(t[n..]);
    }
  }

  lemma StripsNothing(t: Text)
    requires t != [] ==> t[0] != DASH && t[|t| - 1] != DASH
    ensures StripStart(t) == t && StripEnd(t) == t
  {
  }

  lemma StripsTail(t: Text)
    requires t != [] && t[0] != DASH && t[|t| - 1] != DASH
    ensures StripStart(t + [DASH]) == t + [DASH] && StripEnd(t + [DASH]) == t
  {
    assert (t + [DASH])[..|t|] == t;
  }

  lemma StripsFront(t: Text)
    ensures StripStart([DASH] + t) == StripStart(t)
  {
    assert ([DASH] + t)[1..] == t;
  }

  lemma SpaceIsNoWordUnit(c: CodeUnit)
    requires IsSpace(c)
    ensures !WordUnit(c)
  {
  }

  lemma {:induction false} WordsOfTrimStart(t: Text)
    ensures Words(TrimStart(t)) == Words(t)
    decreases |t|
  {
    if |t| > 0 && IsSpace(t[0]) {
      SpaceIsNoWordUnit(t[0]);
      WordsOfTrimStart(t[1..]);
    }
  }

  lemma {:induction false} WordsWithoutLast(t: Text)
    requires |t| > 0 && !WordUnit(t[|t| - 1])
    ensures Words(t[..|t| - 1]) == Words(t)
    decreases |t|
  {
    hide WordUnit;
    var shorter := t[..|t| - 1];
    if !WordUnit(t[0]) {
      if |t| > 1 {
        assert shorter[1..] == t[1..][..|t[1..]| - 1];
        WordsWithoutLast(t[1..]);
      } else {
        assert t[1..] == [] && shorter == [];
      }
    } else {
      WordsRun(t);
      var n := Span(t, 0, WordUnit);
      assert n < |t|;
      SpanIs(shorter, 0, n, WordUnit);
      assert shorter[..n] == t[..n] && shorter[n..] == t[n..][..|t[n..]| - 1];
      WordsWithoutLast(t[n..]);
    }
  }

  lemma {:induction false} WordsOfTrimEnd(t: Text)
    ensures Words(TrimEnd(t)) == Words(t)
    decreases |t|
  {
    if |t| > 0 && IsSpace(t[|t| - 1]) {
      SpaceIsNoWordUnit(t[|t| - 1]);
      WordsWithoutLast(t);
      WordsOfTrimEnd(t[..|t| - 1]);
    }
  }

  /** The slug of a name is its words in lower case with single dashes between them. */
  lemma SlugIsItsWords(name: Text)
    ensures NormaliseSlug(name) == Join(Words(name), DASH)
  {
    hide Words, Join, Dashed, StripStart, StripEnd, TrimStart, TrimEnd, WordUnit;
    var t := Trim(name);
    WordsOfTrimStart(name);
    WordsOfTrimEnd(TrimStart(name));
    var joined := Join(Words(t), DASH);
    JoinEdges(t);
    var tail := DashedWords(t);
    StripsNothing(joined);
    assert joined + [] == joined;
    if tail != [] { StripsTail(joined); }
    StrippedDash(t);
  }

  // Whether a gap is open at the start only decides about a dash that is stripped.
  lemma StrippedDash(t: Text)
    ensures StripStart(Dashed(t, false)) == StripStart(Dashed(t, true))
  {
    hide StripStart;
    if |t| > 0 && !WordUnit(t[0]) {
      DashedGap(t, false);
      DashedGap(t, true);
      StripsFront(Dashed(t[1..], true));
      assert [] + Dashed(t[1..], true) == Dashed(t[1..], true);
    } else if |t| > 0 {
      UnitsAre(t[0]);
    }
  }

  /** Names with the same words have the same slug, so that only one of them can be taken in a scope. */
  lemma SlugsAgreeExactlyWhenWordsDo(a: Text, b: Text)
    ensures NormaliseSlug(a) == NormaliseSlug(b) <==> Words(a) == Words(b)
  {
    hide Words, Join, NormaliseSlug;
    SlugIsItsWords(a);
    SlugIsItsWords(b);
    if NormaliseSlug(a) == NormaliseSlug(b) {
      WordsAreFree(a);
      WordsAreFree(b);
      JoinEdges(a);
      JoinEdges(b);
      NoWords();
      if Words(a) != [] && Words(b) != [] {
        SplitJoin(Words(a), DASH);
        SplitJoin(Words(b), DASH);
      }
    }
  }

  lemma NoWords()
    ensures Join([], DASH) == []
  {
  }

  lemma {:induction false} WordsAreFree(t: Text)
    ensures forall i :: 0 <= i < |Words(t)| ==> Free(Words(t)[i], DASH)
    decreases |t|
  {
    if |t| > 0 {
      if !WordUnit(t[0]) {
        WordsAreFree(t[1..]);
      } else {
        var n := Span(t, 0, WordUnit);
        WordsAreFree(t[n..]);
        forall k | 0 <= k < n ensures Lower(t[..n])[k] != DASH { UnitsAre(t[k]); }
      }
    }
  }
}
