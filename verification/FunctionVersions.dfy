/**
 * Functions, their versions and the one deployed version, per organisation,
 * project and environment; exporting a scope and restoring it.
 */
module FunctionVersions {
  import opened Outcome
  import opened JsText

  type Id = Text

  datatype Scope = Scope(organization: Text, project: Text, environment: Text)

  datatype Limits = Limits(timeoutMs: nat, memoryMb: nat, cpuProfile: Text)

  datatype LimitsInput = LimitsInput(timeoutMs: Option<nat>, memoryMb: Option<nat>, cpuProfile: Option<Text>)

  datatype VersionStatus = Draft | Published | Superseded

  datatype Version = Version(number: nat, code: Text, status: VersionStatus)

  datatype Definition = Definition(
    id: Id, scope: Scope, slug: Text, access: Text, limits: Limits, active: bool, currentVersion: Option<nat>, updatedAt: nat)

  datatype Secret = Secret(id: Id, scope: Scope, name: Text, encrypted: Text)

  /** The maps functions and secrets in insertion order; versions by function id. */
  datatype State = State(functions: seq<Definition>, versions: map<Id, seq<Version>>, secrets: seq<Secret>)

  datatype Export = Export(functions: seq<Definition>, versions: map<Id, seq<Version>>, secrets: seq<Secret>)

  datatype Error = InvalidName | AlreadyExists | InvalidLimits | NotFound | CodeRequired | VersionNotFound
    | NotDeployed | VersionUnavailable | NotInBackup

  // -------------------------------------------------------------- pieces

  predicate ValidLimits(l: Limits) {
    && l.timeoutMs in {5_000, 15_000, 30_000, 60_000} && l.memoryMb in {128, 256, 512, 1024}
    && l.cpuProfile in {T("shared"), T("standard"), T("performance")}
  }

  function DefaultLimits(): Limits { Limits(15_000, 128, T("shared")) }

  function Merge(base: Limits, input: Option<LimitsInput>): Limits {
    match input
    case None => base
    case Some(i) => Limits(GetOr(i.timeoutMs, base.timeoutMs), GetOr(i.memoryMb, base.memoryMb), GetOr(i.cpuProfile, base.cpuProfile))
  }

  const DASH: CodeUnit := U('-')

  predicate SlugUnit(c: CodeUnit) { U('a') <= c <= U('z') || IsDigit(c) }

  /** Every run of other characters becomes one dash. */
  function Dashed(t: Text, gap: bool): Text {
    if |t| == 0 then []
    else if SlugUnit(LowerUnit(t[0])) then [LowerUnit(t[0])] + Dashed(t[1..], false)
    else (if gap then [] else [DASH]) + Dashed(t[1..], true)
  }

  function StripStart(t: Text): Text { if |t| > 0 && t[0] == DASH then StripStart(t[1..]) else t }

  function StripEnd(t: Text): Text { if |t| > 0 && t[|t| - 1] == DASH then StripEnd(t[..|t| - 1]) else t }

  function NormaliseSlug(t: Text): Text { StripEnd(StripStart(Dashed(Trim(t), false))) }

  function DefaultCode(name: Text): Text {
    T("export default async (req, ctx) => ({ status: 200, body: { message: \"Hello from ") + name + T("\" } });")
  }

  function Find(fs: seq<Definition>, scope: Scope, key: Text): (i: nat)
    ensures i <= |fs| && (i < |fs| ==> fs[i].scope == scope && (fs[i].id == key || fs[i].slug == key))
    ensures forall k :: 0 <= k < i ==> !(fs[k].scope == scope && (fs[k].id == key || fs[k].slug == key))
  {
    if |fs| == 0 || (fs[0].scope == scope && (fs[0].id == key || fs[0].slug == key)) then 0
    else 1 + Find(fs[1..], scope, key)
  }

  function VersionsOf(s: State, id: Id): seq<Version> { if id in s.versions then s.versions[id] else [] }

  function MaxNumber(vs: seq<Version>): nat {
    if |vs| == 0 then 0 else
      var rest := MaxNumber(vs[..|vs| - 1]);
      if vs[|vs| - 1].number > rest then vs[|vs| - 1].number else rest
  }

  function FindVersion(vs: seq<Version>, number: nat): (i: nat)
    ensures i <= |vs| && (i < |vs| ==> vs[i].number == number) && forall k :: 0 <= k < i ==> vs[k].number != number
  {
    if |vs| == 0 || vs[0].number == number then 0 else 1 + FindVersion(vs[1..], number)
  }

  function Retired(v: Version): Version { if v.status == Published then v.(status := Superseded) else v }

  function Publish(vs: seq<Version>, k: nat): seq<Version>
    requires k < |vs|
  {
    seq(|vs|, i requires 0 <= i < |vs| => if i == k then vs[i].(status := Published) else Retired(vs[i]))
  }

  // ---------------------------------------------------------- operations

  function Create(s: State, scope: Scope, id: Id, name: Text, slugInput: Text, access: Option<Text>,
                  limits: Option<LimitsInput>, code: Option<Text>, now: nat): (State, Result<Definition, Error>) {
    var title := Trim(name);
    var slug := NormaliseSlug(if slugInput == [] then title else slugInput);
    var body := Trim(GetOr(code, []));
    var l := Merge(DefaultLimits(), limits);
    if title == [] || slug == [] || |slug| > 80 then (s, Err(InvalidName))
    else if Find(s.functions, scope, slug) < |s.functions| then (s, Err(AlreadyExists))
    else if !ValidLimits(l) then (s, Err(InvalidLimits))
    else
      var d := Definition(id, scope, slug, GetOr(access, T("authenticated")), l, false, None, now);
      var v := Version(1, if body == [] then DefaultCode(title) else body, Draft);
      (s.(functions := s.functions + [d], versions := s.versions[id := [v]]), Ok(d))
  }

  /** The new version is stored and the access changed even when the limits are then refused. */
  function Update(s: State, scope: Scope, key: Text, code: Text, access: Option<Text>, limits: Option<LimitsInput>,
                  now: nat): (State, Result<Version, Error>) {
    var i := Find(s.functions, scope, key);
    if i == |s.functions| then (s, Err(NotFound))
    else if Trim(code) == [] then (s, Err(CodeRequired))
    else
      var d := s.functions[i];
      var vs := VersionsOf(s, d.id);
      var v := Version(MaxNumber(vs) + 1, code, Draft);
      var touched := d.(access := GetOr(access, d.access));
      var l := Merge(d.limits, limits);
      var versions := s.versions[d.id := vs + [v]];
      if !ValidLimits(l) then (s.(functions := s.functions[i := touched], versions := versions), Err(InvalidLimits))
      else (s.(functions := s.functions[i := touched.(limits := l, updatedAt := now)], versions := versions), Ok(v))
  }

  function Deploy(s: State, scope: Scope, key: Text, requested: Option<nat>, now: nat): (State, Result<Definition, Error>) {
    var i := Find(s.functions, scope, key);
    if i == |s.functions| then (s, Err(NotFound))
    else
      var d := s.functions[i];
      var vs := VersionsOf(s, d.id);
      var k := if requested.Some? then FindVersion(vs, requested.value) else if |vs| > 0 then |vs| - 1 else 0;
      if k >= |vs| then (s, Err(VersionNotFound))
      else
        var deployed := d.(active := true, currentVersion := Some(vs[k].number), updatedAt := now);
        (s.(functions := s.functions[i := deployed], versions := s.versions[d.id := Publish(vs, k)]), Ok(deployed))
  }

  function Delete(s: State, scope: Scope, key: Text): (State, bool) {
    var i := Find(s.functions, scope, key);
    if i == |s.functions| then (s, false)
    else (s.(functions := s.functions[..i] + s.functions[i + 1..], versions := s.versions - {s.functions[i].id}), true)
  }

  /** What execute() runs. */
  function Deployed(s: State, scope: Scope, key: Text): Result<Version, Error> {
    var i := Find(s.functions, scope, key);
    if i == |s.functions| || !s.functions[i].active || GetOr(s.functions[i].currentVersion, 0) == 0 then Err(NotDeployed)
    else
      var vs := VersionsOf(s, s.functions[i].id);
      var k := FindVersion(vs, s.functions[i].currentVersion.value);
      if k == |vs| then Err(VersionUnavailable) else Ok(vs[k])
  }

  function FindSecret(ss: seq<Secret>, scope: Scope, name: Text): (i: nat)
    ensures i <= |ss| && (i < |ss| ==> ss[i].scope == scope && ss[i].name == name)
  {
    if |ss| == 0 || (ss[0].scope == scope && ss[0].name == name) then 0 else 1 + FindSecret(ss[1..], scope, name)
  }

  /** For a name that is already upper case and of the accepted form. */
  function SetSecret(s: State, scope: Scope, id: Id, name: Text, encrypted: Text): State {
    var i := FindSecret(s.secrets, scope, name);
    if i < |s.secrets| then s.(secrets := s.secrets[i := s.secrets[i].(encrypted := encrypted)])
    else s.(secrets := s.secrets + [Secret(id, scope, name, encrypted)])
  }

  function DeleteSecret(s: State, scope: Scope, name: Text): State {
    var i := FindSecret(s.secrets, scope, name);
    if i < |s.secrets| then s.(secrets := s.secrets[..i] + s.secrets[i + 1..]) else s
  }

  // -------------------------------------------------- export and restore

  function InScope(fs: seq<Definition>, scope: Scope): seq<Definition> {
    if |fs| == 0 then [] else (if fs[0].scope == scope then [fs[0]] else []) + InScope(fs[1..], scope)
  }

  /** Stable insertion, most recently updated first. */
  function Insert(d: Definition, fs: seq<Definition>): seq<Definition> {
    if |fs| == 0 || d.updatedAt >= fs[0].updatedAt then [d] + fs else [fs[0]] + Insert(d, fs[1..])
  }

  function Sort(fs: seq<Definition>): seq<Definition> { if |fs| == 0 then [] else Insert(fs[0], Sort(fs[1..])) }

  function Ids(fs: seq<Definition>): set<Id> { set d | d in fs :: d.id }

  function SecretsIn(ss: seq<Secret>, scope: Scope): seq<Secret> {
    if |ss| == 0 then [] else (if ss[0].scope == scope then [ss[0]] else []) + SecretsIn(ss[1..], scope)
  }

  function ExportOf(s: State, scope: Scope): Export {
    var fs := Sort(InScope(s.functions, scope));
    Export(fs, map id | id in s.versions && id in Ids(fs) :: s.versions[id], SecretsIn(s.secrets, scope))
  }

  /** Removed by a restore: everything in the scope, or the one function. */
  predicate Replaced(d: Definition, scope: Scope, only: Option<Id>) { d.scope == scope && (only.Some? ==> d.id == only.value) }

  function Kept(fs: seq<Definition>, scope: Scope, only: Option<Id>): seq<Definition> {
    if |fs| == 0 then [] else (if Replaced(fs[0], scope, only) then [] else [fs[0]]) + Kept(fs[1..], scope, only)
  }

  function DefinitionIndex(fs: seq<Definition>, id: Id): (i: nat)
    ensures i <= |fs| && (i < |fs| ==> fs[i].id == id) && forall k :: 0 <= k < i ==> fs[k].id != id
  {
    if |fs| == 0 || fs[0].id == id then 0 else 1 + DefinitionIndex(fs[1..], id)
  }

  /** Map.set keeps the place of a known id and appends a new one. */
  function Put(fs: seq<Definition>, d: Definition): seq<Definition> {
    var i := DefinitionIndex(fs, d.id);
    if i < |fs| then fs[i := d] else fs + [d]
  }

  function PutAll(fs: seq<Definition>, more: seq<Definition>, only: Option<Id>): seq<Definition>
    decreases |more|
  {
    if |more| == 0 then fs
    else PutAll(if only.Some? && more[0].id != only.value then fs else Put(fs, more[0]), more[1..], only)
  }

  function SecretIndex(ss: seq<Secret>, id: Id): (i: nat)
    ensures i <= |ss| && (i < |ss| ==> ss[i].id == id) && forall k :: 0 <= k < i ==> ss[k].id != id
  {
    if |ss| == 0 || ss[0].id == id then 0 else 1 + SecretIndex(ss[1..], id)
  }

  function PutSecret(ss: seq<Secret>, x: Secret): seq<Secret> {
    var i := SecretIndex(ss, x.id);
    if i < |ss| then ss[i := x] else ss + [x]
  }

  function PutSecrets(ss: seq<Secret>, more: seq<Secret>): seq<Secret>
    decreases |more|
  {
    if |more| == 0 then ss else PutSecrets(PutSecret(ss, more[0]), more[1..])
  }

  function SecretsOutside(ss: seq<Secret>, scope: Scope): seq<Secret> {
    if |ss| == 0 then [] else (if ss[0].scope == scope then [] else [ss[0]]) + SecretsOutside(ss[1..], scope)
  }

  function Targets(e: Export, only: Option<Id>): set<Id> { set id | id in Ids(e.functions) && (only.Some? ==> id == only.value) }

  function Restore(s: State, scope: Scope, e: Export, only: Option<Id>): (State, Result<(), Error>) {
    if only.Some? && Targets(e, only) == {} then (s, Err(NotInBackup))
    else
      var gone := set d | d in s.functions && Replaced(d, scope, only) :: d.id;
      var back := map id | id in e.versions && id in Targets(e, only) :: e.versions[id];
      (State(PutAll(Kept(s.functions, scope, only), e.functions, only), s.versions - gone + back,
             if only.Some? then s.secrets else PutSecrets(SecretsOutside(s.secrets, scope), e.secrets)), Ok(()))
  }

  // ----------------------------------------------------------------- runs

  /** `owner` remembers the scope of every id ever given out; `exports` are the backups taken so far. */
  datatype System = System(state: State, owner: map<Id, Scope>, exports: seq<(Scope, Export)>)

  datatype Step =
    | CreateStep(scope: Scope, id: Id, name: Text, slug: Text, access: Option<Text>, limits: Option<LimitsInput>, code: Option<Text>, now: nat)
    | UpdateStep(scope: Scope, key: Text, source: Text, access: Option<Text>, limits: Option<LimitsInput>, now: nat)
    | DeployStep(scope: Scope, key: Text, requested: Option<nat>, now: nat)
    | DeleteStep(scope: Scope, key: Text)
    | SetSecretStep(scope: Scope, id: Id, name: Text, encrypted: Text)
    | DeleteSecretStep(scope: Scope, name: Text)
    | ExportStep(scope: Scope)
    | RestoreStep(k: nat, only: Option<Id>)

  /** Generated ids are new and hold an underscore, which no slug does. */
  predicate Enabled(y: System, step: Step) {
    match step
    case CreateStep(_, id, _, _, _, _, _, _) => id !in y.owner && U('_') in id
    case SetSecretStep(_, id, _, _) => id !in y.owner
    case RestoreStep(k, _) => k < |y.exports|
    case _ => true
  }

  function Apply(y: System, step: Step): System
    requires Enabled(y, step)
  {
    match step
    case CreateStep(scope, id, name, slug, access, limits, code, now) =>
      y.(state := Create(y.state, scope, id, name, slug, access, limits, code, now).0, owner := y.owner[id := scope])
    case UpdateStep(scope, key, source, access, limits, now) =>
      y.(state := Update(y.state, scope, key, source, access, limits, now).0)
    case DeployStep(scope, key, requested, now) => y.(state := Deploy(y.state, scope, key, requested, now).0)
    case DeleteStep(scope, key) => y.(state := Delete(y.state, scope, key).0)
    case SetSecretStep(scope, id, name, encrypted) =>
      y.(state := SetSecret(y.state, scope, id, name, encrypted), owner := y.owner[id := scope])
    case DeleteSecretStep(scope, name) => y.(state := DeleteSecret(y.state, scope, name))
    case ExportStep(scope) => y.(exports := y.exports + [(scope, ExportOf(y.state, scope))])
    case RestoreStep(k, only) => y.(state := Restore(y.state, y.exports[k].0, y.exports[k].1, only).0)
  }

  const START := System(State([], map[], []), map[], [])

  ghost predicate Run(y: System, steps: seq<Step>, z: System)
    decreases |steps|
  {
    if |steps| == 0 then y == z else Enabled(y, steps[0]) && Run(Apply(y, steps[0]), steps[1..], z)
  }

  // ------------------------------------------------------------ invariant

  /** Versions are numbered 1 to n, and exactly the current one, if any, is published. */
  predicate VersionsOk(d: Definition, vs: seq<Version>) {
    && |vs| > 0 && (forall k :: 0 <= k < |vs| ==> vs[k].number == k + 1)
    && (d.active <==> d.currentVersion.Some?)
    && (d.currentVersion.Some? ==> 1 <= d.currentVersion.value <= |vs|)
    && (forall k :: 0 <= k < |vs| ==> (vs[k].status == Published <==> d.currentVersion == Some(k + 1)))
  }

  predicate DistinctIds(fs: seq<Definition>) { forall i, j :: 0 <= i < j < |fs| ==> fs[i].id != fs[j].id }

  predicate DistinctSecrets(ss: seq<Secret>) { forall i, j :: 0 <= i < j < |ss| ==> ss[i].id != ss[j].id }

  predicate Owned(fs: seq<Definition>, owner: map<Id, Scope>) {
    forall d <- fs :: d.id in owner && owner[d.id] == d.scope
  }

  predicate SecretsOwned(ss: seq<Secret>, owner: map<Id, Scope>) {
    forall x <- ss :: x.id in owner && owner[x.id] == x.scope
  }

  predicate IsSlug(t: Text) { forall c <- t :: SlugUnit(c) || c == DASH }

  predicate Slugged(fs: seq<Definition>) { forall d <- fs :: U('_') in d.id && IsSlug(d.slug) }

  predicate AllVersionsOk(fs: seq<Definition>, versions: map<Id, seq<Version>>) {
    forall d <- fs :: d.id in versions && VersionsOk(d, versions[d.id])
  }

  predicate PartsOk(fs: seq<Definition>, versions: map<Id, seq<Version>>, ss: seq<Secret>, owner: map<Id, Scope>) {
    && DistinctIds(fs) && Owned(fs, owner) && Slugged(fs) && AllVersionsOk(fs, versions) && versions.Keys == Ids(fs)
    && DistinctSecrets(ss) && SecretsOwned(ss, owner)
  }

  predicate Inv(y: System) {
    && PartsOk(y.state.functions, y.state.versions, y.state.secrets, y.owner)
    && forall k :: 0 <= k < |y.exports| ==> ExportOk(y.exports[k].0, y.exports[k].1, y.owner)
  }

  predicate Descending(fs: seq<Definition>) { forall i, j :: 0 <= i < j < |fs| ==> fs[i].updatedAt >= fs[j].updatedAt }

  predicate ExportOk(scope: Scope, e: Export, owner: map<Id, Scope>) {
    && PartsOk(e.functions, e.versions, e.secrets, owner) && Descending(e.functions)
    && (forall d <- e.functions :: d.scope == scope) && (forall x <- e.secrets :: x.scope == scope)
  }
}
