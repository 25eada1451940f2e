/**
 * Any number of processes applying the same list of SQL migrations to one
 * database at the same time. Every query is one step; a transaction's own
 * writes become visible to the others when it commits.
 */
module Migrations {
  import opened Outcome
  import opened JsText

  datatype File = File(name: Text, sql: Text, checksum: Text)

  /** `apply` is what running one SQL text does to a schema; `destructive` recognises the guarded texts. */
  datatype Config<!S> = Config(files: seq<File>, apply: (S, Text) -> S, destructive: Text -> bool, allowDestructive: bool)

  predicate ValidConfig<S>(c: Config<S>) {
    forall i, j :: 0 <= i < j < |c.files| ==> c.files[i].name != c.files[j].name
  }

  datatype Failure = ChecksumMismatch(file: nat) | DestructiveRefused(file: nat) | DuplicateRow(file: nat) | Interrupted

  /** Where one runner is; `work` is the schema its open transaction sees. */
  datatype Runner<S> =
    | Looking(file: nat)
    | Absent(file: nat)
    | Locked(file: nat)
    | Confirmed(file: nat)
    | Executed(file: nat, work: S)
    | Recorded(file: nat, work: S)
    | Done
    | Failed(why: Failure)

  predicate HoldsLock<S>(r: Runner<S>) { r.Locked? || r.Confirmed? || r.Executed? || r.Recorded? }

  type RunnerId = nat

  /** What has committed; `commits` lists the files committed since the beginning of the run, oldest first. */
  datatype Database<S> = Database(history: map<Text, Text>, schema: S, commits: seq<nat>)

  datatype State<S> = State(db: Database<S>, lock: Option<RunnerId>, runners: map<RunnerId, Runner<S>>)

  datatype Step = Start(r: RunnerId) | Look(r: RunnerId) | Lock(r: RunnerId) | LookAgain(r: RunnerId)
    | Execute(r: RunnerId) | Record(r: RunnerId) | Commit(r: RunnerId) | Interrupt(r: RunnerId)

  predicate Enabled<S>(c: Config<S>, s: State<S>, step: Step) {
    var known := step.r in s.runners;
    match step
    case Start(_) => !known
    case Look(_) => known && s.runners[step.r].Looking?
    case Lock(_) => known && s.runners[step.r].Absent? && s.lock == None
    case LookAgain(_) => known && s.runners[step.r].Locked?
    case Execute(_) => known && s.runners[step.r].Confirmed?
    case Record(_) => known && s.runners[step.r].Executed?
    case Commit(_) => known && s.runners[step.r].Recorded?
    case Interrupt(_) => known && !s.runners[step.r].Done? && !s.runners[step.r].Failed?
  }

  function Move<S>(s: State<S>, id: RunnerId, r: Runner<S>): State<S> { s.(runners := s.runners[id := r]) }

  /** ROLLBACK, or the end of the connection: the transaction's writes and its lock are gone. */
  function Abandon<S>(s: State<S>, id: RunnerId, why: Failure): State<S> {
    Move(s.(lock := if s.lock == Some(id) then None else s.lock), id, Failed(why))
  }

  function LookAt<S>(c: Config<S>, s: State<S>, id: RunnerId, i: nat): State<S> {
    if i >= |c.files| then Move(s, id, Done) else
      var f := c.files[i];
      if f.name in s.db.history then
        if s.db.history[f.name] != f.checksum then Abandon(s, id, ChecksumMismatch(i)) else Move(s, id, Looking(i + 1))
      else if c.destructive(f.sql) && !c.allowDestructive then Abandon(s, id, DestructiveRefused(i))
      else Move(s, id, Absent(i))
  }

  function LookAgainAt<S>(c: Config<S>, s: State<S>, id: RunnerId, i: nat): State<S>
    requires i < |c.files|
  {
    var f := c.files[i];
    if f.name in s.db.history then
      if s.db.history[f.name] != f.checksum then Abandon(s, id, ChecksumMismatch(i))
      else Move(s.(lock := None), id, Looking(i + 1))
    else Move(s, id, Confirmed(i))
  }

  function CommitFile<S>(c: Config<S>, db: Database<S>, i: nat, work: S): Database<S>
    requires i < |c.files|
  {
    Database(db.history[c.files[i].name := c.files[i].checksum], work, db.commits + [i])
  }

  function Apply<S>(c: Config<S>, s: State<S>, step: Step): State<S>
    requires Enabled(c, s, step)
  {
    var id := step.r;
    if step.Start? then Move(s, id, Looking(0)) else
      var r := s.runners[id];
      if step.Interrupt? then Abandon(s, id, Interrupted)
      else if r.Looking? then LookAt(c, s, id, r.file)
      else if r.file >= |c.files| then s
      else
        var f := c.files[r.file];
        match step
        case Lock(_) => Move(s.(lock := Some(id)), id, Locked(r.file))
        case LookAgain(_) => LookAgainAt(c, s, id, r.file)
        case Execute(_) => Move(s, id, Executed(r.file, c.apply(s.db.schema, f.sql)))
        case Record(_) =>
          if f.name in s.db.history then Abandon(s, id, DuplicateRow(r.file)) else Move(s, id, Recorded(r.file, r.work))
        case Commit(_) => Move(State(CommitFile(c, s.db, r.file, r.work), None, s.runners), id, Looking(r.file + 1))
  }

  /** The first n files have committed before any runner started. */
  ghost predicate Init<S>(c: Config<S>, s: State<S>, n: nat) {
    && n <= |c.files| && s.db.history.Keys == Names(c.files[..n])
    && s.lock == None && s.runners == map[] && s.db.commits == []
  }

  ghost predicate Run<S>(c: Config<S>, s: State<S>, steps: seq<Step>, t: State<S>)
    decreases |steps|
  {
    if |steps| == 0 then s == t
    else Enabled(c, s, steps[0]) && Run(c, Apply(c, s, steps[0]), steps[1..], t)
  }

  // ------------------------------------------------------------ invariant

  function Names(files: seq<File>): set<Text> { set f | f in files :: f.name }

  /** The schema after running the SQL of these files in order. */
  function Fold<S>(c: Config<S>, schema: S, files: seq<File>): S {
    if |files| == 0 then schema
    else c.apply(Fold(c, schema, files[..|files| - 1]), files[|files| - 1].sql)
  }

  /** How many files have committed, before or during the run. */
  function Height<S>(db: Database<S>, n: nat): nat { n + |db.commits| }

  /** The first k files are recorded with the checksums they have now. */
  ghost predicate Agree<S>(c: Config<S>, db: Database<S>, k: nat) {
    k <= |c.files| && forall i :: 0 <= i < k ==>
      c.files[i].name in db.history && db.history[c.files[i].name] == c.files[i].checksum
  }

  /** An edited file among those that had committed before the run. */
  ghost predicate Edited<S>(c: Config<S>, db0: Database<S>, n: nat, i: nat) {
    i < n <= |c.files| && c.files[i].name in db0.history && db0.history[c.files[i].name] != c.files[i].checksum
  }

  ghost predicate RunnerInv<S>(c: Config<S>, db: Database<S>, db0: Database<S>, n: nat, r: Runner<S>) {
    var h := Height(db, n);
    match r
    case Looking(i) => i <= h && Agree(c, db, i)
    case Absent(i) => i <= h && i < |c.files| && Agree(c, db, i)
    case Locked(i) => i <= h && i < |c.files| && Agree(c, db, i)
    case Confirmed(i) => i == h < |c.files| && Agree(c, db, i)
    case Executed(i, work) => i == h < |c.files| && Agree(c, db, i) && work == c.apply(db.schema, c.files[i].sql)
    case Recorded(i, work) => i == h < |c.files| && Agree(c, db, i) && work == c.apply(db.schema, c.files[i].sql)
    case Done => h == |c.files| && Agree(c, db, h)
    case Failed(ChecksumMismatch(i)) => Edited(c, db0, n, i)
    case Failed(DestructiveRefused(i)) => i < |c.files| && c.destructive(c.files[i].sql) && !c.allowDestructive
    case Failed(DuplicateRow(_)) => false
    case Failed(Interrupted) => true
  }

  /** File i is recorded exactly when it lies below the height, with its old or its present checksum. */
  ghost predicate FileInv<S>(c: Config<S>, db: Database<S>, db0: Database<S>, n: nat, i: nat)
    requires i < |c.files|
  {
    var name := c.files[i].name;
    && (name in db.history <==> i < Height(db, n))
    && (i < n ==> name in db0.history && name in db.history && db.history[name] == db0.history[name])
    && (n <= i && name in db.history ==> db.history[name] == c.files[i].checksum)
  }

  ghost predicate DatabaseInv<S>(c: Config<S>, db: Database<S>, db0: Database<S>, n: nat) {
    && n <= Height(db, n) <= |c.files|
    && (forall i :: 0 <= i < |c.files| ==> FileInv(c, db, db0, n, i))
    && db.history.Keys <= Names(c.files)
    && (forall k :: 0 <= k < |db.commits| ==> db.commits[k] == n + k)
    && db.schema == Fold(c, db0.schema, c.files[n..Height(db, n)])
  }

  ghost predicate LockInv<S>(s: State<S>) {
    && (s.lock.Some? ==> s.lock.value in s.runners && HoldsLock(s.runners[s.lock.value]))
    && (forall id <- s.runners :: HoldsLock(s.runners[id]) ==> s.lock == Some(id))
  }

  ghost predicate Inv<S>(c: Config<S>, s: State<S>, db0: Database<S>, n: nat) {
    && DatabaseInv(c, s.db, db0, n) && LockInv(s)
    && forall id <- s.runners :: RunnerInv(c, s.db, db0, n, s.runners[id])
  }

  lemma NameIndex(files: seq<File>, i: nat, k: nat)
    requires forall a, b :: 0 <= a < b < |files| ==> files[a].name != files[b].name
    requires i < |files| && k <= |files|
    ensures files[i].name in Names(files[..k]) <==> i < k
  {
    if i < k { assert files[..k][i] == files[i]; }
    if files[i].name in Names(files[..k]) {
      var f :| f in files[..k] && f.name == files[i].name;
      var j :| 0 <= j < k && files[j] == f;
    }
  }

  lemma InitInv<S>(c: Config<S>, s: State<S>, n: nat)
    requires ValidConfig(c) && Init(c, s, n)
    ensures Inv(c, s, s.db, n)
  {
    forall i | 0 <= i < |c.files| ensures FileInv(c, s.db, s.db, n, i) {
      NameIndex(c.files, i, n);
    }
    assert c.files[n..n] == [];
  }

  /** The recorded names are those of the first files, as many as the height says. */
  lemma HistoryIsPrefix<S>(c: Config<S>, db: Database<S>, db0: Database<S>, n: nat)
    requires DatabaseInv(c, db, db0, n)
    ensures db.history.Keys == Names(c.files[..Height(db, n)])
  {
    var h := Height(db, n);
    forall x | x in db.history ensures x in Names(c.files[..h]) {
      var f :| f in c.files && f.name == x;
      var i :| 0 <= i < |c.files| && c.files[i] == f;
      assert FileInv(c, db, db0, n, i);
      assert c.files[..h][i] == f;
    }
    forall x | x in Names(c.files[..h]) ensures x in db.history {
      var f :| f in c.files[..h] && f.name == x;
      var i :| 0 <= i < h && c.files[i] == f;
      assert FileInv(c, db, db0, n, i);
    }
  }

  /** A step that moves one runner and commits nothing. */
  lemma MoveKeepsInv<S>(c: Config<S>, s: State<S>, t: State<S>, db0: Database<S>, n: nat, id: RunnerId)
    requires Inv(c, s, db0, n) && t.db == s.db && id in t.runners && t.runners == s.runners[id := t.runners[id]]
    requires RunnerInv(c, s.db, db0, n, t.runners[id]) && LockInv(t)
    ensures Inv(c, t, db0, n)
  {
    hide RunnerInv, DatabaseInv, LockInv;
  }

  lemma MoveKeepsLock<S>(s: State<S>, t: State<S>, id: RunnerId)
    requires LockInv(s) && id in t.runners && t.runners == s.runners[id := t.runners[id]]
    requires id in s.runners || !HoldsLock(t.runners[id])
    requires if HoldsLock(t.runners[id]) then t.lock == Some(id) && (s.lock == None || s.lock == Some(id))
             else t.lock == if s.lock == Some(id) then None else s.lock
    ensures LockInv(t)
  {
  }

  /** What a file's presence or absence in the history tells. */
  lemma LookFacts<S>(c: Config<S>, db: Database<S>, db0: Database<S>, n: nat, i: nat)
    requires DatabaseInv(c, db, db0, n) && i < |c.files| && i <= Height(db, n) && Agree(c, db, i)
    ensures c.files[i].name !in db.history ==> i == Height(db, n)
    ensures c.files[i].name in db.history ==> i < Height(db, n)
    ensures c.files[i].name in db.history && db.history[c.files[i].name] == c.files[i].checksum ==> Agree(c, db, i + 1)
    ensures c.files[i].name in db.history && db.history[c.files[i].name] != c.files[i].checksum ==> Edited(c, db0, n, i)
  {
    assert FileInv(c, db, db0, n, i);
  }

  lemma LookKeepsInv<S>(c: Config<S>, s: State<S>, db0: Database<S>, n: nat, id: RunnerId)
    requires Inv(c, s, db0, n) && id in s.runners && s.runners[id].Looking?
    ensures Inv(c, LookAt(c, s, id, s.runners[id].file), db0, n)
  {
    hide DatabaseInv, LockInv, Agree, Edited;
    var i := s.runners[id].file;
    assert RunnerInv(c, s.db, db0, n, s.runners[id]);
    NothingLeft(c, s.db, db0, n);
    if i < |c.files| { LookFacts(c, s.db, db0, n, i); }
    var t := LookAt(c, s, id, i);
    NotHolder(s, id);
    MoveKeepsLock(s, t, id);
    MoveKeepsInv(c, s, t, db0, n, id);
  }

  lemma NothingLeft<S>(c: Config<S>, db: Database<S>, db0: Database<S>, n: nat)
    requires DatabaseInv(c, db, db0, n)
    ensures Height(db, n) <= |c.files|
  {
  }

  lemma NotHolder<S>(s: State<S>, id: RunnerId)
    requires LockInv(s) && id in s.runners && !HoldsLock(s.runners[id])
    ensures s.lock != Some(id)
  {
  }

  lemma Holder<S>(s: State<S>, id: RunnerId)
    requires LockInv(s) && id in s.runners && HoldsLock(s.runners[id])
    ensures s.lock == Some(id)
  {
  }

  lemma LookAgainKeepsInv<S>(c: Config<S>, s: State<S>, db0: Database<S>, n: nat, id: RunnerId)
    requires Inv(c, s, db0, n) && id in s.runners && s.runners[id].Locked?
    ensures s.runners[id].file < |c.files| && Inv(c, LookAgainAt(c, s, id, s.runners[id].file), db0, n)
  {
    hide DatabaseInv, LockInv, Agree, Edited;
    var i := s.runners[id].file;
    assert RunnerInv(c, s.db, db0, n, s.runners[id]);
    LookFacts(c, s.db, db0, n, i);
    var t := LookAgainAt(c, s, id, i);
    Holder(s, id);
    MoveKeepsLock(s, t, id);
    MoveKeepsInv(c, s, t, db0, n, id);
  }

  lemma OtherKeepsInv<S>(c: Config<S>, s: State<S>, db0: Database<S>, n: nat, step: Step)
    requires Inv(c, s, db0, n) && Enabled(c, s, step) && !step.Look? && !step.LookAgain? && !step.Commit?
    ensures Inv(c, Apply(c, s, step), db0, n)
  {
    hide DatabaseInv, LockInv, Agree, Edited;
    var id, t := step.r, Apply(c, s, step);
    if step.Start? {
      StartFacts(c, s, db0, n, id);
    } else {
      var r := s.runners[id];
      assert RunnerInv(c, s.db, db0, n, r);
      if HoldsLock(r) { Holder(s, id); } else { NotHolder(s, id); }
      if step.Record? { LookFacts(c, s.db, db0, n, r.file); NotYetThere(c, s.db, db0, n); }
    }
    MoveKeepsLock(s, t, id);
    MoveKeepsInv(c, s, t, db0, n, id);
  }

  lemma StartFacts<S>(c: Config<S>, s: State<S>, db0: Database<S>, n: nat, id: RunnerId)
    requires DatabaseInv(c, s.db, db0, n) && LockInv(s) && id !in s.runners
    ensures Agree(c, s.db, 0) && s.lock != Some(id)
  {
  }

  lemma NotYetThere<S>(c: Config<S>, db: Database<S>, db0: Database<S>, n: nat)
    requires DatabaseInv(c, db, db0, n)
    ensures Height(db, n) < |c.files| ==> c.files[Height(db, n)].name !in db.history
  {
    if Height(db, n) < |c.files| { assert FileInv(c, db, db0, n, Height(db, n)); }
  }

  lemma FoldAppend<S>(c: Config<S>, schema: S, n: nat, h: nat)
    requires n <= h < |c.files|
    ensures Fold(c, schema, c.files[n..h + 1]) == c.apply(Fold(c, schema, c.files[n..h]), c.files[h].sql)
  {
    assert c.files[n..h + 1][..h - n] == c.files[n..h];
  }

  lemma CommitKeepsDatabase<S>(c: Config<S>, db: Database<S>, db0: Database<S>, n: nat, i: nat, work: S)
    requires ValidConfig(c) && DatabaseInv(c, db, db0, n) && i == Height(db, n) < |c.files|
    requires work == c.apply(db.schema, c.files[i].sql)
    ensures DatabaseInv(c, CommitFile(c, db, i, work), db0, n) && Height(CommitFile(c, db, i, work), n) == i + 1
    ensures forall k: nat :: k <= i && Agree(c, db, k) ==> Agree(c, CommitFile(c, db, i, work), k)
    ensures Agree(c, db, i) ==> Agree(c, CommitFile(c, db, i, work), i + 1)
  {
    var t := CommitFile(c, db, i, work);
    hide Fold;
    FoldAppend(c, db0.schema, n, i);
    forall j | 0 <= j < |c.files| ensures FileInv(c, t, db0, n, j) {
      assert FileInv(c, db, db0, n, j);
    }
    forall k: nat | k <= i && Agree(c, db, k) ensures Agree(c, t, k) {}
  }

  lemma CommitKeepsInv<S>(c: Config<S>, s: State<S>, db0: Database<S>, n: nat, id: RunnerId)
    requires ValidConfig(c) && Inv(c, s, db0, n) && id in s.runners && s.runners[id].Recorded?
    ensures Inv(c, Apply(c, s, Commit(id)), db0, n)
  {
    var t, r := Apply(c, s, Commit(id)), s.runners[id];
    assert RunnerInv(c, s.db, db0, n, r);
    Holder(s, id);
    hide DatabaseInv, Agree, Edited, ValidConfig;
    CommitKeepsDatabase(c, s.db, db0, n, r.file, r.work);
    forall x | x in t.runners ensures RunnerInv(c, t.db, db0, n, t.runners[x]) {
      if x != id { assert RunnerInv(c, s.db, db0, n, s.runners[x]); }
    }
    MoveKeepsLock(s, t, id);
  }

  lemma StepKeepsInv<S>(c: Config<S>, s: State<S>, db0: Database<S>, n: nat, step: Step)
    requires ValidConfig(c) && Inv(c, s, db0, n) && Enabled(c, s, step)
    ensures Inv(c, Apply(c, s, step), db0, n)
  {
    hide Inv, ValidConfig, LookAt, LookAgainAt;
    if step.Look? {
      LookKeepsInv(c, s, db0, n, step.r);
    } else if step.LookAgain? {
      LookAgainKeepsInv(c, s, db0, n, step.r);
    } else if step.Commit? {
      CommitKeepsInv(c, s, db0, n, step.r);
    } else {
      OtherKeepsInv(c, s, db0, n, step);
    }
  }

  lemma {:induction false} RunKeepsInv<S>(c: Config<S>, s: State<S>, steps: seq<Step>, t: State<S>, db0: Database<S>, n: nat)
    requires ValidConfig(c) && Inv(c, s, db0, n) && Run(c, s, steps, t)
    ensures Inv(c, t, db0, n)
    decreases |steps|
  {
    hide Inv, Apply, Enabled, ValidConfig;
    if |steps| > 0 {
      StepKeepsInv(c, s, db0, n, steps[0]);
      RunKeepsInv(c, Apply(c, s, steps[0]), steps[1..], t, db0, n);
    }
  }

  lemma ReachableInv<S>(c: Config<S>, s0: State<S>, n: nat, steps: seq<Step>, s: State<S>)
    requires ValidConfig(c) && Init(c, s0, n) && Run(c, s0, steps, s)
    ensures Inv(c, s, s0.db, n)
  {
    InitInv(c, s0, n);
    RunKeepsInv(c, s0, steps, s, s0.db, n);
  }

  // --------------------------------------------------------- main results

  /** The recorded migrations are always exactly a prefix of the file list. */
  lemma CommittedIsAPrefix<S>(c: Config<S>, s0: State<S>, n: nat, steps: seq<Step>, s: State<S>)
    requires ValidConfig(c) && Init(c, s0, n) && Run(c, s0, steps, s)
    ensures Height(s.db, n) <= |c.files| && s.db.history.Keys == Names(c.files[..Height(s.db, n)])
  {
    ReachableInv(c, s0, n, steps, s);
    HistoryIsPrefix(c, s.db, s0.db, n);
  }

  /** Every file after the first n commits at most once, in list order, none skipped. */
  lemma EachCommitsOnce<S>(c: Config<S>, s0: State<S>, n: nat, steps: seq<Step>, s: State<S>)
    requires ValidConfig(c) && Init(c, s0, n) && Run(c, s0, steps, s)
    ensures s.db.commits == seq(|s.db.commits|, k => n + k)
    ensures forall i :: n <= i < |c.files| ==> (i in s.db.commits <==> c.files[i].name in s.db.history)
  {
    ReachableInv(c, s0, n, steps, s);
    CommitsAreTheRange(c, s.db, s0.db, n);
  }

  lemma CommitsAreTheRange<S>(c: Config<S>, db: Database<S>, db0: Database<S>, n: nat)
    requires DatabaseInv(c, db, db0, n)
    ensures db.commits == seq(|db.commits|, k => n + k)
    ensures forall i :: n <= i < |c.files| ==> (i in db.commits <==> c.files[i].name in db.history)
  {
    hide Fold;
    forall i | n <= i < |c.files| ensures i in db.commits <==> c.files[i].name in db.history {
      assert FileInv(c, db, db0, n, i);
      if i < Height(db, n) { assert db.commits[i - n] == i; }
    }
  }

  /** The schema is what running the committed files alone, one after the other, gives. */
  lemma SchemaIsTheFold<S>(c: Config<S>, s0: State<S>, n: nat, steps: seq<Step>, s: State<S>)
    requires ValidConfig(c) && Init(c, s0, n) && Run(c, s0, steps, s)
    ensures Height(s.db, n) <= |c.files| && s.db.schema == Fold(c, s0.db.schema, c.files[n..Height(s.db, n)])
  {
    ReachableInv(c, s0, n, steps, s);
  }

  /** A runner that returns normally leaves every file recorded with its present checksum. */
  lemma FinishedMeansAllApplied<S>(c: Config<S>, s0: State<S>, n: nat, steps: seq<Step>, s: State<S>, id: RunnerId)
    requires ValidConfig(c) && Init(c, s0, n) && Run(c, s0, steps, s) && id in s.runners && s.runners[id] == Done
    ensures s.db.history.Keys == Names(c.files) && s.db.schema == Fold(c, s0.db.schema, c.files[n..])
    ensures forall f <- c.files :: f.name in s.db.history && s.db.history[f.name] == f.checksum
  {
    ReachableInv(c, s0, n, steps, s);
    hide Run, Init, Fold;
    HistoryIsPrefix(c, s.db, s0.db, n);
    assert RunnerInv(c, s.db, s0.db, n, s.runners[id]);
    assert c.files[..|c.files|] == c.files && c.files[n..|c.files|] == c.files[n..];
  }

  /** Apart from interruptions a runner fails only for an edited old file or a refused destructive one. */
  lemma FailuresHaveCauses<S>(c: Config<S>, s0: State<S>, n: nat, steps: seq<Step>, s: State<S>, id: RunnerId)
    requires ValidConfig(c) && Init(c, s0, n) && Run(c, s0, steps, s) && id in s.runners && s.runners[id].Failed?
    ensures s.runners[id].why == Interrupted
      || (exists i :: Edited(c, s0.db, n, i))
      || (!c.allowDestructive && exists f <- c.files :: c.destructive(f.sql))
  {
    ReachableInv(c, s0, n, steps, s);
    assert RunnerInv(c, s.db, s0.db, n, s.runners[id]);
  }

  // ------------------------------------------------------ no runner hangs

  /** How far a runner is with its present file. */
  function Stage<S>(r: Runner<S>): nat {
    match r
    case Absent(_) => 1
    case Locked(_) => 2
    case Confirmed(_) => 3
    case Executed(_, _) => 4
    case Recorded(_, _) => 5
    case _ => 0
  }

  /** How many queries a runner still has to make at most. */
  function Left<S>(c: Config<S>, r: Runner<S>): nat {
    if r.Done? || r.Failed? || r.file > |c.files| then 0
    else if r.file == |c.files| then 1
    else 6 * (|c.files| - r.file) + 1 - Stage(r)
  }

  lemma StepsRunOut<S>(c: Config<S>, s: State<S>, db0: Database<S>, n: nat, step: Step)
    requires ValidConfig(c) && Inv(c, s, db0, n) && Enabled(c, s, step) && !step.Start?
    ensures var t := Apply(c, s, step);
      && Left(c, t.runners[step.r]) < Left(c, s.runners[step.r])
      && (forall id <- s.runners :: id != step.r ==> id in t.runners && t.runners[id] == s.runners[id])
  {
    hide DatabaseInv, LockInv, Agree, Edited, ValidConfig;
    NothingLeft(c, s.db, db0, n);
    assert RunnerInv(c, s.db, db0, n, s.runners[step.r]);
  }

  /** While a runner is unfinished, some runner can make an ordinary step: waiting for the lock never blocks all. */
  lemma NoDeadlock<S>(c: Config<S>, s: State<S>, db0: Database<S>, n: nat, id: RunnerId)
    requires ValidConfig(c) && Inv(c, s, db0, n) && id in s.runners && !s.runners[id].Done? && !s.runners[id].Failed?
    ensures exists step :: Enabled(c, s, step) && !step.Start? && !step.Interrupt?
  {
    var who := if s.runners[id].Absent? && s.lock.Some? then s.lock.value else id;
    var r := s.runners[who];
    var step := if r.Looking? then Look(who) else if r.Absent? then Lock(who) else if r.Locked? then LookAgain(who)
      else if r.Confirmed? then Execute(who) else if r.Executed? then Record(who) else Commit(who);
    assert Enabled(c, s, step);
  }
}
