/**
 * The migration loop of one process on a database server that nobody else is
 * migrating: which runs succeed, and what they leave behind.
 */
module MigrationEngine {
  import opened JsText
  import opened Outcome
  import opened Migrations

  class Server<S> {
    var history: map<Text, Text>
    var schema: S
    var locked: bool
    ghost var commits: seq<nat>

    constructor (history: map<Text, Text>, schema: S)
      ensures this.history == history && this.schema == schema && !locked && commits == []
    {
      this.history, this.schema, this.locked, this.commits := history, schema, false, [];
    }

    ghost function Committed(): Database<S>
      reads this
    {
      Database(history, schema, commits)
    }

    /** BEGIN, lock, look again, execute, record, COMMIT for file i. */
    method ApplyFile(c: Config<S>, i: nat) returns (r: Result<bool, Failure>)
      requires i < |c.files| && !locked
      modifies this
      ensures !locked
      ensures c.files[i].name !in old(history) ==>
        r == Ok(true) && Committed() == CommitFile(c, old(Committed()), i, c.apply(old(schema), c.files[i].sql))
      ensures c.files[i].name in old(history) ==> Committed() == old(Committed())
      ensures c.files[i].name in old(history) ==>
        r == if old(history)[c.files[i].name] == c.files[i].checksum then Ok(false) else Err(ChecksumMismatch(i))
    {
      var file := c.files[i];
      locked := true;
      if file.name in history {
        locked := false;
        if history[file.name] != file.checksum { return Err(ChecksumMismatch(i)); }
        return Ok(false);
      }
      var work := c.apply(schema, file.sql);
      var rows := history[file.name := file.checksum];
      schema, history, locked := work, rows, false;
      commits := commits + [i];
      return Ok(true);
    }

    /**
     * Succeeds exactly when no file committed earlier was edited and no new
     * one is refused; the database stays at a prefix of the list in any case.
     */
    method Migrate(c: Config<S>, ghost db0: Database<S>, ghost n: nat) returns (r: Result<nat, Failure>)
      requires ValidConfig(c) && DatabaseInv(c, Committed(), db0, n) && !locked
      modifies this
      ensures DatabaseInv(c, Committed(), db0, n) && !locked
      ensures r.Ok? ==> Height(Committed(), n) == |c.files| && Agree(c, Committed(), |c.files|)
      ensures r.Ok? ==> r.value == |c.files| - old(Height(Committed(), n))
      ensures r.Ok? <==>
        && (forall i :: 0 <= i < n ==> !Edited(c, db0, n, i))
        && (forall i :: old(Height(Committed(), n)) <= i < |c.files| ==> !c.destructive(c.files[i].sql) || c.allowDestructive)
    {
      hide DatabaseInv, ValidConfig, Agree, Edited;
      var applied := 0;
      ghost var h0 := Height(Committed(), n);
      NothingLeft(c, Committed(), db0, n);
      AgreeNone(c, Committed());
      for i := 0 to |c.files|
        invariant !locked && DatabaseInv(c, Committed(), db0, n) && Agree(c, Committed(), i)
        invariant Height(Committed(), n) == (if i <= h0 then h0 else i) && applied == Height(Committed(), n) - h0
        invariant forall k :: 0 <= k < i && k < n ==> !Edited(c, db0, n, k)
        invariant forall k :: h0 <= k < i ==> !c.destructive(c.files[k].sql) || c.allowDestructive
      {
        ghost var db := Committed();
        var file := c.files[i];
        LookFacts(c, db, db0, n, i);
        EditedFacts(c, db, db0, n, i);
        if file.name in history {
          if history[file.name] != file.checksum { return Err(ChecksumMismatch(i)); }
          continue;
        }
        if c.destructive(file.sql) && !c.allowDestructive { return Err(DestructiveRefused(i)); }
        CommitKeepsDatabase(c, db, db0, n, i, c.apply(schema, file.sql));
        var done := ApplyFile(c, i);
        applied := applied + 1;
      }
      return Ok(applied);
    }
  }

  lemma AgreeNone<S>(c: Config<S>, db: Database<S>)
    ensures Agree(c, db, 0)
  {
  }

  lemma EditedFacts<S>(c: Config<S>, db: Database<S>, db0: Database<S>, n: nat, i: nat)
    requires DatabaseInv(c, db, db0, n) && i < |c.files|
    ensures c.files[i].name !in db.history || db.history[c.files[i].name] == c.files[i].checksum ==> !Edited(c, db0, n, i)
    ensures Edited(c, db0, n, i) ==> i < n
  {
    assert FileInv(c, db, db0, n, i);
  }
}
