/** Where repeated retention ends: the backups the policy keeps, and everything they build on. */
module BackupRetention {
  import opened Outcome
  import opened FiniteSets
  import opened Backup

  /** The backups of a scope that the policy keeps on their own account. */
  function Kept(s: Store, scope: Scope, now: int): set<BackupId> {
    set id | id in s.records && s.records[id].scope == scope
             && !Expired(s, id, scope, PolicyOf(s, scope), Cutoff(PolicyOf(s, scope), now))
  }

  /** A backup and all it builds on. */
  ghost function Ancestors(s: Store, id: BackupId): set<BackupId>
    requires Inv(s) && id in s.records
    decreases s.traces[id].depth
  {
    assert Linked(s, id);
    {id} + (if s.records[id].base.None? then {} else Ancestors(s, s.records[id].base.value))
  }

  /** The kept backups with all their ancestors. */
  ghost function Needed(s: Store, scope: Scope, now: int): set<BackupId>
    requires Inv(s)
  {
    set k, a | k in Kept(s, scope, now) && k in s.records && a in Ancestors(s, k) :: a
  }

  function Iterate(s: Store, scope: Scope, now: int, n: nat): Store
    decreases n
  {
    if n == 0 then s else Iterate(Pass(s, scope, now), scope, now, n - 1)
  }

  // ------------------------------------------------------------ ancestors

  lemma {:induction false} AncestorsAreStored(s: Store, id: BackupId)
    requires Inv(s) && id in s.records
    ensures forall a :: a in Ancestors(s, id) ==> InScope(s, a, s.records[id].scope)
    decreases s.traces[id].depth
  {
    assert Linked(s, id);
    if s.records[id].base.Some? { AncestorsAreStored(s, s.records[id].base.value); }
  }

  lemma {:induction false} AncestorsGoOn(s: Store, id: BackupId, a: BackupId)
    requires Inv(s) && id in s.records && a in Ancestors(s, id) && a in s.records && s.records[a].base.Some?
    ensures s.records[a].base.value in Ancestors(s, id)
    decreases s.traces[id].depth
  {
    assert Linked(s, id) && Linked(s, a);
    if a != id { AncestorsGoOn(s, s.records[id].base.value, a); }
  }

  /** Every proper ancestor is the base of another backup on the same chain. */
  lemma {:induction false} AncestorHasChild(s: Store, id: BackupId, a: BackupId)
    requires Inv(s) && id in s.records && a in Ancestors(s, id) && a != id
    ensures HasChild(s, a, s.records[id].scope)
    decreases s.traces[id].depth
  {
    assert Linked(s, id);
    var base := s.records[id].base.value;
    if a == base { assert InScope(s, id, s.records[id].scope); } else { AncestorHasChild(s, base, a); }
  }

  lemma NeededIsNotDoomed(s: Store, scope: Scope, now: int, k: BackupId, a: BackupId)
    requires Inv(s) && k in Kept(s, scope, now) && a in Ancestors(s, k)
    ensures a !in Doomed(s, scope, now)
  {
    if a != k { AncestorHasChild(s, k, a); }
  }

  lemma AncestorsUnfold(s: Store, id: BackupId)
    requires Inv(s) && id in s.records && id in s.traces
    ensures s.records[id].base.None? ==> Ancestors(s, id) == {id}
    ensures s.records[id].base.Some? ==>
      var base := s.records[id].base.value;
      && base in s.records && base in s.traces && s.traces[base].depth < s.traces[id].depth
      && Ancestors(s, id) == {id} + Ancestors(s, base)
  {
    assert Linked(s, id);
  }

  /** What a pass does not delete, it does not touch. */
  lemma PassSpares(s: Store, scope: Scope, now: int, id: BackupId)
    requires Inv(s) && id in s.records && id !in Doomed(s, scope, now)
    ensures var s' := Pass(s, scope, now);
      && id in s'.records && id in s.traces && id in s'.traces
      && s'.records[id] == s.records[id] && s'.traces[id] == s.traces[id]
  {
    hide Doomed;
  }

  lemma {:induction false} AncestorsSurvive(s: Store, scope: Scope, now: int, k: BackupId, id: BackupId)
    requires Inv(s) && k in Kept(s, scope, now) && k in s.records && id in Ancestors(s, k) && id in s.records && id in s.traces
    ensures Inv(Pass(s, scope, now)) && id in Pass(s, scope, now).records
    ensures Ancestors(Pass(s, scope, now), id) == Ancestors(s, id)
    decreases s.traces[id].depth
  {
    hide *;
    PassKeepsInv(s, scope, now);
    NeededIsNotDoomed(s, scope, now, k, id);
    PassSpares(s, scope, now, id);
    AncestorsUnfold(s, id);
    AncestorsUnfold(Pass(s, scope, now), id);
    if s.records[id].base.Some? {
      AncestorsGoOn(s, k, id);
      AncestorsSurvive(s, scope, now, k, s.records[id].base.value);
    }
  }

  // ------------------------------------------------- the kept set is fixed

  lemma {:induction false} Oldest(s: Store, ids: set<BackupId>) returns (z: BackupId)
    requires ids != {} && forall id :: id in ids ==> id in s.records
    ensures z in ids && forall id :: id in ids ==> s.records[z].createdAt <= s.records[id].createdAt
    decreases ids
  {
    z :| z in ids;
    if ids != {z} {
      var y := Oldest(s, ids - {z});
      if s.records[y].createdAt < s.records[z].createdAt { z := y; }
    }
  }

  /** The backup listed just before this one. */
  lemma NextNewer(s: Store, scope: Scope, id: BackupId) returns (z: BackupId)
    requires Inv(s) && InScope(s, id, scope) && Rank(s, id, scope) > 0
    ensures InScope(s, z, scope) && Newer(s, z, scope) <= Newer(s, id, scope) && Rank(s, z, scope) == Rank(s, id, scope) - 1
  {
    hide Linked, Faithful;
    var newer := Newer(s, id, scope);
    z := Oldest(s, newer);
    assert z !in Newer(s, z, scope);
    assert newer == Newer(s, z, scope) + {z};
  }

  /** The newest-first listing has an entry at every position up to that of `id`. */
  lemma {:induction false} EntryAt(s: Store, scope: Scope, id: BackupId, position: nat) returns (y: BackupId)
    requires Inv(s) && InScope(s, id, scope) && position <= Rank(s, id, scope)
    ensures InScope(s, y, scope) && Rank(s, y, scope) == position && Newer(s, y, scope) <= Newer(s, id, scope)
    decreases Rank(s, id, scope)
  {
    if Rank(s, id, scope) == position { return id; }
    var z := NextNewer(s, scope, id);
    hide Inv, InScope, Newer, Rank;
    y := EntryAt(s, scope, z, position);
  }

  /** What is newer than a kept backup is kept. */
  lemma NewerIsKept(s: Store, scope: Scope, now: int, id: BackupId, other: BackupId)
    requires id in s.records && other in Newer(s, id, scope)
    requires Rank(s, id, scope) <= PolicyOf(s, scope).maxBackups
    requires s.records[id].createdAt >= Cutoff(PolicyOf(s, scope), now)
    ensures other in Kept(s, scope, now)
  {
    assert other !in Newer(s, other, scope);
    SubsetSize(Newer(s, other, scope) + {other}, Newer(s, id, scope));
  }

  lemma NewerAfterPass(s: Store, scope: Scope, now: int, id: BackupId)
    requires Inv(s) && InScope(s, id, scope) && id !in Doomed(s, scope, now)
    ensures var s' := Pass(s, scope, now);
      && InScope(s', id, scope) && s'.records[id].createdAt == s.records[id].createdAt
      && PolicyOf(s', scope) == PolicyOf(s, scope)
      && Newer(s', id, scope) == Newer(s, id, scope) - Doomed(s, scope, now)
      && Rank(s', id, scope) <= Rank(s, id, scope)
  {
    hide Doomed, Inv;
    var s' := Pass(s, scope, now);
    assert Newer(s', id, scope) == Newer(s, id, scope) - Doomed(s, scope, now);
    SubsetSize(Newer(s', id, scope), Newer(s, id, scope));
  }

  /** A young backup past the last kept position has as many kept backups before it, and those survive. */
  lemma StillPastTheLimit(s: Store, scope: Scope, now: int, id: BackupId)
    requires Inv(s) && InScope(s, id, scope) && id !in Doomed(s, scope, now)
    requires s.records[id].createdAt >= Cutoff(PolicyOf(s, scope), now)
    requires 0 <= PolicyOf(s, scope).maxBackups <= Rank(s, id, scope)
    ensures var s' := Pass(s, scope, now); InScope(s', id, scope) && PolicyOf(s, scope).maxBackups <= Rank(s', id, scope)
  {
    hide Doomed, Pass, Inv, Cutoff;
    NewerAfterPass(s, scope, now, id);
    var y := EntryAt(s, scope, id, PolicyOf(s, scope).maxBackups);
    NewerCreated(s, scope, y, id);
    forall other | other in Newer(s, y, scope) ensures other in Newer(Pass(s, scope, now), id, scope) {
      NewerIsKept(s, scope, now, y, other);
      KeptIsNotDoomed(s, scope, now, other);
    }
    SubsetSize(Newer(s, y, scope), Newer(Pass(s, scope, now), id, scope));
  }

  lemma KeptIsNotDoomed(s: Store, scope: Scope, now: int, id: BackupId)
    requires id in Kept(s, scope, now)
    ensures id !in Doomed(s, scope, now)
  {
  }

  lemma NewerCreated(s: Store, scope: Scope, y: BackupId, id: BackupId)
    requires InScope(s, y, scope) && InScope(s, id, scope) && Newer(s, y, scope) <= Newer(s, id, scope)
    ensures s.records[y].createdAt >= s.records[id].createdAt
  {
    assert id !in Newer(s, id, scope);
    assert id !in Newer(s, y, scope);
  }

  lemma KeptMeans(s: Store, scope: Scope, now: int, id: BackupId)
    requires InScope(s, id, scope)
    ensures id in Kept(s, scope, now) <==>
      Rank(s, id, scope) < PolicyOf(s, scope).maxBackups && s.records[id].createdAt >= Cutoff(PolicyOf(s, scope), now)
  {
  }

  /** The kept backups are those that the policy entitles to stay, by number and age. */
  lemma KeptExactlyWhenEntitled(s: Store, scope: Scope, now: int, id: BackupId)
    ensures id in Kept(s, scope, now) <==> id in s.records && s.records[id].scope == scope && Entitled(s, id, now)
  {
    hide Entitled, Expired, Cutoff, PolicyOf;
    if InScope(s, id, scope) { ExpiredUnlessEntitled(s, scope, now, id); }
  }

  /** A surviving backup is expired after a pass exactly when it was before: positions shift, the verdict does not. */
  lemma VerdictStands(s: Store, scope: Scope, now: int, id: BackupId)
    requires Inv(s) && InScope(s, id, scope) && id !in Doomed(s, scope, now)
    ensures id in Kept(Pass(s, scope, now), scope, now) <==> id in Kept(s, scope, now)
  {
    hide *;
    KeptMeans(s, scope, now, id);
    NewerAfterPass(s, scope, now, id);
    KeptMeans(Pass(s, scope, now), scope, now, id);
    InScopeMeans(s, id, scope);
    if PolicyOf(s, scope).maxBackups >= 0 && s.records[id].createdAt >= Cutoff(PolicyOf(s, scope), now)
       && PolicyOf(s, scope).maxBackups <= Rank(s, id, scope) {
      StillPastTheLimit(s, scope, now, id);
    }
  }

  lemma InScopeMeans(s: Store, id: BackupId, scope: Scope)
    requires InScope(s, id, scope)
    ensures id in s.records
  {
  }

  lemma KeptIsFixed(s: Store, scope: Scope, now: int)
    requires Inv(s)
    ensures Kept(Pass(s, scope, now), scope, now) == Kept(s, scope, now)
  {
    forall id | InScope(s, id, scope) && id !in Doomed(s, scope, now)
      ensures id in Kept(Pass(s, scope, now), scope, now) <==> id in Kept(s, scope, now)
    {
      VerdictStands(s, scope, now, id);
    }
  }

  lemma NeededIsFixed(s: Store, scope: Scope, now: int)
    requires Inv(s)
    ensures Inv(Pass(s, scope, now)) && Needed(Pass(s, scope, now), scope, now) == Needed(s, scope, now)
  {
    PassKeepsInv(s, scope, now);
    KeptIsFixed(s, scope, now);
    SameKeys(s);
    forall k | k in Kept(s, scope, now)
      ensures k in Pass(s, scope, now).records && Ancestors(Pass(s, scope, now), k) == Ancestors(s, k)
    {
      AncestorsSurvive(s, scope, now, k, k);
    }
  }

  // ---------------------------------------------------------- convergence

  /** With nothing left to delete, an expired backup has a child, whose chain leads up to a kept one. */
  lemma {:induction false} StayersAreNeeded(s: Store, scope: Scope, now: int, id: BackupId)
    requires Inv(s) && Doomed(s, scope, now) == {} && InScope(s, id, scope)
    ensures id in Needed(s, scope, now)
    decreases s.total - s.traces[id].depth
  {
    assert Linked(s, id);
    if id in Kept(s, scope, now) {
      assert id in Ancestors(s, id);
    } else {
      assert id !in Doomed(s, scope, now) && HasChild(s, id, scope);
      var child :| child in s.records && InScope(s, child, scope) && s.records[child].base == Some(id);
      assert Linked(s, child);
      StayersAreNeeded(s, scope, now, child);
      var k :| k in Kept(s, scope, now) && k in s.records && child in Ancestors(s, k);
      AncestorsGoOn(s, k, child);
    }
  }

  lemma NeededIsStored(s: Store, scope: Scope, now: int)
    requires Inv(s)
    ensures Needed(s, scope, now) <= ScopeIds(s, scope)
  {
    forall a | a in Needed(s, scope, now) ensures a in ScopeIds(s, scope) {
      var k :| k in Kept(s, scope, now) && k in s.records && a in Ancestors(s, k);
      AncestorsAreStored(s, k);
    }
  }

  lemma {:induction false} IterateStill(s: Store, scope: Scope, now: int, n: nat)
    requires Doomed(s, scope, now) == {} && s.artifacts.Keys == s.records.Keys && s.traces.Keys == s.records.Keys
    ensures Iterate(s, scope, now, n) == s
  {
    assert s.records - {} == s.records && s.artifacts - {} == s.artifacts && s.traces - {} == s.traces;
    if n > 0 { IterateStill(s, scope, now, n - 1); }
  }

  lemma IterateUnfold(s: Store, scope: Scope, now: int, n: nat)
    requires n > 0
    ensures Iterate(s, scope, now, n) == Iterate(Pass(s, scope, now), scope, now, n - 1)
  {
  }

  lemma ScopeIdsMeans(s: Store, scope: Scope, id: BackupId)
    requires id in ScopeIds(s, scope)
    ensures InScope(s, id, scope)
  {
  }

  lemma PassShrinks(s: Store, scope: Scope, now: int)
    requires Doomed(s, scope, now) != {}
    ensures |ScopeIds(Pass(s, scope, now), scope)| < |ScopeIds(s, scope)|
    ensures forall id :: id in s.records && s.records[id].scope != scope ==>
      id in Pass(s, scope, now).records && Pass(s, scope, now).records[id] == s.records[id]
  {
    var doomed := Doomed(s, scope, now);
    assert doomed <= ScopeIds(s, scope);
    var gone :| gone in doomed;
    hide Doomed;
    var next := Pass(s, scope, now);
    assert ScopeIds(next, scope) == ScopeIds(s, scope) - doomed;
    SubsetSize(ScopeIds(next, scope) + {gone}, ScopeIds(s, scope));
  }

  /**
   * Repeating retention at a fixed time, as often as the scope has backups, ends with
   * exactly the backups the policy keeps and their ancestors; other scopes are untouched.
   */
  lemma {:induction false} RetentionConverges(s: Store, scope: Scope, now: int, n: nat)
    requires Inv(s) && n >= |ScopeIds(s, scope)|
    ensures var end := Iterate(s, scope, now, n);
      && Inv(end) && ScopeIds(end, scope) == Needed(s, scope, now) && Doomed(end, scope, now) == {}
      && forall id :: id in s.records && s.records[id].scope != scope ==> id in end.records && end.records[id] == s.records[id]
    decreases n
  {
    hide *;
    if Doomed(s, scope, now) == {} {
      SameKeys(s);
      IterateStill(s, scope, now, n);
      NeededIsStored(s, scope, now);
      forall id | id in ScopeIds(s, scope) ensures id in Needed(s, scope, now) {
        ScopeIdsMeans(s, scope, id);
        StayersAreNeeded(s, scope, now, id);
      }
    } else {
      PassShrinks(s, scope, now);
      NeededIsFixed(s, scope, now);
      RetentionConverges(Pass(s, scope, now), scope, now, n - 1);
      IterateUnfold(s, scope, now, n);
    }
  }
}
