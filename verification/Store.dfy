/** The store in front of the journal: merging updates, and the resumable vacuum. */
module Store {
  import opened Options
  import opened Repository
  import opened Journal
  import opened Coordinator

  /** Absent fields keep what the row has; the metadata patch only adds or replaces keys. */
  datatype Change = Change(scope: Scope, id: string, expected: nat, op: Option<string>, content: Option<string>,
                           embedding: Option<seq<real>>, kind: Option<Kind>, importance: Option<real>,
                           expiresAt: Option<Option<int>>, patch: Option<map<string, string>>)

  function Or<T>(o: Option<T>, default: T): T {
    match o case Some(x) => x case None => default
  }

  /** The record that `update` hands to the journal. */
  function Merge(row: Record, c: Change): Record {
    Record(c.id, c.scope, Or(c.kind, row.kind), Or(c.content, row.content), Or(c.embedding, row.embedding),
           Or(c.importance, row.importance), row.createdAt, row.accessCount, Or(c.expiresAt, row.expiresAt), Active,
           row.revision + 1, row.metadata + Or(c.patch, map[]))
  }

  /** The patch's keys have the patch's values, the others are as before. */
  ghost predicate PatchedBy(before: map<string, string>, patch: Option<map<string, string>>,
                            after: map<string, string>) {
    && (forall k :: k in after <==> k in before || (patch.Some? && k in patch.value))
    && (forall k :: k in before && !(patch.Some? && k in patch.value) ==> after[k] == before[k])
    && (patch.Some? ==> forall k :: k in patch.value ==> after[k] == patch.value[k])
  }

  /** A committed update: what was asked for is there, what was not is as before, and the kind is as before
      even if another one was asked for. */
  lemma UpdateMerges(db: Db, c: Change)
    requires InScope(db, c.scope, c.id) && UpdateMemory(db, Merge(db.memories[c.id], c), c.expected, c.op).Committed?
    ensures var row, t := db.memories[c.id], UpdateMemory(db, Merge(db.memories[c.id], c), c.expected, c.op).db;
            && row.status != Deleted && row.revision == c.expected && c.id in t.memories
            && t.memories == db.memories[c.id := t.memories[c.id]]
            && var new_ := t.memories[c.id];
               && new_.revision == c.expected + 1 && new_.status == Active && new_.scope == row.scope
               && new_.createdAt == row.createdAt && new_.accessCount == row.accessCount && new_.id == row.id
               && (c.content.None? ==> new_.content == row.content)
               && (c.content.Some? ==> new_.content == c.content.value)
               && (c.embedding.None? ==> new_.embedding == row.embedding)
               && (c.expiresAt.Some? ==> new_.expiresAt == c.expiresAt.value)
               && (c.embedding.Some? ==> new_.embedding == c.embedding.value)
               && (c.importance.None? ==> new_.importance == row.importance)
               && (c.importance.Some? ==> new_.importance == c.importance.value)
               && (c.expiresAt.None? ==> new_.expiresAt == row.expiresAt)
               && PatchedBy(row.metadata, c.patch, new_.metadata)
               && new_.kind == row.kind
  {
  }

  class MemoryStore {
    const coordinator: JournalCoordinator

    constructor (coordinator: JournalCoordinator)
      ensures this.coordinator == coordinator
    {
      this.coordinator := coordinator;
    }

    method Update(c: Change) returns (failed: Option<Error>)
      modifies coordinator, coordinator.repo, coordinator.index
      ensures var db, dims := old(coordinator.repo.db), coordinator.index.dims;
              if c.embedding.Some? && |c.embedding.value| != dims then
                failed == Some(Error.DimensionMismatch) && coordinator.State() == old(coordinator.State())
              else if c.importance.Some? && !(0.0 <= c.importance.value <= 1.0) then
                failed == Some(InvalidInput) && coordinator.State() == old(coordinator.State())
              else if !InScope(db, c.scope, c.id) then
                failed == Some(NotFound) && coordinator.State() == old(coordinator.State())
              else
                coordinator.Performed(UpdateEffects(db, Merge(db.memories[c.id], c), c.expected, c.op), failed)
    {
      if c.embedding.Some? && |c.embedding.value| != coordinator.index.dims {
        return Some(Error.DimensionMismatch);
      }
      if c.importance.Some? && (c.importance.value < 0.0 || c.importance.value > 1.0) {
        return Some(InvalidInput);
      }
      if !InScope(coordinator.repo.db, c.scope, c.id) {
        return Some(NotFound);
      }
      hide UpdateEffects, JournalCoordinator.Performed;
      failed := coordinator.Update(Merge(coordinator.repo.db.memories[c.id], c), c.expected, c.op);
    }

    /** `vacuum_tombstones`: an index rebuild follows if anything was purged. */
    method VacuumTombstones(batch: nat, now: int) returns (purged: nat, ghost victims: set<string>)
      modifies coordinator, coordinator.repo, coordinator.index
      ensures VacuumPick(old(coordinator.repo.db), batch, now, victims) && purged == |victims|
      ensures coordinator.Performed(VacuumEffects(batch, victims), None)
    {
      if batch == 0 {
        return 0, {};
      }
      hide Exec, Run, Trace, OnTrack;
      ghost var w0, h0, dims := coordinator.State(), coordinator.history, coordinator.index.dims;
      purged, victims := coordinator.VacuumRows(batch, now);
      ghost var all, rest := VacuumEffects(batch, victims), if victims == {} then [] else [IndexRebuild];
      assert all == [TxPurge(victims)] + rest;
      Follow(w0, h0, all, w0, h0, TxPurge(victims), rest, dims);
      if purged > 0 {
        assert rest == [IndexRebuild] + [];
        Follow(w0, h0, all, coordinator.State(), coordinator.history, IndexRebuild, [], dims);
        coordinator.RebuildIndex();
      }
    }
  }

  // ---- the vacuum over time ----

  /** Recall may return the row: it is Active and not expired. */
  predicate Recallable(r: Record, now: int) {
    r.status == Active && (r.expiresAt.Some? ==> now < r.expiresAt.value)
  }

  /** What one call removes: only rows that are deleted or expired, as many as it may, and none of them is
      recallable at that time or any later one. */
  lemma VacuumRemovesTheDead(db: Db, batch: nat, now: int, victims: set<string>, id: string, later: int)
    requires VacuumPick(db, batch, now, victims) && now <= later
    ensures var t := Purge(db, victims);
            var n := |Eligible(db, now)|;
            && |db.memories.Keys - t.memories.Keys| == (if batch < n then batch else n)
            && (id in db.memories && id !in t.memories ==> Expendable(db.memories[id], now))
            && (id in db.memories && id !in t.memories ==> !Recallable(db.memories[id], later))
            && (n <= batch && id in db.memories && Expendable(db.memories[id], now) ==> id !in t.memories)
            && (id in t.memories ==> id in db.memories && t.memories[id] == db.memories[id])
            && t.operations == db.operations
            && (id in db.memories && Recallable(db.memories[id], now) ==>
                  id in t.memories && t.memories[id] == db.memories[id])
  {
    assert db.memories.Keys - Purge(db, victims).memories.Keys == victims;
    if |Eligible(db, now)| <= batch { SameSizeSameSet(victims, Eligible(db, now)); }
  }

  /** The row was forgotten, or its time has come. */
  predicate Expendable(r: Record, now: int) {
    r.status == Deleted || match r.expiresAt case Some(t) => t <= now case None => false
  }

  lemma SameSizeSameSet<T>(a: set<T>, b: set<T>)
    requires a <= b && |a| == |b|
    ensures a == b
  {
    assert b == a + (b - a);
  }

  lemma PurgeLeaves(db: Db, now: int, victims: set<string>)
    requires victims <= Eligible(db, now)
    ensures Eligible(Purge(db, victims), now) == Eligible(db, now) - victims
    ensures |Eligible(Purge(db, victims), now)| == |Eligible(db, now)| - |victims|
  {
    assert Eligible(db, now) == (Eligible(db, now) - victims) + victims;
  }

  /** Calls at one time, with the rows that each one picked. */
  ghost predicate VacuumRun(db: Db, batch: nat, now: int, picks: seq<set<string>>)
    decreases |picks|
  {
    picks == [] || (VacuumPick(db, batch, now, picks[0]) && VacuumRun(Purge(db, picks[0]), batch, now, picks[1..]))
  }

  function PurgedBy(db: Db, picks: seq<set<string>>): Db
    decreases |picks|
  {
    if picks == [] then db else PurgedBy(Purge(db, picks[0]), picks[1..])
  }

  /** What k + 1 calls leave is what k calls leave of what the first one left. */
  lemma Remaining(n: nat, batch: nat, k: nat)
    ensures var m := n - (if batch < n then batch else n);
            (if k * batch < m then m - k * batch else 0) ==
            (if (k + 1) * batch < n then n - (k + 1) * batch else 0)
  {
    var p := k * batch;
    assert (k + 1) * batch == p + batch;
  }

  /** After n calls all but n * batch of the eligible rows are left, if there were that many. */
  lemma {:induction false} EligibleLeft(db: Db, batch: nat, now: int, picks: seq<set<string>>)
    requires VacuumRun(db, batch, now, picks)
    ensures var n, left := |Eligible(db, now)|, |Eligible(PurgedBy(db, picks), now)|;
            left == if |picks| * batch < n then n - |picks| * batch else 0
    decreases |picks|
  {
    if picks == [] {
    } else {
      hide Eligible, Purge;
      var n, next := |Eligible(db, now)|, Purge(db, picks[0]);
      PurgeLeaves(db, now, picks[0]);
      EligibleLeft(next, batch, now, picks[1..]);
      Remaining(n, batch, |picks| - 1);
    }
  }

  /** The vacuum is resumable: with time fixed, call number k (from zero) purges something exactly if k is less
      than the number of eligible rows divided by the batch size, rounded up. */
  lemma VacuumTerminates(db: Db, batch: nat, now: int, picks: seq<set<string>>, next: set<string>)
    requires batch > 0 && VacuumRun(db, batch, now, picks)
    requires VacuumPick(PurgedBy(db, picks), batch, now, next)
    ensures next != {} <==> |picks| < (|Eligible(db, now)| + batch - 1) / batch
  {
    hide Eligible;
    EligibleLeft(db, batch, now, picks);
    var n, k := |Eligible(db, now)|, |picks|;
    var m := (n + batch - 1) / batch;
    assert next != {} <==> k * batch < n;
    CeilingDivision(n, batch, k);
  }

  lemma CeilingDivision(n: nat, b: nat, k: nat)
    requires b > 0
    ensures k * b < n <==> k < (n + b - 1) / b
  {
    var m := (n + b - 1) / b;
    assert m * b <= n + b - 1 < m * b + b;
    if k < m {
      assert (k + 1) * b <= m * b;
    } else {
      assert k * b >= m * b;
    }
  }
}
