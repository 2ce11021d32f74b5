/** The order of the effects: what is true between two effects of an operation, and what a cut there costs. */
module Moments {
  import opened Options
  import opened Repository
  import opened Adapter
  import opened Journal
  import opened Recovery
  import opened Visibility
  import opened Runs

  /** If the row is Active, a search can find it by its embedding. */
  predicate Shows(w: World, id: string) {
    id in ActiveEmbeddings(w.db) ==> id in w.index && w.index[id] == w.db.memories[id].embedding
  }

  /** If the index holds the id, its row is Active, or the operation under way names it. */
  predicate Owned(w: World, id: string, ids: seq<string>) {
    id in w.index ==> id in ActiveEmbeddings(w.db) || id in ids
  }

  // ---- remembering ----

  /** The tables after k effects of an accepted batch. */
  function RememberedSoFar(t: Db, records: seq<Record>, ops: seq<Option<string>>, k: nat): Db {
    if k < 3 then t
    else if k == 3 then SetStatus(t, RowIds(records), Active)
    else MarkApplied(SetStatus(t, RowIds(records), Active), Present(ops))
  }

  /** The worlds between the effects of a batch. */
  lemma RememberWorlds(w: World, records: seq<Record>, ops: seq<Option<string>>, k: nat, dims: nat)
    requires |records| == |ops| && records != [] && NewRows(records, dims)
    requires k <= |RememberBatchEffects(records, ops)|
    ensures var x := Run(w, RememberBatchEffects(records, ops)[..k], dims).world;
            var t := InsertPending(w.db, records, ops);
            && (t.RolledBack? || k == 0 ==> x == w)
            && (t.Committed? && k > 0 ==>
                  && x.db == RememberedSoFar(t.db, records, ops, k)
                  && if k == 1 then x.index == w.index else Upserted(w.index, ItemsOf(records), x.index))
  {
    hide Upserted, ItemsOf, RowIds, Present, InsertPending, StoppingBatch, RightDims, SetStatus, MarkApplied;
    var effects := RememberBatchEffects(records, ops);
    var a, b, c := TxInsert(records, ops), IndexUpsert(ItemsOf(records)), TxActivate(RowIds(records));
    assert effects == [a, b, c] + ApplyEffects(ops);
    assert effects[..k] == if k == 0 then [] else if k == 1 then [a] else if k == 2 then [a, b]
                           else if k == 3 then [a, b, c] else [a, b, c] + [TxApply(Present(ops))];
    ShortRuns(w, a, b, c, dims);
    RunSplit(w, [a, b, c], [TxApply(Present(ops))], dims);
    if InsertPending(w.db, records, ops).Committed? {
      var t := InsertPending(w.db, records, ops).db;
      BatchFits(w.db, records, ops, dims);
      DistinctBatch(w.index, ItemsOf(records), dims);
      var index1 := StoppingBatch(w.index, ItemsOf(records), dims);
      ShortRuns(World(t, w.index), b, c, c, dims);
      RunOne(World(SetStatus(t, RowIds(records), Active), index1), TxApply(Present(ops)), dims);
    }
  }

  /** Between any two effects of a remember every Active row can be found, and the index holds nothing else but
      rows of the batch: the vector goes in before the row becomes Active. */
  lemma RememberMoment(w: World, records: seq<Record>, ops: seq<Option<string>>, k: nat, id: string, dims: nat)
    requires |records| == |ops| && records != [] && NewRows(records, dims) && Visible(w)
    requires k <= |RememberBatchEffects(records, ops)|
    ensures var x := Run(w, RememberBatchEffects(records, ops)[..k], dims).world;
            Shows(x, id) && Owned(x, id, RowIds(records))
  {
    var x := Run(w, RememberBatchEffects(records, ops)[..k], dims).world;
    hide RememberBatchEffects, Run;
    RememberWorlds(w, records, ops, k, dims);
    var tx := InsertPending(w.db, records, ops);
    if tx.Committed? && k > 0 {
      hide InsertPending;
      InsertedBatch(w.db, records, ops);
      MarksKeepRows(SetStatus(tx.db, RowIds(records), Active), Present(ops));
      RememberMomentAt(w, tx.db, x, records, k, id);
    }
  }

  lemma RememberMomentAt(w: World, t: Db, x: World, records: seq<Record>, k: nat, id: string)
    requires RowsInserted(w.db, records, t) && Visible(w)
    requires forall i :: 0 <= i < |records| ==> records[i].status == Pending
    requires x.db.memories == (if k < 3 then t else SetStatus(t, RowIds(records), Active)).memories
    requires if k == 1 then x.index == w.index else Upserted(w.index, ItemsOf(records), x.index)
    ensures Shows(x, id) && Owned(x, id, RowIds(records))
  {
    RowIdsAreItemIds(records, id);
    if id in RowIds(records) {
      hide IdsIn;
      var i :| 0 <= i < |records| && records[i].id == id;
      assert ItemsOf(records)[i] == (id, records[i].embedding);
    } else {
      hide RowIds, ItemsOf, IdsIn;
      assert id in t.memories <==> id in w.db.memories;
    }
  }

  /** What a recovery makes of a row whose remember was cut after k effects: before the insertion there is none;
      after the activation it is Active; in between it becomes Active exactly if its operation was journaled. */
  lemma CutRememberRecovers(w: World, records: seq<Record>, ops: seq<Option<string>>, k: nat, i: nat, dims: nat)
    requires |records| == |ops| && records != [] && NewRows(records, dims)
    requires k <= |RememberBatchEffects(records, ops)| && i < |records|
    requires InsertPending(w.db, records, ops).Committed? && !Promised(w.db, records[i].id)
    ensures var t := Recovered(Run(w, RememberBatchEffects(records, ops)[..k], dims).world.db);
            && (records[i].id in t.memories <==> k > 0)
            && (k > 0 ==> t.memories[records[i].id] ==
                            records[i].(status := if k >= 3 || ops[i].Some? then Active else Pending))
  {
    var x := Run(w, RememberBatchEffects(records, ops)[..k], dims).world;
    hide RememberBatchEffects, Run;
    RememberWorlds(w, records, ops, k, dims);
    hide Upserted;
    InsertedBatch(w.db, records, ops);
    var t := InsertPending(w.db, records, ops).db;
    if 0 < k < 3 {
      NewPromise(w.db, records, ops, i);
    } else if k >= 3 {
      hide InsertPending, Promised;
      RowIdsAreItemIds(records, records[i].id);
      MarksKeepRows(SetStatus(t, RowIds(records), Active), Present(ops));
    }
  }

  /** A new row is promised exactly if it came with an operation id. */
  lemma NewPromise(db: Db, records: seq<Record>, ops: seq<Option<string>>, i: nat)
    requires |records| == |ops| && i < |records| && InsertPending(db, records, ops).Committed?
    requires !Promised(db, records[i].id)
    ensures Promised(InsertPending(db, records, ops).db, records[i].id) <==> ops[i].Some?
  {
    hide InsertPending;
    InsertedBatch(db, records, ops);
    var t := InsertPending(db, records, ops).db;
    if ops[i].Some? {
      assert ops[i].value in t.operations;
    } else if Promised(t, records[i].id) {
      var o :| o in t.operations && !t.operations[o].applied && t.operations[o].kind != OpKind.Delete &&
               t.operations[o].memoryId == records[i].id;
      assert o !in db.operations;
      var j :| 0 <= j < |ops| && ops[j] == Some(o);
      if i < j { BatchKeysDistinct(db, records, ops, i, j); } else { BatchKeysDistinct(db, records, ops, j, i); }
    }
  }

  // ---- updating ----

  /** The worlds between the effects of an update that is not a retry. */
  lemma UpdateWorlds(w: World, r: Record, expected: nat, op: Option<string>, k: nat, dims: nat)
    requires |r.embedding| == dims && JournaledId(w.db, op) != Some(r.id)
    requires k <= |UpdateEffects(w.db, r, expected, op)|
    ensures var x := Run(w, UpdateEffects(w.db, r, expected, op)[..k], dims).world;
            var t := UpdateMemory(w.db, r, expected, op);
            && (t.RolledBack? || k == 0 ==> x == w)
            && (t.Committed? && k > 0 ==>
                  && x.db == (if k < 3 then t.db else MarkApplied(t.db, Present([op])))
                  && x.index == if k == 1 then w.index else w.index[r.id := r.embedding])
  {
    hide Present, UpdateMemory, StoppingBatch, RightDims, MarkApplied;
    var effects := UpdateEffects(w.db, r, expected, op);
    var a, b, c := TxUpdate(r, expected, op), IndexUpsert(ItemsOf([r])), TxApply(Present([op]));
    assert effects == [a, b] + ApplyEffects([op]);
    assert effects[..k] == if k == 0 then [] else if k == 1 then [a] else if k == 2 then [a, b] else [a, b, c];
    ShortRuns(w, a, b, c, dims);
    OneItem(w.index, r, dims);
    if UpdateMemory(w.db, r, expected, op).Committed? {
      ShortRuns(World(UpdateMemory(w.db, r, expected, op).db, w.index), b, c, c, dims);
    }
  }

  /** Between any two effects of an update every Active row but the updated one can be found by its embedding, and
      the index holds Active rows only. */
  lemma UpdateMoment(w: World, r: Record, expected: nat, op: Option<string>, k: nat, id: string, dims: nat)
    requires Visible(w) && r.status == Active && |r.embedding| == dims && JournaledId(w.db, op) != Some(r.id)
    requires k <= |UpdateEffects(w.db, r, expected, op)|
    ensures var x := Run(w, UpdateEffects(w.db, r, expected, op)[..k], dims).world;
            (id != r.id || k != 1 ==> Shows(x, id)) && Owned(x, id, [])
  {
    UpdateWorlds(w, r, expected, op, k, dims);
    hide UpdateEffects, Run;
    if UpdateMemory(w.db, r, expected, op).Committed? && k > 0 {
      UpdatedRow(w.db, r, expected, op);
      MarksKeepRows(UpdateMemory(w.db, r, expected, op).db, Present([op]));
      hide UpdateMemory, MarkApplied, Present;
    }
  }

  /** Cut anywhere after its transaction, the update is in force after a recovery and its operation is applied. */
  lemma CutUpdateRecovers(w: World, r: Record, expected: nat, op: Option<string>, k: nat, dims: nat)
    requires r.status == Active && |r.embedding| == dims && JournaledId(w.db, op) != Some(r.id)
    requires 0 < k <= |UpdateEffects(w.db, r, expected, op)| && UpdateMemory(w.db, r, expected, op).Committed?
    ensures var t := Recovered(Run(w, UpdateEffects(w.db, r, expected, op)[..k], dims).world.db);
            && r.id in t.memories && t.memories[r.id] == Overwrite(w.db.memories[r.id], r, expected + 1)
            && (op.Some? ==> op.value in t.operations && t.operations[op.value] == Operation(r.id, OpKind.Update, true))
  {
    var x := Run(w, UpdateEffects(w.db, r, expected, op)[..k], dims).world;
    UpdateWorlds(w, r, expected, op, k, dims);
    hide UpdateEffects, Run;
    UpdatedRow(w.db, r, expected, op);
    UpdateIsJournaled(w.db, r, expected, op);
    MarksKeepRows(UpdateMemory(w.db, r, expected, op).db, Present([op]));
    hide UpdateMemory;
    if op.Some? { PresentHolds([op], op.value); }
  }

  // ---- forgetting and vacuum ----

  /** Between the two effects of a forget in its rows' scope every Active row can be found, and the index holds
      nothing else but rows being forgotten: the row is tombstoned before its vector goes. */
  lemma ForgetMoment(w: World, scope: Scope, ids: seq<string>, ops: seq<Option<string>>, k: nat, id: string, dims: nat)
    requires |ids| == |ops| && Visible(w) && Hides(w.db, scope, ids) && k <= |ForgetEffects(scope, ids, ops)|
    ensures var x := Run(w, ForgetEffects(scope, ids, ops)[..k], dims).world;
            Shows(x, id) && Owned(x, id, ids)
  {
    VisibleMoment(w, id, ids);
    hide DeleteMemory, IdSet, ActiveEmbeddings, Hides, Tombstoned;
    var effects := ForgetEffects(scope, ids, ops);
    var a, b := TxDelete(scope, ids, ops), IndexRemove(ids);
    assert effects[..k] == if k == 0 then [] else if k == 1 then [a] else [a, b];
    ShortRuns(w, a, b, b, dims);
    if k > 0 && DeleteMemory(w.db, scope, ids, ops).Committed? {
      DeletedRows(w.db, scope, ids, ops);
      TombstonedMoment(w, DeleteMemory(w.db, scope, ids, ops).db, scope, ids, id);
    }
  }

  lemma VisibleMoment(w: World, id: string, ids: seq<string>)
    requires Visible(w)
    ensures Shows(w, id) && Owned(w, id, ids)
  {
  }

  lemma TombstonedMoment(w: World, t: Db, scope: Scope, ids: seq<string>, id: string)
    requires Visible(w) && Hides(w.db, scope, ids) && t.memories == Tombstoned(w.db, scope, ids)
    ensures Shows(World(t, w.index), id) && Owned(World(t, w.index), id, ids)
    ensures Shows(World(t, w.index - IdSet(ids)), id) && Owned(World(t, w.index - IdSet(ids)), id, ids)
  {
    assert id in ids ==> id !in ActiveEmbeddings(t);
  }

  /** Between the two effects of a vacuum every Active row can be found, and the index holds nothing else but rows
      that were purged. */
  lemma VacuumMoment(w: World, batch: nat, victims: set<string>, k: nat, id: string, dims: nat)
    requires Visible(w) && RightRows(w.db, dims) && k <= |VacuumEffects(batch, victims)|
    ensures var x := Run(w, VacuumEffects(batch, victims)[..k], dims).world;
            && Shows(x, id) && (id in x.index ==> id in ActiveEmbeddings(x.db) || id in victims)
            && (k == 2 ==> Visible(x))
  {
    var effects := VacuumEffects(batch, victims);
    VisibleMoment(w, id, []);
    hide ActiveEmbeddings, Fitting;
    assert effects[..k] == if k == 0 then [] else if k == 1 then [TxPurge(victims)]
                           else [TxPurge(victims), IndexRebuild];
    ShortRuns(w, TxPurge(victims), IndexRebuild, IndexRebuild, dims);
    PurgedMoment(w, victims, id, dims);
  }

  lemma PurgedMoment(w: World, victims: set<string>, id: string, dims: nat)
    requires Visible(w) && RightRows(w.db, dims)
    ensures var t := Purge(w.db, victims);
            && Shows(World(t, w.index), id) && (id in w.index ==> id in ActiveEmbeddings(t) || id in victims)
            && Fitting(ActiveEmbeddings(t), dims) == ActiveEmbeddings(t)
            && Shows(World(t, ActiveEmbeddings(t)), id)
  {
  }

  // ---- rows that no recovery will activate ----

  /** The row is Pending and no unapplied operation names it: only an update, a forget or the vacuum will ever
      change it. */
  ghost predicate Stranded(db: Db, id: string) {
    id in db.memories && db.memories[id].status == Pending && !Promised(db, id)
  }

  /** Those are the rows still Pending after a recovery. */
  lemma StrandedStaysPending(db: Db, id: string)
    ensures Stranded(db, id) <==> id in Recovered(db).memories && Recovered(db).memories[id].status == Pending
  {
    hide Promised;
  }

  /** The request brings the row without an operation id. */
  predicate Anonymous(req: Request, id: string) {
    match req
    case RememberOne(r, op) => r.id == id && op.None?
    case RememberMany(records, ops) =>
      exists i :: 0 <= i < |records| && i < |ops| && records[i].id == id && ops[i].None?
    case Revise(r, e, op) => false
    case Forget(s, ids, ops) => false
    case Vacuum(b, n, v) => false
    case Reindex => false
  }

  /** Promises stand as long as the journal only grows. */
  lemma PromiseStands(db: Db, t: Db, id: string)
    requires forall o :: o in db.operations ==> o in t.operations && t.operations[o] == db.operations[o]
    ensures Promised(db, id) ==> Promised(t, id)
  {
    if Promised(db, id) {
      var o :| o in db.operations && !db.operations[o].applied && db.operations[o].kind != OpKind.Delete &&
               db.operations[o].memoryId == id;
      assert o in t.operations && t.operations[o] == db.operations[o];
    }
  }

  /** An insertion strands only what it brings without an operation id. */
  lemma InsertStrands(db: Db, records: seq<Record>, ops: seq<Option<string>>, id: string)
    requires |records| == |ops| && InsertPending(db, records, ops).Committed?
    requires Stranded(InsertPending(db, records, ops).db, id)
    ensures Stranded(db, id) || exists i :: 0 <= i < |records| && records[i].id == id && ops[i].None?
  {
    hide InsertPending;
    InsertedBatch(db, records, ops);
    var t := InsertPending(db, records, ops).db;
    if id in db.memories {
      hide Promised;
      PromiseStands(db, t, id);
    } else {
      var i :| 0 <= i < |records| && records[i].id == id;
    }
  }

  /** Activation strands nothing and frees the rows it names. */
  lemma ActivationFrees(db: Db, ids: seq<string>, id: string)
    requires Stranded(SetStatus(db, ids, Active), id)
    ensures Stranded(db, id) && id !in ids
  {
    SamePromises(db, SetStatus(db, ids, Active), id);
    hide Promised;
  }

  /** A mark strands nothing if the rows of the marked operations are no longer Pending. */
  lemma MarkStrandsNothing(db: Db, ops: seq<string>, id: string)
    requires forall o :: o in ops && o in db.operations && db.operations[o].memoryId in db.memories ==>
               db.memories[db.operations[o].memoryId].status != Pending
    requires Stranded(MarkApplied(db, ops), id)
    ensures Stranded(db, id)
  {
    MarkKeepsPromise(db, ops, id);
    hide Promised;
  }

  lemma MarkKeepsPromise(db: Db, ops: seq<string>, id: string)
    requires forall o :: o in ops && o in db.operations && db.operations[o].memoryId in db.memories ==>
               db.memories[db.operations[o].memoryId].status != Pending
    requires id in db.memories && db.memories[id].status == Pending
    ensures Promised(db, id) ==> Promised(MarkApplied(db, ops), id)
  {
    var t := MarkApplied(db, ops);
    if Promised(db, id) {
      var o :| o in db.operations && !db.operations[o].applied && db.operations[o].kind != OpKind.Delete &&
               db.operations[o].memoryId == id;
      assert o in t.operations && t.operations[o] == db.operations[o];
    }
  }

  /** When a batch is marked its rows are Active. */
  lemma MarkedAreActive(db: Db, records: seq<Record>, ops: seq<Option<string>>)
    requires |records| == |ops| && InsertPending(db, records, ops).Committed?
    ensures var u := SetStatus(InsertPending(db, records, ops).db, RowIds(records), Active);
            forall o :: o in Present(ops) && o in u.operations && u.operations[o].memoryId in u.memories ==>
              u.memories[u.operations[o].memoryId].status != Pending
  {
    hide InsertPending;
    InsertedBatch(db, records, ops);
    var u := SetStatus(InsertPending(db, records, ops).db, RowIds(records), Active);
    forall o | o in Present(ops) && o in u.operations && u.operations[o].memoryId in u.memories
      ensures u.memories[u.operations[o].memoryId].status != Pending
    {
      PresentHolds(ops, o);
      var i :| 0 <= i < |ops| && ops[i] == Some(o);
      RowIdsAreItemIds(records, records[i].id);
    }
  }

  lemma RememberStrands(w: World, records: seq<Record>, ops: seq<Option<string>>, k: nat, id: string, dims: nat)
    requires |records| == |ops| && records != [] && NewRows(records, dims)
    requires k <= |RememberBatchEffects(records, ops)|
    requires Stranded(Run(w, RememberBatchEffects(records, ops)[..k], dims).world.db, id)
    ensures Stranded(w.db, id) ||
            (0 < k < 3 && exists i :: 0 <= i < |records| && records[i].id == id && ops[i].None?)
  {
    RememberWorlds(w, records, ops, k, dims);
    hide RememberBatchEffects, Run, Upserted, Stranded;
    var tx := InsertPending(w.db, records, ops);
    if tx.Committed? && k > 0 {
      hide InsertPending, RowIds, Present, SetStatus, MarkApplied;
      var u := SetStatus(tx.db, RowIds(records), Active);
      if k > 3 {
        MarkedAreActive(w.db, records, ops);
        MarkStrandsNothing(u, Present(ops), id);
      }
      if k >= 3 { ActivationFrees(tx.db, RowIds(records), id); }
      InsertStrands(w.db, records, ops, id);
      if k >= 3 { RowIdsAreItemIds(records, id); }
    }
  }

  lemma PresentIsIt(op: Option<string>)
    ensures forall o :: o in Present([op]) ==> op == Some(o)
  {
    forall o | o in Present([op]) ensures op == Some(o) {
      PresentHolds([op], o);
    }
  }

  lemma UpdateStrands(w: World, r: Record, expected: nat, op: Option<string>, k: nat, id: string, dims: nat)
    requires r.status == Active && |r.embedding| == dims && k <= |UpdateEffects(w.db, r, expected, op)|
    requires Stranded(Run(w, UpdateEffects(w.db, r, expected, op)[..k], dims).world.db, id)
    ensures Stranded(w.db, id)
  {
    if JournaledId(w.db, op) != Some(r.id) {
      UpdateWorlds(w, r, expected, op, k, dims);
      hide UpdateEffects, Run;
      if UpdateMemory(w.db, r, expected, op).Committed? && k > 0 {
        UpdatedRow(w.db, r, expected, op);
        UpdateIsJournaled(w.db, r, expected, op);
        var t := UpdateMemory(w.db, r, expected, op).db;
        hide UpdateMemory;
        if k >= 3 {
          PresentIsIt(op);
          MarkStrandsNothing(t, Present([op]), id);
        }
        MoreEntriesFree(w.db, t, id);
      }
    }
  }

  /** More entries in the journal, and no row made Pending. */
  lemma MoreEntriesFree(db: Db, t: Db, id: string)
    requires Stranded(t, id) && id in db.memories
    requires t.memories[id] == db.memories[id] || t.memories[id].status != Pending
    requires forall o :: o in db.operations ==> o in t.operations && t.operations[o] == db.operations[o]
    ensures Stranded(db, id)
  {
    PromiseStands(db, t, id);
    hide Promised;
  }

  // ---- over whole runs ----

  lemma ForgetStrands(w: World, scope: Scope, ids: seq<string>, ops: seq<Option<string>>, k: nat, id: string,
                      dims: nat)
    requires |ids| == |ops| && k <= |ForgetEffects(scope, ids, ops)|
    requires Stranded(Run(w, ForgetEffects(scope, ids, ops)[..k], dims).world.db, id)
    ensures Stranded(w.db, id)
  {
    hide DeleteMemory, Stranded;
    var effects := ForgetEffects(scope, ids, ops);
    var a, b := TxDelete(scope, ids, ops), IndexRemove(ids);
    assert effects[..k] == if k == 0 then [] else if k == 1 then [a] else [a, b];
    ShortRuns(w, a, b, b, dims);
    if k > 0 && DeleteMemory(w.db, scope, ids, ops).Committed? {
      ForgetStrandsNothing(w.db, scope, ids, ops, id);
    }
  }

  lemma ForgetStrandsNothing(db: Db, scope: Scope, ids: seq<string>, ops: seq<Option<string>>, id: string)
    requires |ids| == |ops| && DeleteMemory(db, scope, ids, ops).Committed?
    requires Stranded(DeleteMemory(db, scope, ids, ops).db, id)
    ensures Stranded(db, id)
  {
    hide DeleteMemory, Promised;
    DeletedRows(db, scope, ids, ops);
    MoreEntriesFree(db, DeleteMemory(db, scope, ids, ops).db, id);
  }

  lemma VacuumStrands(w: World, batch: nat, victims: set<string>, k: nat, id: string, dims: nat)
    requires k <= |VacuumEffects(batch, victims)|
    requires Stranded(Run(w, VacuumEffects(batch, victims)[..k], dims).world.db, id)
    ensures Stranded(w.db, id)
  {
    var effects := VacuumEffects(batch, victims);
    var t := Purge(w.db, victims);
    assert effects[..k] == if k == 0 then [] else if k == 1 then [TxPurge(victims)]
                           else [TxPurge(victims), IndexRebuild];
    ShortRuns(w, TxPurge(victims), IndexRebuild, IndexRebuild, dims);
    if k > 0 {
      hide Promised;
      SamePromises(w.db, t, id);
    }
  }

  lemma ReindexStrands(w: World, k: nat, id: string, dims: nat)
    requires k <= 1 && Stranded(Run(w, [IndexRebuild][..k], dims).world.db, id)
    ensures Stranded(w.db, id)
  {
    assert [IndexRebuild][..k] == if k == 0 then [] else [IndexRebuild];
    ShortRuns(w, IndexRebuild, IndexRebuild, IndexRebuild, dims);
  }

  /** k effects of a request strand a row only if they include its insertion and not its activation, and it came
      without an operation id. */
  lemma RequestStrands(w: World, req: Request, used: set<string>, k: nat, id: string, dims: nat)
    requires RequestMayHappen(w.db, req, used, dims) && k <= |EffectsOf(w.db, req)|
    requires Stranded(Run(w, EffectsOf(w.db, req)[..k], dims).world.db, id)
    ensures Stranded(w.db, id) || (k < |EffectsOf(w.db, req)| && Anonymous(req, id))
  {
    hide RememberBatchEffects, UpdateEffects, ForgetEffects, VacuumEffects, Run, Stranded, VacuumPick;
    match req {
      case RememberOne(r, op) =>
        if JournaledId(w.db, op).Some? {
          ShortRuns(w, IndexRebuild, IndexRebuild, IndexRebuild, dims);
        } else {
          AtLeastThree([r], [op]);
          RememberStrands(w, [r], [op], k, id, dims);
        }
      case RememberMany(records, ops) =>
        if records == [] {
          NoRecords(ops);
          ShortRuns(w, IndexRebuild, IndexRebuild, IndexRebuild, dims);
        } else {
          AtLeastThree(records, ops);
          RememberStrands(w, records, ops, k, id, dims);
        }
      case Revise(r, expected, op) => UpdateStrands(w, r, expected, op, k, id, dims);
      case Forget(scope, ids, ops) => ForgetStrands(w, scope, ids, ops, k, id, dims);
      case Vacuum(batch, now, victims) => VacuumStrands(w, batch, victims, k, id, dims);
      case Reindex => ReindexStrands(w, k, id, dims);
    }
  }

  lemma NoRecords(ops: seq<Option<string>>)
    ensures RememberBatchEffects([], ops) == []
  {
  }

  lemma AtLeastThree(records: seq<Record>, ops: seq<Option<string>>)
    requires records != []
    ensures |RememberBatchEffects(records, ops)| >= 3
  {
  }

  /** The event is a request that was cut, and it brought the row without an operation id. */
  predicate CutsAnonymous(ev: Event, id: string) {
    ev.Cut? && Anonymous(ev.request, id)
  }

  lemma EventStrands(w: World, ev: Event, used: set<string>, id: string, dims: nat)
    requires MayHappen(w, ev, used, dims) && Stranded(Next(w, ev, used, dims).db, id)
    ensures Stranded(w.db, id) || CutsAnonymous(ev, id)
  {
    hide EffectsOf, RecoverAll, RecoverCut, Run, Lists, Stranded, RequestMayHappen, Recovered, Anonymous;
    if ev.Startup? || ev.StartupCut? {
      StartupHeadsForTarget(w, ev, used, dims);
      StrandedStaysPending(w.db, id);
      StrandedStaysPending(Next(w, ev, used, dims).db, id);
    } else {
      var effects := EffectsOf(w.db, ev.request);
      assert effects[..|effects|] == effects;
      RequestStrands(w, ev.request, used, if ev.Complete? then |effects| else ev.after, id, dims);
    }
  }

  /** In every run with crashes, index errors and recoveries anywhere, a row is beyond recovery only if it was so at
      the start or its remember had no operation id and was cut. */
  lemma {:induction false} OnlyAnonymousRowsStrand(w: World, used: set<string>, run: seq<Event>, id: string, dims: nat)
    requires IsRun(w, used, run, dims) && Stranded(After(w, used, run, dims).db, id)
    ensures Stranded(w.db, id) || exists j :: 0 <= j < |run| && CutsAnonymous(run[j], id)
    decreases |run|
  {
    if run == [] {
    } else {
      hide Stranded, MayHappen, Next, CutsAnonymous;
      var next := Next(w, run[0], used, dims);
      OnlyAnonymousRowsStrand(next, used + Spent(run[0]), run[1..], id, dims);
      if Stranded(next.db, id) {
        EventStrands(w, run[0], used, id, dims);
      } else {
        var j :| 0 <= j < |run[1..]| && CutsAnonymous(run[1..][j], id);
        assert run[j + 1] == run[1..][j];
      }
    }
  }

  /** So if clients name every operation, the startup after any run leaves no row Pending. */
  lemma NamedRowsAreNeverLost(w: World, used: set<string>, run: seq<Event>, ops: seq<string>, id: string, dims: nat)
    requires IsRun(w, used, run, dims) && Sound(w.db, used, dims) && Lists(After(w, used, run, dims).db, ops)
    requires !Stranded(w.db, id) && forall j :: 0 <= j < |run| ==> !CutsAnonymous(run[j], id)
    ensures var s := RecoverAll(After(w, used, run, dims), ops, dims);
            s.Done? && (id in s.world.db.memories ==> s.world.db.memories[id].status != Pending)
  {
    var cut := After(w, used, run, dims);
    hide IsRun, After, Lists, Stranded, CutsAnonymous, Recovered;
    StartupAfterAnyRun(w, used, run, ops, dims);
    StrandedStaysPending(cut.db, id);
    if Stranded(cut.db, id) { OnlyAnonymousRowsStrand(w, used, run, id, dims); }
  }
}
