/** Completed operations keep the index equal to the Active rows. */
module Visibility {
  import opened Options
  import opened Repository
  import opened Adapter
  import opened Journal

  /** The rows a remember request hands to the journal. */
  ghost predicate NewRows(records: seq<Record>, dims: nat) {
    forall i :: 0 <= i < |records| ==>
      records[i].status == Pending && records[i].revision == 1 && |records[i].embedding| == dims
  }

  // ---- remembering ----

  /** The index after upserting items with distinct ids. */
  ghost predicate Upserted(index: Vectors, items: seq<(string, seq<real>)>, t: Vectors) {
    && (forall id :: id in t <==> id in index || id in IdsIn(items))
    && (forall i :: 0 <= i < |items| ==> items[i].0 in t && t[items[i].0] == items[i].1)
    && forall id :: id in index && id !in IdsIn(items) ==> id in t && t[id] == index[id]
  }

  lemma {:induction false} DistinctBatch(model: Vectors, items: seq<(string, seq<real>)>, dims: nat)
    requires RightDims(items, dims)
    requires forall i, j :: 0 <= i < j < |items| ==> items[i].0 != items[j].0
    ensures Upserted(model, items, StoppingBatch(model, items, dims))
    decreases |items|
  {
    if items == [] {
    } else {
      var first, rest := items[0], items[1..];
      assert items == [first] + rest;
      DistinctBatch(model[first.0 := first.1], rest, dims);
      assert IdsIn(items) == {first.0} + IdsIn(rest) by {
        assert forall i :: 0 <= i < |rest| ==> rest[i] == items[i + 1];
        assert forall i :: 1 <= i < |items| ==> items[i] == rest[i - 1];
      }
      assert first.0 !in IdsIn(rest);
      var t := StoppingBatch(model, items, dims);
      forall i | 0 <= i < |items| ensures items[i].0 in t && t[items[i].0] == items[i].1 {
        if i > 0 { assert items[i] == rest[i - 1]; }
      }
    }
  }

  lemma RowIdsAreItemIds(records: seq<Record>, id: string)
    ensures id in IdsIn(ItemsOf(records)) <==> id in RowIds(records)
    ensures id in RowIds(records) <==> exists i :: 0 <= i < |records| && records[i].id == id
  {
    if i :| 0 <= i < |records| && records[i].id == id {
      assert RowIds(records)[i] == id && ItemsOf(records)[i].0 == id;
    }
  }

  /** One id seen by both sides. */
  lemma GrownAt(db: Db, t: Db, index: Vectors, index1: Vectors, records: seq<Record>, id: string)
    requires RowsInserted(db, records, t) && index == ActiveEmbeddings(db) && Upserted(index, ItemsOf(records), index1)
    ensures var u := ActiveEmbeddings(SetStatus(t, RowIds(records), Active));
            (id in u <==> id in index1) && (id in u ==> u[id] == index1[id])
  {
    RowIdsAreItemIds(records, id);
    if id in RowIds(records) {
      hide IdsIn;
      var i :| 0 <= i < |records| && records[i].id == id;
      assert ItemsOf(records)[i] == (id, records[i].embedding);
    } else {
      hide RowIds, ItemsOf, IdsIn;
      assert id in t.memories <==> id in db.memories;
    }
  }

  /** A batch whose insertion commits: its rows are Active, the others as before, its operations applied. */
  ghost predicate Remembered(db: Db, records: seq<Record>, ops: seq<Option<string>>, u: Db)
    requires |records| == |ops|
  {
    var t := InsertPending(db, records, ops);
    t.Committed? && u == MarkApplied(SetStatus(t.db, RowIds(records), Active), Present(ops))
  }

  lemma NoMarks(db: Db)
    ensures MarkApplied(db, []) == db
  {
  }

  /** `coordinate_remember_batch`: the batch is rejected as a whole and nothing happens, or all of it happens
      and the index keeps up. */
  lemma RememberKeepsVisible(w: World, records: seq<Record>, ops: seq<Option<string>>, dims: nat)
    requires |records| == |ops| && records != [] && Visible(w) && NewRows(records, dims)
    ensures var s := Run(w, RememberBatchEffects(records, ops), dims);
            && (s.Done? <==> InsertPending(w.db, records, ops).Committed?)
            && (s.Failed? ==> s.world == w)
            && (s.Done? ==> Visible(s.world) && Remembered(w.db, records, ops, s.world.db))
  {
    hide RowsInserted, OpsInserted, Upserted, ItemsOf, RowIds, Present, InsertPending, StoppingBatch, RightDims,
         ActiveEmbeddings, SetStatus, MarkApplied;
    var items := ItemsOf(records);
    var a, b, c := TxInsert(records, ops), IndexUpsert(items), TxActivate(RowIds(records));
    RunSplit(w, [a, b, c], ApplyEffects(ops), dims);
    ShortRuns(w, a, b, c, dims);
    if InsertPending(w.db, records, ops).Committed? {
      var t := InsertPending(w.db, records, ops).db;
      BatchFits(w.db, records, ops, dims);
      DistinctBatch(w.index, items, dims);
      InsertedBatch(w.db, records, ops);
      var index1 := StoppingBatch(w.index, items, dims);
      var u := SetStatus(t, RowIds(records), Active);
      ShortRuns(World(t, w.index), b, c, c, dims);
      forall id
        ensures id in ActiveEmbeddings(u) <==> id in index1
        ensures id in index1 ==> ActiveEmbeddings(u)[id] == index1[id]
      {
        GrownAt(w.db, t, w.index, index1, records, id);
      }
      assert ActiveEmbeddings(u) == index1;
      MarksKeepRows(u, Present(ops));
      NoMarks(u);
      ShortRuns(World(u, index1), TxApply(Present(ops)), a, a, dims);
    }
  }

  lemma MarksKeepRows(db: Db, ops: seq<string>)
    ensures MarkApplied(db, ops).memories == db.memories
    ensures ActiveEmbeddings(MarkApplied(db, ops)) == ActiveEmbeddings(db)
  {
  }

  /** An accepted batch of new rows is accepted by the index as well. */
  lemma BatchFits(db: Db, records: seq<Record>, ops: seq<Option<string>>, dims: nat)
    requires |records| == |ops| && InsertPending(db, records, ops).Committed? && NewRows(records, dims)
    ensures RightDims(ItemsOf(records), dims)
    ensures forall i, j :: 0 <= i < j < |records| ==> ItemsOf(records)[i].0 != ItemsOf(records)[j].0
  {
    forall i, j | 0 <= i < j < |records| ensures ItemsOf(records)[i].0 != ItemsOf(records)[j].0 {
      BatchKeysDistinct(db, records, ops, i, j);
    }
  }

  /** What remembering leaves in the tables. */
  lemma RememberedRows(db: Db, records: seq<Record>, ops: seq<Option<string>>, u: Db, i: nat, id: string)
    requires |records| == |ops| && Remembered(db, records, ops, u) && i < |records|
    ensures records[i].id !in db.memories && records[i].id in u.memories
    ensures u.memories[records[i].id] == records[i].(status := Active)
    ensures id in db.memories ==> id in u.memories && u.memories[id] == db.memories[id]
    ensures ops[i].Some? ==> ops[i].value !in db.operations && ops[i].value in u.operations
                             && u.operations[ops[i].value] == Operation(records[i].id, OpKind.Remember, true)
  {
    InsertedBatch(db, records, ops);
    RowIdsAreItemIds(records, records[i].id);
    RowIdsAreItemIds(records, id);
    if ops[i].Some? { PresentHolds(ops, ops[i].value); }
  }

  lemma {:induction false} PresentHolds(ops: seq<Option<string>>, o: string)
    ensures o in Present(ops) <==> Some(o) in ops
  {
    if ops == [] {
    } else {
      assert ops == [ops[0]] + ops[1..];
      PresentHolds(ops[1..], o);
    }
  }

  // ---- updating ----

  /** `coordinate_update`: a rejected update changes nothing; a committed one keeps the index up to date. */
  lemma UpdateKeepsVisible(w: World, r: Record, expected: nat, op: Option<string>, dims: nat)
    requires Visible(w) && r.status == Active && |r.embedding| == dims
    ensures var s := Run(w, UpdateEffects(w.db, r, expected, op), dims);
            && (s.Done? <==> JournaledId(w.db, op) == Some(r.id) || UpdateMemory(w.db, r, expected, op).Committed?)
            && (s.Failed? || JournaledId(w.db, op) == Some(r.id) ==> s.world == w)
            && Visible(s.world)
            && (s.Done? && op.Some? && JournaledId(w.db, op).None? ==>
                  s.world.db.operations == w.db.operations[op.value := Operation(r.id, OpKind.Update, true)])
  {
    hide UpdateMemory, Present, StoppingBatch, RightDims, ActiveEmbeddings, MarkApplied;
    var effects := UpdateEffects(w.db, r, expected, op);
    if effects != [] {
      var a, b := TxUpdate(r, expected, op), IndexUpsert(ItemsOf([r]));
      RunSplit(w, [a, b], ApplyEffects([op]), dims);
      ShortRuns(w, a, b, b, dims);
      if UpdateMemory(w.db, r, expected, op).Committed? {
        var t := UpdateMemory(w.db, r, expected, op).db;
        UpdatedRow(w.db, r, expected, op);
        OneItem(w.index, r, dims);
        MarksKeepRows(t, Present([op]));
        ShortRuns(World(t, w.index[r.id := r.embedding]), TxApply(Present([op])), a, a, dims);
        if op.Some? {
          UpdateIsJournaled(w.db, r, expected, op);
          OnePresent(op.value);
          AppliesOne(t, w.db, op.value, Operation(r.id, OpKind.Update, false));
        }
      }
    }
  }

  lemma OnePresent(o: string)
    ensures Present([Some(o)]) == [o]
  {
    var ops := [Some(o)];
    assert ops[1..] == [];
  }

  lemma AppliesOne(t: Db, db: Db, o: string, entry: Operation)
    requires o !in db.operations && t.operations == db.operations[o := entry]
    ensures MarkApplied(t, [o]).operations == db.operations[o := entry.(applied := true)]
  {
  }

  /** When an update commits, and what it writes to the journal: its operation, unapplied, under the row's id. */
  lemma UpdateIsJournaled(db: Db, r: Record, expected: nat, op: Option<string>)
    ensures var tx := UpdateMemory(db, r, expected, op);
            && (tx.Committed? <==>
                  && r.id in db.memories && SameScope(db.memories[r.id].scope, r.scope)
                  && db.memories[r.id].status != Deleted && db.memories[r.id].revision == expected
                  && (op.Some? ==> op.value !in db.operations))
            && (tx.Committed? && op.None? ==> tx.db.operations == db.operations)
            && (tx.Committed? && op.Some? ==>
                  tx.db.operations == db.operations[op.value := Operation(r.id, OpKind.Update, false)])
            && (tx.RolledBack? ==> tx.error == if !InScope(db, r.scope, r.id) || db.memories[r.id].status == Deleted
                                               then NotFound
                                               else if db.memories[r.id].revision != expected then RevisionConflict
                                               else Constraint)
  {
  }

  lemma OneItem(index: Vectors, r: Record, dims: nat)
    requires |r.embedding| == dims
    ensures RightDims(ItemsOf([r]), dims) && StoppingBatch(index, ItemsOf([r]), dims) == index[r.id := r.embedding]
  {
    var items := ItemsOf([r]);
    assert items[0] == (r.id, r.embedding) && items[1..] == [];
  }

  /** A committed update: in scope, not deleted, at the expected revision; one row changes. */
  lemma UpdatedRow(db: Db, r: Record, expected: nat, op: Option<string>)
    requires UpdateMemory(db, r, expected, op).Committed?
    ensures InScope(db, r.scope, r.id) && db.memories[r.id].status != Deleted && db.memories[r.id].revision == expected
    ensures var t := UpdateMemory(db, r, expected, op).db;
            && t.memories == db.memories[r.id := Overwrite(db.memories[r.id], r, expected + 1)]
            && (r.status == Active ==> ActiveEmbeddings(t) == ActiveEmbeddings(db)[r.id := r.embedding])
  {
  }

  // ---- forgetting ----

  function Tombstoned(db: Db, scope: Scope, ids: seq<string>): map<string, Record> {
    map id | id in db.memories ::
      if id in ids && InScope(db, scope, id) then db.memories[id].(status := Deleted) else db.memories[id]
  }

  /** One name more in front. */
  lemma TombstonedStep(db: Db, db1: Db, scope: Scope, ids: seq<string>)
    requires ids != []
    requires db1.memories == if InScope(db, scope, ids[0])
                             then db.memories[ids[0] := db.memories[ids[0]].(status := Deleted)] else db.memories
    ensures Tombstoned(db1, scope, ids[1..]) == Tombstoned(db, scope, ids)
  {
    assert ids == [ids[0]] + ids[1..];
  }

  lemma {:induction false} DeletedRows(db: Db, scope: Scope, ids: seq<string>, ops: seq<Option<string>>)
    requires |ids| == |ops| && DeleteMemory(db, scope, ids, ops).Committed?
    ensures DeleteMemory(db, scope, ids, ops).db.memories == Tombstoned(db, scope, ids)
    ensures forall o :: o in db.operations ==>
              o in DeleteMemory(db, scope, ids, ops).db.operations &&
              DeleteMemory(db, scope, ids, ops).db.operations[o] == db.operations[o]
    decreases |ids|
  {
    if ids == [] {
      assert Tombstoned(db, scope, ids) == db.memories;
    } else {
      var id := ids[0];
      var db0 := if InScope(db, scope, id)
                 then db.(memories := db.memories[id := db.memories[id].(status := Deleted)]) else db;
      var db1 := Journaled(db0, ops[0], Operation(id, OpKind.Delete, true)).db;
      hide Tombstoned;
      DeletedRows(db1, scope, ids[1..], ops[1..]);
      TombstonedStep(db, db1, scope, ids);
    }
  }

  /** The journal entries of an accepted forget: every operation id given is new, given once, and recorded as the
      applied deletion of its row. */
  ghost predicate DeletionsJournaled(db: Db, ids: seq<string>, ops: seq<Option<string>>, t: Db)
    requires |ids| == |ops|
  {
    && (forall o :: o in db.operations ==> o in t.operations && t.operations[o] == db.operations[o])
    && (forall i :: 0 <= i < |ops| && ops[i].Some? ==>
          ops[i].value !in db.operations && ops[i].value in t.operations &&
          t.operations[ops[i].value] == Operation(ids[i], OpKind.Delete, true))
    && forall o :: o in t.operations ==> o in db.operations || Some(o) in ops
  }

  /** A forget commits exactly if its operation ids are fresh, and then journals them. */
  lemma {:induction false} DeletionIsJournaled(db: Db, scope: Scope, ids: seq<string>, ops: seq<Option<string>>)
    requires |ids| == |ops|
    ensures DeleteMemory(db, scope, ids, ops).Committed? <==> FreshOps(db, ops)
    ensures DeleteMemory(db, scope, ids, ops).Committed? ==>
              DeletionsJournaled(db, ids, ops, DeleteMemory(db, scope, ids, ops).db)
    decreases |ids|
  {
    if ids == [] {
    } else {
      var id := ids[0];
      var db0 := if InScope(db, scope, id)
                 then db.(memories := db.memories[id := db.memories[id].(status := Deleted)]) else db;
      var entry := Operation(id, OpKind.Delete, true);
      if ops[0].Some? && ops[0].value in db.operations {
        FirstFresh(db, ops);
      } else {
        var db1 := Journaled(db0, ops[0], entry).db;
        DeletionIsJournaled(db1, scope, ids[1..], ops[1..]);
        RestFresh(db, db1, ops, entry);
        if DeleteMemory(db1, scope, ids[1..], ops[1..]).Committed? {
          DeletionStep(db, db1, ids, ops, DeleteMemory(db1, scope, ids[1..], ops[1..]).db);
        }
      }
    }
  }

  lemma DeletionStep(db: Db, db1: Db, ids: seq<string>, ops: seq<Option<string>>, t: Db)
    requires |ids| == |ops| && ids != [] && (ops[0].Some? ==> ops[0].value !in db.operations)
    requires db1.operations == if ops[0].Some?
                               then db.operations[ops[0].value := Operation(ids[0], OpKind.Delete, true)]
                               else db.operations
    requires DeletionsJournaled(db1, ids[1..], ops[1..], t)
    ensures DeletionsJournaled(db, ids, ops, t)
  {
    forall i | 0 <= i < |ops| && ops[i].Some?
      ensures ops[i].value !in db.operations && ops[i].value in t.operations
      ensures t.operations[ops[i].value] == Operation(ids[i], OpKind.Delete, true)
    {
      if i > 0 { assert ops[1..][i - 1] == ops[i] && ids[1..][i - 1] == ids[i]; }
    }
    assert ops == [ops[0]] + ops[1..];
  }

  /** Forgetting hides every named row: it is in scope, or was not Active anyway. */
  predicate Hides(db: Db, scope: Scope, ids: seq<string>) {
    forall id :: id in ids && id in db.memories && db.memories[id].status == Active ==> InScope(db, scope, id)
  }

  /** `coordinate_forget(_batch)`: the index goes on agreeing with the rows exactly when every named row that is
      Active lies in the scope. */
  lemma ForgetKeepsVisible(w: World, scope: Scope, ids: seq<string>, ops: seq<Option<string>>, dims: nat)
    requires |ids| == |ops| && ids != [] && Visible(w)
    ensures var s := Run(w, ForgetEffects(scope, ids, ops), dims);
            && (s.Done? <==> DeleteMemory(w.db, scope, ids, ops).Committed?)
            && (s.Failed? ==> s.world == w)
            && (s.Done? <==> FreshOps(w.db, ops))
            && (s.Done? ==> s.world.db.memories == Tombstoned(w.db, scope, ids))
            && (s.Done? ==> DeletionsJournaled(w.db, ids, ops, s.world.db))
            && (s.Done? ==> (Visible(s.world) <==> Hides(w.db, scope, ids)))
  {
    hide DeleteMemory, IdSet, Tombstoned, ActiveEmbeddings, Hides, FreshOps, DeletionsJournaled;
    DeletionIsJournaled(w.db, scope, ids, ops);
    ShortRuns(w, TxDelete(scope, ids, ops), IndexRemove(ids), IndexRebuild, dims);
    if DeleteMemory(w.db, scope, ids, ops).Committed? {
      DeletedRows(w.db, scope, ids, ops);
      ForgottenAgrees(w.db, DeleteMemory(w.db, scope, ids, ops).db, scope, ids);
    }
  }

  lemma ForgottenAgrees(db: Db, t: Db, scope: Scope, ids: seq<string>)
    requires t.memories == Tombstoned(db, scope, ids)
    ensures ActiveEmbeddings(db) - IdSet(ids) == ActiveEmbeddings(t) <==> Hides(db, scope, ids)
  {
    forall id ensures id in IdSet(ids) <==> id in ids {
    }
    hide IdSet;
    if !Hides(db, scope, ids) {
      var id :| id in ids && id in db.memories && db.memories[id].status == Active && !InScope(db, scope, id);
      assert id in ActiveEmbeddings(t);
    } else {
      HiddenAgrees(db, t, scope, ids);
    }
  }

  lemma HiddenAgrees(db: Db, t: Db, scope: Scope, ids: seq<string>)
    requires t.memories == Tombstoned(db, scope, ids) && Hides(db, scope, ids)
    ensures ActiveEmbeddings(db) - IdSet(ids) == ActiveEmbeddings(t)
  {
    assert forall id :: id in IdSet(ids) <==> id in ids;
    hide IdSet;
  }

  /** With one tenant's id under another tenant's scope the row stays Active and leaves the index. */
  lemma ForeignForgetHidesAnActiveRow(w: World, scope: Scope, id: string, dims: nat)
    requires Visible(w) && id in w.db.memories && w.db.memories[id].status == Active
    requires !SameScope(w.db.memories[id].scope, scope)
    ensures var s := Run(w, ForgetEffects(scope, [id], [None]), dims);
            s.Done? && s.world.db == w.db && id !in s.world.index && id in ActiveEmbeddings(s.world.db)
  {
    ShortRuns(w, TxDelete(scope, [id], [None]), IndexRemove([id]), IndexRebuild, dims);
    var none: seq<Option<string>> := [None];
    assert [id][1..] == [] && none[1..] == [];
    assert DeleteMemory(w.db, scope, [id], none) == Committed(w.db);
    assert [id][0] == id && id in IdSet([id]);
  }

  // ---- vacuum and rebuild ----

  lemma RebuildMakesVisible(w: World, dims: nat)
    requires RightRows(w.db, dims)
    ensures var s := Run(w, [IndexRebuild], dims); s.Done? && s.world.db == w.db && Visible(s.world)
  {
    RunOne(w, IndexRebuild, dims);
  }

  /** A call that purges anything leaves the index equal to the remaining Active rows, whatever it held before;
      a call that purges nothing changes nothing. */
  lemma VacuumMakesVisible(w: World, batch: nat, victims: set<string>, dims: nat)
    requires RightRows(w.db, dims) && (batch == 0 ==> victims == {})
    ensures var s := Run(w, VacuumEffects(batch, victims), dims);
            && s.Done? && s.world.db == Purge(w.db, victims)
            && (victims == {} ==> s.world == w) && (victims != {} ==> Visible(s.world))
  {
    assert w.db.memories - {} == w.db.memories;
    if batch > 0 {
      var w1 := World(Purge(w.db, victims), w.index);
      ShortRuns(w, TxPurge(victims), IndexRebuild, IndexRebuild, dims);
      RebuildMakesVisible(w1, dims);
      assert [TxPurge(victims)] + [IndexRebuild] == [TxPurge(victims), IndexRebuild];
      assert [TxPurge(victims)] + [] == [TxPurge(victims)];
    }
  }
}
