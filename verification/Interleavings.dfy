/** Effects of any number of clients in any order: each is one transaction or one call of the index, and an
    effect that fails stops its own operation only. */
module Interleavings {
  import opened Options
  import opened Repository
  import opened Adapter
  import opened Journal
  import opened Visibility

  /** Any interleaving of any operations, with any of them cut short, is some list of effects. */
  function Interleave(w: World, effects: seq<Effect>, dims: nat): World
    decreases |effects|
  {
    if effects == [] then w else Interleave(Exec(w, effects[0], dims).world, effects[1..], dims)
  }

  // ---- operation ids act at most once ----

  /** The rows of a batch that go by the operation id. */
  function IdsUnder(records: seq<Record>, ops: seq<Option<string>>, o: string): seq<string>
    requires |records| == |ops|
    decreases |records|
  {
    if records == [] then []
    else (if ops[0] == Some(o) then [records[0].id] else []) + IdsUnder(records[1..], ops[1..], o)
  }

  /** The rows that an effect creates under the operation id. */
  function CreatedBy(w: World, e: Effect, o: string): seq<string> {
    if e.TxInsert? && InsertPending(w.db, e.records, Padded(e.ops, |e.records|)).Committed?
    then IdsUnder(e.records, Padded(e.ops, |e.records|), o) else []
  }

  /** All rows created under the operation id, in order. */
  function Created(w: World, effects: seq<Effect>, o: string, dims: nat): seq<string>
    decreases |effects|
  {
    if effects == [] then []
    else CreatedBy(w, effects[0], o) + Created(Exec(w, effects[0], dims).world, effects[1..], o, dims)
  }

  lemma {:induction false} BatchCreatesOnce(db: Db, records: seq<Record>, ops: seq<Option<string>>, o: string)
    requires |records| == |ops| && InsertPending(db, records, ops).Committed?
    ensures var ids, t := IdsUnder(records, ops, o), InsertPending(db, records, ops).db;
            && (o in db.operations ==> ids == [] && o in t.operations && t.operations[o] == db.operations[o])
            && (ids != [] ==> |ids| == 1 && o in t.operations && t.operations[o].memoryId == ids[0])
    decreases |records|
  {
    if records == [] {
    } else {
      hide InsertOne;
      InsertedOne(db, records[0], ops[0]);
      var db1 := InsertOne(db, records[0], ops[0]).db;
      BatchCreatesOnce(db1, records[1..], ops[1..], o);
    }
  }

  /** No effect removes a journal entry or changes what it names. */
  lemma ExecKeepsJournal(w: World, e: Effect, o: string, dims: nat)
    requires o in w.db.operations
    ensures var t := Exec(w, e, dims).world.db;
            o in t.operations && t.operations[o].memoryId == w.db.operations[o].memoryId
    ensures CreatedBy(w, e, o) == []
  {
    match e {
      case TxInsert(records, ops) =>
        if InsertPending(w.db, records, Padded(ops, |records|)).Committed? {
          BatchCreatesOnce(w.db, records, Padded(ops, |records|), o);
        }
      case TxDelete(scope, ids, ops) =>
        if DeleteMemory(w.db, scope, ids, Padded(ops, |ids|)).Committed? {
          DeletedRows(w.db, scope, ids, Padded(ops, |ids|));
        }
      case TxUpdate(r, x, op) =>
      case TxActivate(ids) =>
      case TxApply(ops) =>
      case TxPurge(v) =>
      case IndexUpsert(items) =>
      case IndexRemove(ids) =>
      case IndexRebuild =>
    }
  }

  /** A used operation id creates nothing more and keeps naming the same row. */
  lemma {:induction false} UsedIdCreatesNothing(w: World, effects: seq<Effect>, o: string, dims: nat)
    requires o in w.db.operations
    ensures var t := Interleave(w, effects, dims).db;
            o in t.operations && t.operations[o].memoryId == w.db.operations[o].memoryId
    ensures Created(w, effects, o, dims) == []
    decreases |effects|
  {
    if effects == [] {
    } else {
      hide Exec, CreatedBy;
      ExecKeepsJournal(w, effects[0], o, dims);
      UsedIdCreatesNothing(Exec(w, effects[0], dims).world, effects[1..], o, dims);
    }
  }

  /** Under every interleaving at most one row is ever created under an operation id, and a later single
      remember with that id does nothing and returns the row's id. */
  lemma {:induction false} OperationActsOnce(w: World, effects: seq<Effect>, o: string, r: Record, dims: nat)
    ensures var rows, end := Created(w, effects, o, dims), Interleave(w, effects, dims);
            && |rows| <= 1 && (o in w.db.operations ==> rows == [])
            && (rows != [] ==>
                  JournaledId(end.db, Some(o)) == Some(rows[0]) && RememberEffects(end.db, r, Some(o)) == [])
    decreases |effects|
  {
    if effects == [] {
    } else {
      hide Exec;
      var w1 := Exec(w, effects[0], dims).world;
      if o in w.db.operations {
        UsedIdCreatesNothing(w, effects, o, dims);
      } else if CreatedBy(w, effects[0], o) != [] {
        FirstCreation(w, effects[0], o, dims);
        UsedIdCreatesNothing(w1, effects[1..], o, dims);
      } else {
        OperationActsOnce(w1, effects[1..], o, r, dims);
      }
    }
  }

  lemma FirstCreation(w: World, e: Effect, o: string, dims: nat)
    requires CreatedBy(w, e, o) != []
    ensures var t := Exec(w, e, dims).world.db;
            |CreatedBy(w, e, o)| == 1 && o in t.operations && t.operations[o].memoryId == CreatedBy(w, e, o)[0]
  {
    hide InsertPending;
    BatchCreatesOnce(w.db, e.records, Padded(e.ops, |e.records|), o);
  }

  /** The row that an effect updates under the operation id. */
  function UpdatedBy(db: Db, e: Effect, o: string): seq<string> {
    if e.TxUpdate? && e.op == Some(o) && UpdateMemory(db, e.record, e.expected, e.op).Committed? then [e.record.id]
    else []
  }

  /** All rows updated under the operation id, in order. */
  function Updated(w: World, effects: seq<Effect>, o: string, dims: nat): seq<string>
    decreases |effects|
  {
    if effects == [] then []
    else UpdatedBy(w.db, effects[0], o) + Updated(Exec(w, effects[0], dims).world, effects[1..], o, dims)
  }

  lemma {:induction false} UsedIdUpdatesNothing(w: World, effects: seq<Effect>, o: string, dims: nat)
    requires o in w.db.operations
    ensures Updated(w, effects, o, dims) == []
    decreases |effects|
  {
    if effects == [] {
    } else {
      UsedIdUpdates(w.db, effects[0], o);
      hide Exec, UpdatedBy;
      ExecKeepsJournal(w, effects[0], o, dims);
      UsedIdUpdatesNothing(Exec(w, effects[0], dims).world, effects[1..], o, dims);
    }
  }

  lemma UsedIdUpdates(db: Db, e: Effect, o: string)
    requires o in db.operations
    ensures UpdatedBy(db, e, o) == []
  {
    if e.TxUpdate? { UpdateIsJournaled(db, e.record, e.expected, e.op); }
  }

  lemma FirstUpdate(w: World, e: Effect, o: string, dims: nat)
    requires UpdatedBy(w.db, e, o) != []
    ensures var t := Exec(w, e, dims).world.db;
            |UpdatedBy(w.db, e, o)| == 1 && o in t.operations && t.operations[o].memoryId == UpdatedBy(w.db, e, o)[0]
  {
    UpdateIsJournaled(w.db, e.record, e.expected, e.op);
    hide UpdateMemory;
  }

  /** Under every interleaving at most one update ever commits under an operation id; from then on the id names the
      row, and the same update under the same id, a retry, has no effects and succeeds. */
  lemma {:induction false} UpdateActsOnce(w: World, effects: seq<Effect>, o: string, r: Record, expected: nat,
                                          dims: nat)
    ensures var rows, end := Updated(w, effects, o, dims), Interleave(w, effects, dims);
            && |rows| <= 1 && (o in w.db.operations ==> rows == [])
            && (rows != [] ==> JournaledId(end.db, Some(o)) == Some(rows[0]))
            && (rows == [r.id] ==>
                  UpdateEffects(end.db, r, expected, Some(o)) == [] &&
                  Run(end, UpdateEffects(end.db, r, expected, Some(o)), dims) == Done(end))
    decreases |effects|
  {
    if effects == [] {
    } else {
      hide Exec, UpdatedBy;
      var w1 := Exec(w, effects[0], dims).world;
      if o in w.db.operations {
        UsedIdUpdatesNothing(w, effects, o, dims);
      } else if UpdatedBy(w.db, effects[0], o) != [] {
        FirstUpdate(w, effects[0], o, dims);
        UsedIdUpdatesNothing(w1, effects[1..], o, dims);
        UsedIdCreatesNothing(w1, effects[1..], o, dims);
      } else {
        UpdateActsOnce(w1, effects[1..], o, r, expected, dims);
      }
    }
  }

  /** A batch with an operation id that is used, or that it uses twice, changes neither tables nor index. */
  lemma UsedIdStopsBatch(w: World, records: seq<Record>, ops: seq<Option<string>>, i: nat, dims: nat)
    requires |records| == |ops| && i < |ops| && ops[i].Some?
    requires ops[i].value in w.db.operations || exists j :: 0 <= j < |ops| && j != i && ops[j] == ops[i]
    ensures var s := Run(w, RememberBatchEffects(records, ops), dims); s.Failed? && s.world == w
  {
    hide InsertPending;
    UsedOperationRejectsBatch(w.db, records, ops, i);
    var effects := RememberBatchEffects(records, ops);
    assert effects[0] == TxInsert(records, ops);
  }

  // ---- the revision chain ----

  predicate CommitsUpdate(db: Db, e: Effect, id: string) {
    e.TxUpdate? && e.record.id == id && UpdateMemory(db, e.record, e.expected, e.op).Committed?
  }

  /** The expected revisions of the updates of the row that commit, in order. */
  function Consumed(w: World, effects: seq<Effect>, id: string, dims: nat): seq<nat>
    decreases |effects|
  {
    if effects == [] then []
    else (if CommitsUpdate(w.db, effects[0], id) then [effects[0].expected] else []) +
         Consumed(Exec(w, effects[0], dims).world, effects[1..], id, dims)
  }

  /** Consecutive numbers. */
  predicate CountsFrom(s: seq<nat>, first: nat) {
    forall k :: 0 <= k < |s| ==> s[k] == first + k
  }

  lemma CountsOneMore(first: nat, s: seq<nat>)
    requires CountsFrom(s, first + 1)
    ensures CountsFrom([first] + s, first)
  {
  }

  predicate Inserts(e: Effect, id: string) {
    e.TxInsert? && id in RowIds(e.records)
  }

  /** What one effect does to a row's revision. */
  lemma ExecRevision(w: World, e: Effect, id: string, dims: nat)
    requires !Inserts(e, id)
    ensures var t := Exec(w, e, dims).world.db;
            && (id in t.memories ==> id in w.db.memories)
            && (id in t.memories ==>
                  t.memories[id].revision == w.db.memories[id].revision + (if CommitsUpdate(w.db, e, id) then 1 else 0))
            && (CommitsUpdate(w.db, e, id) ==>
                  id in w.db.memories && e.expected == w.db.memories[id].revision && id in t.memories)
  {
    match e {
      case TxInsert(records, ops) =>
        if InsertPending(w.db, records, Padded(ops, |records|)).Committed? {
          hide InsertPending;
          InsertedBatch(w.db, records, Padded(ops, |records|));
          RowIdsAreItemIds(records, id);
        }
      case TxDelete(scope, ids, ops) =>
        if DeleteMemory(w.db, scope, ids, Padded(ops, |ids|)).Committed? {
          hide DeleteMemory;
          DeletedRows(w.db, scope, ids, Padded(ops, |ids|));
        }
      case TxUpdate(r, x, op) =>
      case TxActivate(ids) =>
      case TxApply(ops) =>
      case TxPurge(v) =>
      case IndexUpsert(items) =>
      case IndexRemove(ids) =>
      case IndexRebuild =>
    }
  }

  lemma {:induction false} GoneIsNotUpdated(w: World, effects: seq<Effect>, id: string, dims: nat)
    requires id !in w.db.memories && forall i :: 0 <= i < |effects| ==> !Inserts(effects[i], id)
    ensures Consumed(w, effects, id, dims) == [] && id !in Interleave(w, effects, dims).db.memories
    decreases |effects|
  {
    if effects == [] {
    } else {
      hide Exec, CommitsUpdate, Inserts;
      ExecRevision(w, effects[0], id, dims);
      GoneIsNotUpdated(Exec(w, effects[0], dims).world, effects[1..], id, dims);
    }
  }

  /** Under every interleaving the committed updates of a row consume its revisions one after the other, none
      twice, and while the row exists its revision is the first one plus their number. */
  lemma {:induction false} RevisionChain(w: World, effects: seq<Effect>, id: string, dims: nat)
    requires id in w.db.memories && forall i :: 0 <= i < |effects| ==> !Inserts(effects[i], id)
    ensures var used, end := Consumed(w, effects, id, dims), Interleave(w, effects, dims).db;
            var first := w.db.memories[id].revision;
            && CountsFrom(used, first)
            && (id in end.memories ==> end.memories[id].revision == first + |used|)
    decreases |effects|
  {
    if effects == [] {
    } else {
      hide Exec, CommitsUpdate, Inserts, CountsFrom;
      var w1 := Exec(w, effects[0], dims).world;
      ExecRevision(w, effects[0], id, dims);
      var rest := Consumed(w1, effects[1..], id, dims);
      if id in w1.db.memories {
        RevisionChain(w1, effects[1..], id, dims);
        assert [] + rest == rest;
        if CommitsUpdate(w.db, effects[0], id) { CountsOneMore(w.db.memories[id].revision, rest); }
      } else {
        GoneIsNotUpdated(w1, effects[1..], id, dims);
      }
    }
  }

  /** From its insertion on, a row's revision is 1 plus its committed updates. */
  lemma RevisionFromInsertion(w: World, records: seq<Record>, ops: seq<Option<string>>, i: nat, rest: seq<Effect>,
                              dims: nat)
    requires |records| == |ops| && i < |records| && NewRows(records, dims)
    requires InsertPending(w.db, records, ops).Committed?
    requires forall k :: 0 <= k < |rest| ==> !Inserts(rest[k], records[i].id)
    ensures var id, w1 := records[i].id, Exec(w, TxInsert(records, ops), dims).world;
            var used, end := Consumed(w1, rest, id, dims), Interleave(w1, rest, dims).db;
            && CountsFrom(used, 1)
            && (id in end.memories ==> end.memories[id].revision == 1 + |used|)
  {
    hide InsertPending, Inserts;
    InsertedBatch(w.db, records, ops);
    RevisionChain(Exec(w, TxInsert(records, ops), dims).world, rest, records[i].id, dims);
  }

  // ---- deletion under interleaving ----

  predicate Activates(e: Effect, id: string) {
    e.TxActivate? && id in e.ids
  }

  /** The effect tombstones the row: it names it in its scope, and commits. */
  predicate Deletes(db: Db, e: Effect, id: string) {
    && e.TxDelete? && id in e.ids && InScope(db, e.scope, id)
    && DeleteMemory(db, e.scope, e.ids, Padded(e.ops, |e.ids|)).Committed?
  }

  predicate Purges(e: Effect, id: string) {
    e.TxPurge? && id in e.victims
  }

  /** What one effect that does not insert the row does to its status. */
  lemma ExecStatus(w: World, e: Effect, id: string, dims: nat)
    requires !Inserts(e, id)
    ensures var t := Exec(w, e, dims).world.db;
            && (id in t.memories <==> id in w.db.memories && !Purges(e, id))
            && (id in t.memories ==> t.memories[id].status ==
                                     if Activates(e, id) then Active
                                     else if Deletes(w.db, e, id) then Deleted
                                     else if CommitsUpdate(w.db, e, id) then e.record.status
                                     else w.db.memories[id].status)
  {
    match e {
      case TxInsert(records, ops) =>
        if InsertPending(w.db, records, Padded(ops, |records|)).Committed? {
          hide InsertPending;
          InsertedBatch(w.db, records, Padded(ops, |records|));
          RowIdsAreItemIds(records, id);
        }
      case TxDelete(scope, ids, ops) =>
        if DeleteMemory(w.db, scope, ids, Padded(ops, |ids|)).Committed? {
          hide DeleteMemory;
          DeletedRows(w.db, scope, ids, Padded(ops, |ids|));
        }
      case TxUpdate(r, x, op) =>
      case TxActivate(ids) =>
      case TxApply(ops) =>
      case TxPurge(v) =>
      case IndexUpsert(items) =>
      case IndexRemove(ids) =>
      case IndexRebuild =>
    }
  }

  /** An update that commits found the row present and not Deleted. */
  lemma CommittedUpdateFindsRow(db: Db, e: Effect, id: string)
    requires CommitsUpdate(db, e, id)
    ensures e.TxUpdate? && id in db.memories && db.memories[id].status != Deleted
  {
  }

  /** A second client retries a remember that is under way, gets the row's id, and forgets it
      before the first client activates it.  The row ends Active, and the index does not hold it. */
  lemma ForgetDuringRemember(w: World, r: Record, o: string, dims: nat)
    requires NewRows([r], dims) && r.id !in w.db.memories && o !in w.db.operations
    ensures var begun := Interleave(w, [TxInsert([r], [Some(o)]), IndexUpsert(ItemsOf([r]))], dims);
            var forgotten := Interleave(begun, ForgetEffects(r.scope, [r.id], [None]), dims);
            var end := Interleave(forgotten, [TxActivate([r.id]), TxApply([o])], dims);
            && JournaledId(begun.db, Some(o)) == Some(r.id)
            && r.id in forgotten.db.memories && forgotten.db.memories[r.id].status == Deleted
            && r.id in end.db.memories && end.db.memories[r.id].status == Active && r.id !in end.index
  {
    hide InsertPending, DeleteMemory, StoppingBatch;
    var none: seq<Option<string>> := [None];
    var t := Db(w.db.memories[r.id := r], w.db.operations[o := Operation(r.id, OpKind.Remember, false)]);
    InsertsOneRow(w.db, r, o);
    InterleavePair(w, TxInsert([r], [Some(o)]), IndexUpsert(ItemsOf([r])), dims);
    var begun := Interleave(w, [TxInsert([r], [Some(o)]), IndexUpsert(ItemsOf([r]))], dims);
    assert begun.db == t;
    InterleavePair(begun, TxDelete(r.scope, [r.id], none), IndexRemove([r.id]), dims);
    DeletesOneRow(t, r.scope, r.id);
    var forgotten := Interleave(begun, ForgetEffects(r.scope, [r.id], [None]), dims);
    assert [r.id][0] == r.id && r.id in IdSet([r.id]);
    InterleavePair(forgotten, TxActivate([r.id]), TxApply([o]), dims);
  }

  lemma DeletesOneRow(db: Db, scope: Scope, id: string)
    requires InScope(db, scope, id)
    ensures DeleteMemory(db, scope, [id], [None]) ==
            Committed(db.(memories := db.memories[id := db.memories[id].(status := Deleted)]))
  {
    var ids, none: seq<Option<string>> := [id], [None];
    assert ids[1..] == [] && none[1..] == [];
  }

  lemma InsertsOneRow(db: Db, r: Record, o: string)
    requires r.id !in db.memories && o !in db.operations
    ensures InsertPending(db, [r], [Some(o)]) ==
            Committed(Db(db.memories[r.id := r], db.operations[o := Operation(r.id, OpKind.Remember, false)]))
  {
    var rows, ops := [r], [Some(o)];
    assert rows[1..] == [] && ops[1..] == [];
  }

  lemma InterleavePair(w: World, a: Effect, b: Effect, dims: nat)
    ensures Interleave(w, [a, b], dims) == Exec(Exec(w, a, dims).world, b, dims).world
  {
    hide Exec;
    var w1 := Exec(w, a, dims).world;
    assert [a, b][1..] == [b] && [b][1..] == [];
    assert Interleave(w1, [b], dims) == Exec(w1, b, dims).world;
  }
}
