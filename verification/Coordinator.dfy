/** The journal coordinator: the operations as code over the store and the index, tied to their effect lists. */
module Coordinator {
  import opened Options
  import opened Repository
  import opened Adapter
  import opened Journal
  import opened Recovery

  datatype Reply<T> = Success(value: T) | Failure(error: Error)

  /** Part of the way through a list of effects: `rest` remains to be done. */
  ghost predicate OnTrack(w0: World, h0: seq<World>, effects: seq<Effect>, w: World, h: seq<World>, rest: seq<Effect>,
                          dims: nat) {
    && Run(w0, effects, dims) == Run(w, rest, dims)
    && h0 + Trace(w0, effects, dims) == h + Trace(w, rest, dims)
  }

  ghost predicate Ends(w0: World, h0: seq<World>, effects: seq<Effect>, s: Step, h: seq<World>, dims: nat) {
    Run(w0, effects, dims) == s && h == h0 + Trace(w0, effects, dims)
  }

  lemma Follow(w0: World, h0: seq<World>, effects: seq<Effect>, w: World, h: seq<World>, a: Effect, tail: seq<Effect>,
               dims: nat)
    requires OnTrack(w0, h0, effects, w, h, [a] + tail, dims)
    ensures var s := Exec(w, a, dims);
            if s.Done? then OnTrack(w0, h0, effects, s.world, h + [s.world], tail, dims)
            else Ends(w0, h0, effects, s, h + [s.world], dims)
  {
    hide Exec;
    var s := Exec(w, a, dims);
    assert ([a] + tail)[1..] == tail;
    var t := if s.Done? then Trace(s.world, tail, dims) else [];
    assert Trace(w, [a] + tail, dims) == [s.world] + t;
    assert h + ([s.world] + t) == (h + [s.world]) + t;
  }

  lemma Arrive(w0: World, h0: seq<World>, effects: seq<Effect>, w: World, h: seq<World>, rest: seq<Effect>, dims: nat)
    requires OnTrack(w0, h0, effects, w, h, rest, dims)
    ensures Ends(w0, h0, effects, Run(w, rest, dims), h + Trace(w, rest, dims), dims)
  {
  }

  /** Part of the way through a recovery. */
  ghost predicate Recovering(w0: World, h0: seq<World>, order: seq<string>, w: World, h: seq<World>, rest: seq<string>,
                             dims: nat) {
    && (forall o :: o in order ==> o in w0.db.operations)
    && (forall o :: o in rest ==> o in w.db.operations)
    && RecoverAll(w0, order, dims) == RecoverAll(w, rest, dims)
    && h0 + RecoverTrace(w0, order, dims) == h + RecoverTrace(w, rest, dims)
  }

  ghost predicate RecoveryEnds(w0: World, h0: seq<World>, order: seq<string>, s: Step, h: seq<World>, dims: nat) {
    && (forall o :: o in order ==> o in w0.db.operations)
    && RecoverAll(w0, order, dims) == s && h == h0 + RecoverTrace(w0, order, dims)
  }

  lemma RecoveryFollows(w0: World, h0: seq<World>, order: seq<string>, w: World, h: seq<World>, rest: seq<string>,
                        s: Step, h1: seq<World>, dims: nat)
    requires rest != [] && Recovering(w0, h0, order, w, h, rest, dims) && rest[0] in w.db.operations
    requires Ends(w, h, RecoverEffects(w.db, rest[0]), s, h1, dims)
    ensures if s.Done? then Recovering(w0, h0, order, s.world, h1, rest[1..], dims)
            else RecoveryEnds(w0, h0, order, s, h1, dims)
  {
    hide RecoverEffects, Run, Trace;
    StepResult(w, rest[0], 0, dims);
    var own := Trace(w, RecoverEffects(w.db, rest[0]), dims);
    if s.Done? {
      assert h + (own + RecoverTrace(s.world, rest[1..], dims)) == h1 + RecoverTrace(s.world, rest[1..], dims);
    } else {
      assert own + [] == own;
    }
  }

  lemma RecoveryArrives(w0: World, h0: seq<World>, order: seq<string>, w: World, h: seq<World>, dims: nat)
    requires Recovering(w0, h0, order, w, h, [], dims)
    ensures var s := Exec(w, IndexRebuild, dims); RecoveryEnds(w0, h0, order, s, h + [s.world], dims)
  {
    hide Exec;
    RunOne(w, IndexRebuild, dims);
  }

  lemma Underway(w0: World, h0: seq<World>, pending: seq<string>, dims: nat)
    requires Lists(w0.db, pending)
    ensures Recovering(w0, h0, pending, w0, h0, pending[0..], dims)
  {
    assert pending[0..] == pending;
  }

  lemma FirstIsJournaled(w0: World, h0: seq<World>, order: seq<string>, w: World, h: seq<World>, rest: seq<string>,
                         dims: nat)
    requires rest != [] && Recovering(w0, h0, order, w, h, rest, dims)
    ensures rest[0] in w.db.operations
  {
  }

  function Reached(failed: Option<Error>, w: World): Step {
    if failed.Some? then Failed(w, failed.value) else Done(w)
  }

  lemma SingleItem(index: Vectors, id: string, vector: seq<real>, dims: nat)
    ensures RightDims([(id, vector)], dims) <==> |vector| == dims
    ensures StoppingBatch(index, [(id, vector)], dims) == if |vector| == dims then index[id := vector] else index
  {
    assert [(id, vector)][0] == (id, vector) && [(id, vector)][1..] == [];
  }

  lemma IdSetGrows(ids: seq<string>, i: nat)
    requires i < |ids|
    ensures IdSet(ids[..i + 1]) == IdSet(ids[..i]) + {ids[i]}
  {
    forall id | id in IdSet(ids[..i]) + {ids[i]} ensures id in IdSet(ids[..i + 1]) {
      if id == ids[i] {
        assert ids[..i + 1][i] == id;
      } else {
        var j :| 0 <= j < i && ids[..i][j] == id;
        assert ids[..i + 1][j] == id;
      }
    }
  }

  lemma {:induction false} RebuiltFits(records: seq<(string, seq<real>)>, vectors: Vectors, dims: nat)
    requires forall i, j :: 0 <= i < j < |records| ==> records[i].0 != records[j].0
    requires IdsIn(records) == vectors.Keys && forall i :: 0 <= i < |records| ==> vectors[records[i].0] == records[i].1
    ensures Rebuilt(records, dims) == Fitting(vectors, dims)
  {
    if records == [] {
      assert vectors.Keys == {};
    } else {
      var init, last := records[..|records| - 1], records[|records| - 1];
      assert records == init + [last];
      IdsInAppend(init, last);
      assert last.0 !in IdsIn(init);
      hide IdsIn;
      var others := vectors - {last.0};
      assert others.Keys == IdsIn(init);
      forall i | 0 <= i < |init| ensures init[i].0 in others && others[init[i].0] == init[i].1 {
        assert init[i] == records[i];
      }
      RebuiltFits(init, others, dims);
      RebuiltOneMore(vectors, others, last, dims);
    }
  }

  lemma RebuiltOneMore(vectors: Vectors, others: Vectors, last: (string, seq<real>), dims: nat)
    requires last.0 in vectors && vectors[last.0] == last.1 && others == vectors - {last.0}
    ensures Fitting(vectors, dims) ==
            if |last.1| == dims then Fitting(others, dims)[last.0 := last.1] else Fitting(others, dims)
  {
  }

  class JournalCoordinator {
    const repo: Repository
    const index: InMemoryIndex
    /** The world after every effect so far: each is what a crash could have left. */
    ghost var history: seq<World>

    constructor (repo: Repository, index: InMemoryIndex)
      ensures this.repo == repo && this.index == index && history == []
    {
      this.repo, this.index, history := repo, index, [];
    }

    ghost function State(): World
      reads repo, index
    {
      World(repo.db, index.vectors)
    }

    /** One effect took place, and either failed or did not. */
    twostate predicate Stepped(effect: Effect, new failed: Option<Error>)
      reads this, repo, index
    {
      var s := Exec(old(State()), effect, index.dims);
      && State() == s.world && history == old(history) + [s.world]
      && failed == if s.Done? then None else Some(s.error)
    }

    /** The operation ran its effects, in order, up to the first that failed. */
    twostate predicate Performed(effects: seq<Effect>, new failed: Option<Error>)
      reads this, repo, index
    {
      Ends(old(State()), old(history), effects, Reached(failed, State()), history, index.dims)
    }

    // ---- the effects ----

    method InsertPendingRows(records: seq<Record>, ops: seq<Option<string>>) returns (failed: Option<Error>)
      modifies repo, this`history
      ensures Stepped(TxInsert(records, ops), failed)
    {
      failed := repo.InsertPendingMemories(records, ops);
      history := history + [State()];
    }

    method UpsertOne(id: string, vector: seq<real>) returns (failed: Option<Error>)
      modifies index, this`history
      ensures Stepped(IndexUpsert([(id, vector)]), failed)
    {
      SingleItem(index.vectors, id, vector, index.dims);
      var r := index.Upsert(id, vector);
      history := history + [State()];
      failed := if r.Ok? then None else Some(Error.DimensionMismatch);
    }

    method UpsertItems(items: seq<(string, seq<real>)>) returns (failed: Option<Error>)
      modifies index, this`history
      ensures Stepped(IndexUpsert(items), failed)
    {
      var r := index.UpsertBatch(items);
      history := history + [State()];
      failed := if r.Ok? then None else Some(Error.DimensionMismatch);
    }

    method Activate(ids: seq<string>)
      modifies repo, this`history
      ensures Stepped(TxActivate(ids), None)
    {
      repo.SetStatuses(ids, Active);
      history := history + [State()];
    }

    method MarkApplied(ops: seq<string>)
      modifies repo, this`history
      ensures Stepped(TxApply(ops), None)
    {
      repo.MarkOperationsApplied(ops);
      history := history + [State()];
    }

    method RemoveItems(ids: seq<string>)
      modifies index, this`history
      ensures Stepped(IndexRemove(ids), None)
    {
      assert index.vectors == index.vectors - IdSet(ids[..0]);
      for i := 0 to |ids|
        modifies index
        invariant index.vectors == old(index.vectors) - IdSet(ids[..i])
      {
        index.Remove(ids[i]);
        IdSetGrows(ids, i);
      }
      assert ids[..|ids|] == ids;
      history := history + [State()];
    }

    // ---- the operations ----

    /** Marks the operation ids that are present, if any is. */
    method MarkPresent(ops: seq<Option<string>>)
      modifies repo, this`history
      ensures Performed(ApplyEffects(ops), None)
    {
      var present: seq<string> := [];
      for i := 0 to |ops|
        invariant Present(ops) == present + Present(ops[i..])
      {
        assert ops[i..][1..] == ops[i + 1..];
        if ops[i].Some? { present := present + [ops[i].value]; }
      }
      assert present == Present(ops);
      if present != [] {
        assert ApplyEffects(ops) == [TxApply(present)] + [];
        Follow(State(), history, ApplyEffects(ops), State(), history, TxApply(present), [], index.dims);
        MarkApplied(present);
      }
    }

    method RememberBatch(records: seq<Record>, ops: seq<Option<string>>) returns (r: Reply<seq<string>>)
      modifies repo, index, this`history
      ensures Performed(RememberBatchEffects(records, ops), if r.Failure? then Some(r.error) else None)
      ensures r.Success? ==> r.value == RowIds(records)
    {
      hide Exec;
      if records == [] {
        return Success([]);
      }
      ghost var tail := ApplyEffects(ops);
      var a, b, c := TxInsert(records, ops), IndexUpsert(ItemsOf(records)), TxActivate(RowIds(records));
      assert RememberBatchEffects(records, ops) == [a] + ([b] + ([c] + tail));
      ghost var w0, h0, all := State(), history, RememberBatchEffects(records, ops);
      hide Run, Trace, OnTrack, Ends, SetStatus, RememberBatchEffects, ApplyEffects, RowIds, ItemsOf;
      Follow(w0, h0, all, State(), history, a, [b] + ([c] + tail), index.dims);
      var failed := InsertPendingRows(records, ops);
      if failed.Some? {
        return Failure(failed.value);
      }
      Follow(w0, h0, all, State(), history, b, [c] + tail, index.dims);
      failed := UpsertItems(ItemsOf(records));
      if failed.Some? {
        return Failure(failed.value);
      }
      Follow(w0, h0, all, State(), history, c, tail, index.dims);
      Activate(RowIds(records));
      Arrive(w0, h0, all, State(), history, tail, index.dims);
      MarkPresent(ops);
      return Success(RowIds(records));
    }

    /** A known operation id, applied or not, answers with the memory id it was journaled with. */
    method Remember(record: Record, op: Option<string>) returns (r: Reply<string>)
      modifies repo, index, this`history
      ensures Performed(RememberEffects(old(repo.db), record, op), if r.Failure? then Some(r.error) else None)
      ensures r.Success? ==> r.value == if JournaledId(old(repo.db), op).Some? then JournaledId(old(repo.db), op).value
                                        else record.id
    {
      hide Exec;
      if op.Some? && op.value in repo.db.operations {
        return Success(repo.db.operations[op.value].memoryId);
      }
      ghost var tail := ApplyEffects([op]);
      var item := (record.id, record.embedding);
      assert ItemsOf([record]) == [item] && RowIds([record]) == [record.id];
      var a, b, c := TxInsert([record], [op]), IndexUpsert([item]), TxActivate([record.id]);
      assert RememberEffects(repo.db, record, op) == [a] + ([b] + ([c] + tail));
      ghost var w0, h0, all := State(), history, RememberEffects(repo.db, record, op);
      hide Run, Trace, OnTrack, Ends, SetStatus, RememberEffects, RememberBatchEffects, ApplyEffects, RowIds, ItemsOf;
      Follow(w0, h0, all, State(), history, a, [b] + ([c] + tail), index.dims);
      var failed := InsertPendingRows([record], [op]);
      if failed.Some? {
        return Failure(failed.value);
      }
      Follow(w0, h0, all, State(), history, b, [c] + tail, index.dims);
      failed := UpsertOne(record.id, record.embedding);
      if failed.Some? {
        return Failure(failed.value);
      }
      Follow(w0, h0, all, State(), history, c, tail, index.dims);
      Activate([record.id]);
      Arrive(w0, h0, all, State(), history, tail, index.dims);
      MarkPresent([op]);
      return Success(record.id);
    }

    method UpdateRow(record: Record, expected: nat, op: Option<string>) returns (failed: Option<Error>)
      modifies repo, this`history
      ensures Stepped(TxUpdate(record, expected, op), failed)
    {
      failed := repo.UpdateRow(record, expected, op);
      history := history + [State()];
    }

    method Update(record: Record, expected: nat, op: Option<string>) returns (failed: Option<Error>)
      modifies repo, index, this`history
      ensures Performed(UpdateEffects(old(repo.db), record, expected, op), failed)
    {
      hide Exec;
      if op.Some? && op.value in repo.db.operations && repo.db.operations[op.value].memoryId == record.id {
        return None;
      }
      ghost var tail := ApplyEffects([op]);
      var item := (record.id, record.embedding);
      assert ItemsOf([record]) == [item];
      var a, b := TxUpdate(record, expected, op), IndexUpsert([item]);
      assert UpdateEffects(repo.db, record, expected, op) == [a] + ([b] + tail);
      ghost var w0, h0, all := State(), history, UpdateEffects(repo.db, record, expected, op);
      hide Run, Trace, OnTrack, Ends, SetStatus, UpdateEffects, ApplyEffects, ItemsOf;
      Follow(w0, h0, all, State(), history, a, [b] + tail, index.dims);
      failed := UpdateRow(record, expected, op);
      if failed.Some? {
        return;
      }
      Follow(w0, h0, all, State(), history, b, tail, index.dims);
      failed := UpsertOne(record.id, record.embedding);
      if failed.Some? {
        return;
      }
      Arrive(w0, h0, all, State(), history, tail, index.dims);
      MarkPresent([op]);
    }

    method DeleteRows(scope: Scope, ids: seq<string>, ops: seq<Option<string>>) returns (failed: Option<Error>)
      modifies repo, this`history
      ensures Stepped(TxDelete(scope, ids, ops), failed)
    {
      failed := repo.DeleteRows(scope, ids, ops);
      history := history + [State()];
    }

    method Forget(scope: Scope, ids: seq<string>, ops: seq<Option<string>>) returns (failed: Option<Error>)
      modifies repo, index, this`history
      ensures Performed(ForgetEffects(scope, ids, ops), failed)
    {
      hide Exec;
      if ids == [] {
        return None;
      }
      var a, b := TxDelete(scope, ids, ops), IndexRemove(ids);
      assert ForgetEffects(scope, ids, ops) == [a] + ([b] + []);
      ghost var w0, h0, all := State(), history, ForgetEffects(scope, ids, ops);
      hide Run, Trace, OnTrack, Ends;
      Follow(w0, h0, all, w0, h0, a, [b] + [], index.dims);
      failed := DeleteRows(scope, ids, ops);
      if failed.Some? {
        return;
      }
      Follow(w0, h0, all, State(), history, b, [], index.dims);
      RemoveItems(ids);
    }

    method VacuumRows(batch: nat, now: int) returns (purged: nat, victims: set<string>)
      modifies repo, this`history
      ensures VacuumPick(old(repo.db), batch, now, victims) && purged == |victims|
      ensures Stepped(TxPurge(victims), None)
    {
      purged, victims := repo.Vacuum(batch, now);
      history := history + [State()];
    }

    // ---- startup ----

    /** `get_pending_operations`, in any order. */
    method PendingList() returns (ops: seq<string>)
      ensures Lists(repo.db, ops)
    {
      var left: set<string> := set o | o in repo.db.operations && !repo.db.operations[o].applied;
      assert left == PendingOps(repo.db);
      ops := [];
      while left != {}
        invariant left <= PendingOps(repo.db) && forall o :: o in ops <==> o in PendingOps(repo.db) - left
        invariant forall i, j :: 0 <= i < j < |ops| ==> ops[i] != ops[j]
        decreases left
      {
        var o :| o in left;
        assert o !in ops && forall i :: 0 <= i < |ops| ==> ops[i] in ops;
        left, ops := left - {o}, ops + [o];
      }
    }

    /** `get_all_active_records`, in any order. */
    method ActiveList() returns (records: seq<(string, seq<real>)>)
      ensures forall i, j :: 0 <= i < j < |records| ==> records[i].0 != records[j].0
      ensures IdsIn(records) == ActiveEmbeddings(repo.db).Keys
      ensures forall i :: 0 <= i < |records| ==> ActiveEmbeddings(repo.db)[records[i].0] == records[i].1
    {
      var left: set<string> := set id | id in repo.db.memories && repo.db.memories[id].status == Active;
      records := [];
      assert IdsIn(records) == {};
      while left != {}
        invariant left <= ActiveEmbeddings(repo.db).Keys && IdsIn(records) == ActiveEmbeddings(repo.db).Keys - left
        invariant forall i, j :: 0 <= i < j < |records| ==> records[i].0 != records[j].0
        invariant forall i :: 0 <= i < |records| ==>
          records[i].0 in ActiveEmbeddings(repo.db) && ActiveEmbeddings(repo.db)[records[i].0] == records[i].1
        decreases left
      {
        var id :| id in left;
        assert forall i :: 0 <= i < |records| ==> records[i].0 in IdsIn(records);
        IdsInAppend(records, (id, repo.db.memories[id].embedding));
        left, records := left - {id}, records + [(id, repo.db.memories[id].embedding)];
      }
    }

    method RebuildIndex()
      modifies index, this`history
      ensures Stepped(IndexRebuild, None)
    {
      var records := ActiveList();
      RebuiltFits(records, ActiveEmbeddings(repo.db), index.dims);
      index.Rebuild(records);
      history := history + [State()];
    }

    method RecoverOne(o: string) returns (failed: Option<Error>)
      requires o in repo.db.operations
      modifies repo, index, this`history
      ensures Performed(RecoverEffects(old(repo.db), o), failed)
    {
      hide Exec;
      var op := repo.db.operations[o];
      ghost var w0, h0, all := State(), history, RecoverEffects(repo.db, o);
      if op.kind == OpKind.Delete {
        assert all == [IndexRemove([op.memoryId])] + ([TxApply([o])] + []);
        hide Run, Trace, OnTrack, Ends, RecoverEffects;
        Follow(w0, h0, all, State(), history, IndexRemove([op.memoryId]), [TxApply([o])] + [], index.dims);
        RemoveItems([op.memoryId]);
        Follow(w0, h0, all, State(), history, TxApply([o]), [], index.dims);
        MarkApplied([o]);
        return None;
      }
      if op.memoryId !in repo.db.memories {
        return None;
      }
      failed := RecoverRow(o, repo.db.memories[op.memoryId]);
    }

    method RecoverRow(o: string, record: Record) returns (failed: Option<Error>)
      requires o in repo.db.operations && repo.db.operations[o].kind != OpKind.Delete
      requires repo.db.operations[o].memoryId in repo.db.memories
      requires record == repo.db.memories[repo.db.operations[o].memoryId]
      modifies repo, index, this`history
      ensures Performed(RecoverEffects(old(repo.db), o), failed)
    {
      hide Exec;
      var id := repo.db.operations[o].memoryId;
      ghost var w0, h0, all := State(), history, RecoverEffects(repo.db, o);
      ghost var mark := [TxApply([o])] + [];
      ghost var rest := (if record.status == Pending then [TxActivate([id])] else []) + mark;
      assert all == (if record.status in {Pending, Active} then [IndexUpsert([(id, record.embedding)])] else []) + rest;
      if record.status == Pending || record.status == Active {
        assert all == [IndexUpsert([(id, record.embedding)])] + rest;
      } else {
        assert all == rest == mark;
      }
      assert rest == if record.status == Pending then [TxActivate([id])] + mark else mark;
      hide Run, Trace, OnTrack, Ends, RecoverEffects;
      if record.status == Pending || record.status == Active {
        Follow(w0, h0, all, State(), history, IndexUpsert([(id, record.embedding)]), rest, index.dims);
        failed := UpsertOne(id, record.embedding);
        if failed.Some? {
          return;
        }
        if record.status == Pending {
          Follow(w0, h0, all, State(), history, TxActivate([id]), mark, index.dims);
          Activate([id]);
        }
      }
      Follow(w0, h0, all, State(), history, TxApply([o]), [], index.dims);
      MarkApplied([o]);
      return None;
    }

    /** The loop over the pending operations, then the rebuild. */
    method RecoverStartup() returns (failed: Option<Error>, ghost order: seq<string>)
      modifies repo, index, this`history
      ensures Lists(old(repo.db), order)
      ensures RecoveryEnds(old(State()), old(history), order,
                           Reached(failed, State()), history, index.dims)
    {
      hide Exec, RecoverAll, RecoverTrace, RecoverEffects, Ends, Recovering, RecoveryEnds;
      ghost var w0, h0 := State(), history;
      var pending := PendingList();
      order := pending;
      Underway(w0, h0, pending, index.dims);
      for i := 0 to |pending|
        invariant Recovering(w0, h0, order, State(), history, pending[i..], index.dims)
      {
        ghost var w, h := State(), history;
        assert pending[i..][1..] == pending[i + 1..] && pending[i..][0] == pending[i];
        FirstIsJournaled(w0, h0, order, w, h, pending[i..], index.dims);
        failed := RecoverOne(pending[i]);
        RecoveryFollows(w0, h0, order, w, h, pending[i..], Reached(failed, State()), history, index.dims);
        if failed.Some? {
          return;
        }
      }
      RecoveryArrives(w0, h0, order, State(), history, index.dims);
      RebuildIndex();
      return None, order;
    }
  }
}
