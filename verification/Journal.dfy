/** The two-phase journal over the canonical store and the derived index: every operation of the store as an
    ordered list of effects, any of which may be the last one before a crash. */
module Journal {
  import opened Options
  import opened Repository
  import opened Adapter

  datatype World = World(db: Db, index: Vectors)

  /** One transaction, or one call of the index. */
  datatype Effect =
    | TxInsert(records: seq<Record>, ops: seq<Option<string>>)
    | TxActivate(ids: seq<string>)
    | TxApply(applied: seq<string>)
    | TxUpdate(record: Record, expected: nat, op: Option<string>)
    | TxDelete(scope: Scope, ids: seq<string>, ops: seq<Option<string>>)
    | TxPurge(victims: set<string>)
    | IndexUpsert(items: seq<(string, seq<real>)>)
    | IndexRemove(ids: seq<string>)
    | IndexRebuild

  datatype Step = Done(world: World) | Failed(world: World, error: Error)

  function OfTx(w: World, t: Tx): Step {
    match t
    case Committed(db) => Done(w.(db := db))
    case RolledBack(e) => Failed(w, e)
  }

  function Fitting(vectors: Vectors, dims: nat): Vectors {
    map id | id in vectors && |vectors[id]| == dims :: vectors[id]
  }

  function IdSet(ids: seq<string>): set<string> {
    set i | 0 <= i < |ids| :: ids[i]
  }

  function Exec(w: World, e: Effect, dims: nat): Step {
    match e
    case TxInsert(records, ops) => OfTx(w, InsertPending(w.db, records, Padded(ops, |records|)))
    case TxActivate(ids) => Done(w.(db := SetStatus(w.db, ids, Active)))
    case TxApply(ops) => Done(w.(db := MarkApplied(w.db, ops)))
    case TxUpdate(r, expected, op) => OfTx(w, UpdateMemory(w.db, r, expected, op))
    case TxDelete(scope, ids, ops) => OfTx(w, DeleteMemory(w.db, scope, ids, Padded(ops, |ids|)))
    case TxPurge(victims) => Done(w.(db := Purge(w.db, victims)))
    case IndexUpsert(items) =>
      var w1 := w.(index := StoppingBatch(w.index, items, dims));
      if RightDims(items, dims) then Done(w1) else Failed(w1, Error.DimensionMismatch)
    case IndexRemove(ids) => Done(w.(index := w.index - IdSet(ids)))
    case IndexRebuild => Done(w.(index := Fitting(ActiveEmbeddings(w.db), dims)))
  }

  /** Effects one after the other, up to the first that fails.  A crash after k effects leaves
      `Run(w, effects[..k], dims)`. */
  function Run(w: World, effects: seq<Effect>, dims: nat): Step
    decreases |effects|
  {
    if effects == [] then Done(w)
    else
      match Exec(w, effects[0], dims)
      case Done(w1) => Run(w1, effects[1..], dims)
      case Failed(w1, e) => Failed(w1, e)
  }

  /** The worlds after each effect of the run. */
  function Trace(w: World, effects: seq<Effect>, dims: nat): (t: seq<World>)
    ensures |t| <= |effects| && (Run(w, effects, dims).Done? ==> |t| == |effects|)
    decreases |effects|
  {
    if effects == [] then []
    else
      var s := Exec(w, effects[0], dims);
      [s.world] + if s.Done? then Trace(s.world, effects[1..], dims) else []
  }

  // ---- the operations as lists of effects ----

  function ItemsOf(records: seq<Record>): (items: seq<(string, seq<real>)>)
    ensures |items| == |records|
  {
    seq(|records|, i requires 0 <= i < |records| => (records[i].id, records[i].embedding))
  }

  function RowIds(records: seq<Record>): (ids: seq<string>)
    ensures |ids| == |records|
  {
    seq(|records|, i requires 0 <= i < |records| => records[i].id)
  }

  /** The operation ids that are present. */
  function Present(ops: seq<Option<string>>): seq<string> {
    if ops == [] then [] else (if ops[0].Some? then [ops[0].value] else []) + Present(ops[1..])
  }

  function ApplyEffects(ops: seq<Option<string>>): seq<Effect> {
    if Present(ops) == [] then [] else [TxApply(Present(ops))]
  }

  /** `coordinate_remember_batch`. */
  function RememberBatchEffects(records: seq<Record>, ops: seq<Option<string>>): seq<Effect> {
    if records == [] then []
    else [TxInsert(records, ops), IndexUpsert(ItemsOf(records)), TxActivate(RowIds(records))] + ApplyEffects(ops)
  }

  /** The memory id that an operation id was first journaled with. */
  function JournaledId(db: Db, op: Option<string>): Option<string> {
    if op.Some? && op.value in db.operations then Some(db.operations[op.value].memoryId) else None
  }

  /** `coordinate_remember`: nothing happens if the operation id is known, applied or not. */
  function RememberEffects(db: Db, r: Record, op: Option<string>): seq<Effect> {
    if JournaledId(db, op).Some? then [] else RememberBatchEffects([r], [op])
  }

  /** `coordinate_update`: nothing happens if the operation id is known with this memory id. */
  function UpdateEffects(db: Db, r: Record, expected: nat, op: Option<string>): seq<Effect> {
    if JournaledId(db, op) == Some(r.id) then []
    else [TxUpdate(r, expected, op), IndexUpsert(ItemsOf([r]))] + ApplyEffects([op])
  }

  /** `coordinate_forget(_batch)`: the index forgets the ids whether or not a row was in scope. */
  function ForgetEffects(scope: Scope, ids: seq<string>, ops: seq<Option<string>>): seq<Effect> {
    if ids == [] then [] else [TxDelete(scope, ids, ops), IndexRemove(ids)]
  }

  /** `vacuum_tombstones`, given the rows that the limited delete picks. */
  function VacuumEffects(batch: nat, victims: set<string>): seq<Effect> {
    if batch == 0 then [] else [TxPurge(victims)] + if victims == {} then [] else [IndexRebuild]
  }

  // ---- facts about runs ----

  /** A run split in two. */
  lemma {:induction false} RunSplit(w: World, a: seq<Effect>, b: seq<Effect>, dims: nat)
    ensures var s := Run(w, a, dims);
            Run(w, a + b, dims) == if s.Done? then Run(s.world, b, dims) else s
    decreases |a|
  {
    if a == [] {
      assert a + b == b;
    } else {
      assert (a + b)[1..] == a[1..] + b;
      var s := Exec(w, a[0], dims);
      if s.Done? { RunSplit(s.world, a[1..], b, dims); }
    }
  }

  lemma RunOne(w: World, a: Effect, dims: nat)
    ensures Run(w, [a], dims) == Exec(w, a, dims)
  {
    hide Exec;
    assert [a][1..] == [];
  }

  /** Runs of at most three effects, written out. */
  lemma {:induction false} ShortRuns(w: World, a: Effect, b: Effect, c: Effect, dims: nat)
    ensures Run(w, [], dims) == Done(w) && Run(w, [a], dims) == Exec(w, a, dims)
    ensures var s := Exec(w, a, dims);
            && Run(w, [a, b], dims) == (if s.Done? then Exec(s.world, b, dims) else s)
            && Run(w, [a, b, c], dims) == (if s.Done? then Run(s.world, [b, c], dims) else s)
  {
    hide Exec;
    RunOne(w, a, dims);
    RunOne(Exec(w, a, dims).world, b, dims);
    assert [a, b][1..] == [b] && [a, b, c][1..] == [b, c];
  }

  /** The trace lists what every cut of the run leaves behind. */
  lemma {:induction false} TraceListsCuts(w: World, effects: seq<Effect>, dims: nat, k: nat)
    requires k < |Trace(w, effects, dims)|
    ensures Trace(w, effects, dims)[k] == Run(w, effects[..k + 1], dims).world
    decreases |effects|
  {
    hide Exec;
    var s := Exec(w, effects[0], dims);
    assert effects[..k + 1][1..] == effects[1..][..k];
    if k == 0 {
      assert effects[1..][..0] == [];
    } else {
      TraceListsCuts(s.world, effects[1..], dims, k - 1);
    }
  }

  /** Every row's embedding has the right dimension; requests are validated before they reach the journal. */
  ghost predicate RightRows(db: Db, dims: nat) {
    forall id :: id in db.memories ==> |db.memories[id].embedding| == dims
  }

  /** The index holds exactly the embeddings of the Active rows. */
  ghost predicate Visible(w: World) {
    w.index == ActiveEmbeddings(w.db)
  }
}
