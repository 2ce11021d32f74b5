/** The adapter in the place of the specification index: it follows the journal's effects, and what it returns are
    the Active rows. */
module Serving {
  import opened Options
  import opened TopK
  import opened Pools
  import opened Hnsw
  import opened VivyIndex
  import opened Repository
  import opened Adapter
  import opened Journal
  import opened Coordinator

  predicate IndexEffect(e: Effect) {
    e.IndexUpsert? || e.IndexRemove? || e.IndexRebuild?
  }

  /** No vector of the effect has a wrong dimension; the journal's requests are validated first. */
  predicate RightSized(e: Effect, dims: nat) {
    e.IndexUpsert? ==> RightDims(e.items, dims)
  }

  /** The numbers that are left suffice for the effect. */
  predicate HasRoom(index: VivyVectorIndex, db: Db, e: Effect)
    reads index
  {
    && (e.IndexUpsert? ==> index.nextNumber + |e.items| <= U64_MAX)
    && (e.IndexRebuild? ==> |db.memories| < U64_MAX)
  }

  lemma {:induction false} RightBatch(model: Vectors, items: seq<(string, seq<real>)>, dims: nat)
    requires RightDims(items, dims)
    ensures StoppingBatch(model, items, dims) == UpsertAll(model, items)
  {
    StoppingBatchKeepsPrefix(model, items, dims);
    assert items[..|items|] == items;
  }

  /** Any index effect of the journal, carried out by the adapter: the map that it stands for becomes the index of
      the specification, and the effect succeeds as it does there. */
  method Perform(index: VivyVectorIndex, coordinator: JournalCoordinator, e: Effect, draw: Draws)
    returns (r: Result<()>)
    requires index.Valid() && IndexEffect(e) && HasRoom(index, coordinator.repo.db, e)
    modifies index, index.inner, index.inner.shards
    ensures index.Valid()
    ensures RightSized(e, index.dims) ==>
              var s := Exec(World(coordinator.repo.db, old(index.model)), e, index.dims);
              s.Done? && r.Ok? && index.model == s.world.index
    ensures !RightSized(e, index.dims) ==> r == Result.DimensionMismatch && index.model == old(index.model)
  {
    hide VivyVectorIndex.Valid, UpsertAll, StoppingBatch;
    match e {
      case IndexUpsert(items) =>
        if RightDims(items, index.dims) { RightBatch(index.model, items, index.dims); }
        r := index.UpsertBatch(items, draw);
      case IndexRemove(ids) =>
        RemoveAll(index, ids);
        return Ok(());
      case IndexRebuild =>
        var records := coordinator.ActiveList();
        RebuiltFits(records, ActiveEmbeddings(coordinator.repo.db), index.dims);
        NoMoreThanRows(coordinator.repo.db, records);
        index.Rebuild(records, draw);
        return Ok(());
    }
  }

  /** The default `remove_batch`, one tombstone after the other. */
  method RemoveAll(index: VivyVectorIndex, ids: seq<string>)
    requires index.Valid()
    modifies index
    ensures index.Valid() && index.model == old(index.model) - IdSet(ids)
    ensures index.inner == old(index.inner)
  {
    hide VivyVectorIndex.Valid, IdSet;
    NoIds();
    for i := 0 to |ids|
      invariant index.Valid() && index.inner == old(index.inner)
      invariant index.model == old(index.model) - IdSet(ids[..i])
    {
      IdSetGrows(ids, i);
      index.Remove(ids[i]);
    }
    assert ids[..|ids|] == ids;
  }

  lemma NoIds()
    ensures IdSet([]) == {}
  {
  }

  lemma NoMoreThanRows(db: Db, records: seq<(string, seq<real>)>)
    requires forall i, j :: 0 <= i < j < |records| ==> records[i].0 != records[j].0
    requires IdsIn(records) == ActiveEmbeddings(db).Keys
    ensures |records| <= |db.memories|
  {
    DistinctItemsCount(records);
    assert ActiveEmbeddings(db).Keys <= db.memories.Keys;
    SubsetSize(ActiveEmbeddings(db).Keys, db.memories.Keys);
  }

  lemma SubsetSize<T>(a: set<T>, b: set<T>)
    requires a <= b
    ensures |a| <= |b| && (|a| == |b| ==> a == b)
  {
    assert b == a + (b - a);
  }

  lemma {:induction false} DistinctItemsCount(records: seq<(string, seq<real>)>)
    requires forall i, j :: 0 <= i < j < |records| ==> records[i].0 != records[j].0
    ensures |IdsIn(records)| == |records|
  {
    if records == [] {
      assert IdsIn(records) == {};
    } else {
      var n := |records| - 1;
      DistinctItemsCount(records[..n]);
      assert records == records[..n] + [records[n]];
      IdsInAppend(records[..n], records[n]);
      assert records[n].0 !in IdsIn(records[..n]);
    }
  }

  /** A search of the adapter, when it stands for an index that agrees with the rows: it returns Active rows only,
      and, if the engine is exact, the waste within bounds and the limit large enough, all of them. */
  method SearchRows(index: VivyVectorIndex, db: Db, query: seq<real>, limit: nat) returns (r: Result<seq<Hit>>)
    requires index.Valid()
    ensures r.Ok? <==> |query| == index.dims
    ensures r.Ok? ==> index.Serves(query, limit, r.value)
    ensures r.Ok? && Visible(World(db, index.model)) ==> IdsOf(r.value) <= ActiveEmbeddings(db).Keys
    ensures r.Ok? && Visible(World(db, index.model)) && limit >= |ActiveEmbeddings(db)| && limit >= 1 &&
            index.inner.AllExact(Fetch(limit)) &&
            |index.inner.Contents()| <= |ActiveEmbeddings(db)| + 2 * limit + 10 ==>
              IdsOf(r.value) == ActiveEmbeddings(db).Keys
  {
    hide IdsOf, HitsOrdered, LiveIds, Pool, HnswIndex.ExactFor, VivyIndex.Contents, Best;
    r := index.Search(query, limit);
    if r.Ok? && Visible(World(db, index.model)) {
      DistinctIdsCount(r.value);
      SubsetSize(IdsOf(r.value), ActiveEmbeddings(db).Keys);
    }
  }
}
