/** The sharded index: delta shards, sealed segments, the merging searches and the compactor. */
module VivyIndex {
  import opened Options
  import opened TopK
  import opened Pools
  import opened Filter
  import opened Hnsw
  import Linking

  const NUM_SHARDS: nat := 8
  const U64_MAX: nat := 0xFFFF_FFFF_FFFF_FFFF

  function Flatten<T>(ss: seq<seq<T>>): seq<T> {
    if ss == [] then [] else Flatten(ss[..|ss| - 1]) + ss[|ss| - 1]
  }

  lemma FlattenStep<T>(ss: seq<seq<T>>, i: nat)
    requires i < |ss|
    ensures Flatten(ss[..i + 1]) == Flatten(ss[..i]) + ss[i]
  {
    assert ss[..i + 1][..i] == ss[..i];
  }

  lemma NothingCovered(delta: seq<Entry>, ss: seq<seq<Entry>>)
    ensures delta + Flatten(ss[..0]) == delta
  {
  }

  lemma OneMoreCovered(delta: seq<Entry>, ss: seq<seq<Entry>>, i: nat)
    requires i < |ss|
    ensures delta + Flatten(ss[..i + 1]) == (delta + Flatten(ss[..i])) + ss[i]
  {
    FlattenStep(ss, i);
  }

  lemma NothingScanned(metric: Metric, ss: seq<seq<Entry>>, query: seq<real>, filter: Option<set<nat>>)
    ensures Pool(metric, Flatten(ss[..0]), query, filter) == multiset{}
  {
  }

  lemma OneMoreScanned(metric: Metric, ss: seq<seq<Entry>>, i: nat, query: seq<real>, filter: Option<set<nat>>,
                       scanned: seq<Scored>)
    requires i < |ss| && scanned == Retain(ScoreAll(metric, ss[i], query), filter)
    ensures Pool(metric, Flatten(ss[..i + 1]), query, filter) ==
            Pool(metric, Flatten(ss[..i]), query, filter) + multiset(scanned)
  {
    FlattenStep(ss, i);
    PoolAppend(metric, Flatten(ss[..i]), ss[i], query, filter);
  }

  lemma FlattenSnoc<T>(ss: seq<seq<T>>, s: seq<T>)
    ensures Flatten(ss + [s]) == Flatten(ss) + s
  {
    assert (ss + [s])[..|ss|] == ss;
  }

  lemma {:induction false} FlattenGrow(ss: seq<seq<Entry>>, i: nat, e: Entry)
    requires i < |ss|
    ensures multiset(Flatten(ss[i := ss[i] + [e]])) == multiset(Flatten(ss)) + multiset{e}
  {
    var n := |ss| - 1;
    var tt := ss[i := ss[i] + [e]];
    if i == n {
      assert tt[..n] == ss[..n];
    } else {
      assert tt[..n] == ss[..n][i := ss[..n][i] + [e]];
      FlattenGrow(ss[..n], i, e);
    }
  }

  lemma GrownContents(ss: seq<seq<Entry>>, i: nat, e: Entry, rest: seq<Entry>)
    requires i < |ss|
    ensures multiset(Flatten(ss[i := ss[i] + [e]]) + rest) == multiset(Flatten(ss) + rest) + multiset{e}
  {
    FlattenGrow(ss, i, e);
  }

  lemma {:induction false} FlattenEmpty(ss: seq<seq<Entry>>)
    requires forall i :: 0 <= i < |ss| ==> ss[i] == []
    ensures Flatten(ss) == []
  {
    if ss == [] {
    } else {
      FlattenEmpty(ss[..|ss| - 1]);
    }
  }

  lemma {:induction false} PartOfFlatten<T>(ss: seq<seq<T>>, i: nat)
    requires i < |ss| && ss[i] != []
    ensures Flatten(ss) != []
  {
    var n := |ss| - 1;
    if i < n { PartOfFlatten(ss[..n], i); }
  }

  lemma {:induction false} PartIsShorter<T>(ss: seq<seq<T>>, i: nat)
    requires i < |ss|
    ensures |ss[i]| <= |Flatten(ss)|
  {
    var n := |ss| - 1;
    if i < n { PartIsShorter(ss[..n], i); }
  }

  lemma NothingFlat<T>()
    ensures Flatten<T>([]) == []
  {
  }

  /** The scan of one sealed segment. */
  method ScanSegment(metric: Metric, segment: seq<Entry>, query: seq<real>, filter: Option<set<nat>>)
    returns (results: seq<Scored>)
    ensures results == Retain(ScoreAll(metric, segment, query), filter)
  {
    results := [];
    for i := 0 to |segment|
      invariant results == Retain(ScoreAll(metric, segment[..i], query), filter)
    {
      var e := segment[i];
      var next := Scored(e.id, metric(query, e.vector));
      assert ScoreAll(metric, segment[..i + 1], query) == ScoreAll(metric, segment[..i], query) + [next];
      RetainAppend(ScoreAll(metric, segment[..i], query), [next], filter);
      if Passes(filter, e.id) {
        results := results + [next];
      }
    }
    assert segment[..|segment|] == segment;
  }

  ghost predicate AllBelow(entries: seq<Entry>, n: nat) {
    forall e :: e in entries ==> e.id < n
  }

  /** Entries below a bound stay below it, if the new identifier is below it too. */
  ghost predicate StaysBelow(before: seq<Entry>, after: seq<Entry>, id: nat) {
    forall n: nat, m: nat :: AllBelow(before, n) && n <= m && id < m ==> AllBelow(after, m)
  }

  lemma BelowBoth(before: seq<Entry>, after: seq<Entry>, id: nat, n: nat, m: nat)
    requires StaysBelow(before, after, id)
    ensures AllBelow(before, n) && n <= m && id < m ==> AllBelow(after, m)
  {
    hide AllBelow;
  }

  lemma AllBelowGrows(before: seq<Entry>, after: seq<Entry>, e: Entry)
    requires multiset(after) == multiset(before) + multiset{e}
    ensures StaysBelow(before, after, e.id)
  {
    forall n: nat, m: nat | AllBelow(before, n) && n <= m && e.id < m ensures AllBelow(after, m) {
      forall x | x in after ensures x.id < m {
        assert x in multiset(after);
      }
    }
  }

  lemma SealKeepsContents(delta: seq<Entry>, sealed: seq<seq<Entry>>)
    ensures multiset([] + Flatten(sealed + [delta])) == multiset(delta + Flatten(sealed))
  {
    FlattenSnoc(sealed, delta);
  }

  /** `fetch_add(1)` on a 64-bit counter. */
  function WrappingNext(n: nat): nat {
    if n >= U64_MAX then 0 else n + 1
  }

  method NewShards(dims: nat, metric: Metric) returns (list: seq<HnswIndex>)
    ensures |list| == NUM_SHARDS && fresh(list)
    ensures forall i, j :: 0 <= i < j < |list| ==> list[i] != list[j]
    ensures forall i :: 0 <= i < |list| ==>
              list[i].Valid() && list[i].ids == [] && list[i].dims == dims && list[i].metric == metric
  {
    hide HnswIndex.Valid, HnswIndex.Rows, HnswIndex.ExactFor;
    list := [];
    for n := 0 to NUM_SHARDS
      invariant |list| == n && fresh(list)
      invariant forall i, j :: 0 <= i < j < n ==> list[i] != list[j]
      invariant forall i :: 0 <= i < n ==>
        list[i].Valid() && list[i].ids == [] && list[i].dims == dims && list[i].metric == metric
    {
      var shard := new HnswIndex(dims, metric);
      list := list + [shard];
    }
  }

  class VivyIndex {
    const dims: nat
    const metric: Metric
    const shardOf: nat -> nat
    const shards: seq<HnswIndex>
    const filterIndex: FilterIndex
    var sealed: seq<seq<Entry>>
    var nextId: nat

    ghost predicate ValidShards()
      reads shards
    {
      && |shards| == NUM_SHARDS
      && (forall i, j :: 0 <= i < j < |shards| ==> shards[i] != shards[j])
      && forall i :: 0 <= i < |shards| ==> shards[i].Valid() && shards[i].dims == dims && shards[i].metric == metric
    }

    ghost predicate Valid()
      reads this, shards
      ensures Valid() ==> ValidShards()
    {
      ValidShards() && nextId <= U64_MAX
    }

    /** The contents of the first n shards. */
    ghost function SnapsUpTo(n: nat): (ss: seq<seq<Entry>>)
      requires n <= |shards| && forall i :: 0 <= i < |shards| ==> shards[i].Rows()
      reads shards
      ensures |ss| == n && forall i :: 0 <= i < n ==> ss[i] == shards[i].Snapshot()
    {
      if n == 0 then [] else SnapsUpTo(n - 1) + [shards[n - 1].Snapshot()]
    }

    ghost function Snaps(): (ss: seq<seq<Entry>>)
      requires forall i :: 0 <= i < |shards| ==> shards[i].Rows()
      reads shards
      ensures |ss| == |shards| && forall i :: 0 <= i < |shards| ==> ss[i] == shards[i].Snapshot()
    {
      SnapsUpTo(|shards|)
    }

    /** Everything searchable: the delta shards, then the sealed segments. */
    ghost function Contents(): seq<Entry>
      requires ValidShards()
      reads this`sealed, shards
    {
      Flatten(Snaps()) + Flatten(sealed)
    }

    ghost predicate AllExact(k: nat)
      reads shards
    {
      forall i :: 0 <= i < |shards| ==> shards[i].ExactFor(k)
    }

    ghost predicate AllWithinWidestBeam(k: nat)
      reads shards
    {
      forall i :: 0 <= i < |shards| ==> shards[i].WithinWidestBeam(k)
    }

    /** Every stored identifier lies below the next automatic one. */
    ghost predicate HighWater()
      requires ValidShards()
      reads this, shards
    {
      AllBelow(Contents(), nextId)
    }

    constructor (dims: nat, metric: Metric, shardOf: nat -> nat)
      ensures Valid() && HighWater() && Contents() == [] && this.dims == dims && this.metric == metric
      ensures fresh(shards) && fresh(filterIndex) && filterIndex.index == map[]
    {
      hide HnswIndex.Valid, ValidShards, HighWater, Contents, HnswIndex.Rows, Snaps, Flatten;
      this.dims, this.metric, this.shardOf := dims, metric, shardOf;
      var list := NewShards(dims, metric);
      shards := list;
      filterIndex := new FilterIndex();
      sealed, nextId := [], 1;
      new;
      NothingStored();
    }

    /** An engine with nothing in it. */
    lemma NothingStored()
      requires |shards| == NUM_SHARDS && forall i, j :: 0 <= i < j < |shards| ==> shards[i] != shards[j]
      requires forall i :: 0 <= i < |shards| ==>
                 shards[i].Valid() && shards[i].ids == [] && shards[i].dims == dims && shards[i].metric == metric
      requires sealed == []
      ensures ValidShards() && Contents() == [] && HighWater()
    {
      hide HnswIndex.Valid;
      assert ValidShards();
      FlattenEmpty(Snaps());
    }

    function ShardIdx(id: nat): (s: nat)
      ensures s < NUM_SHARDS
    {
      shardOf(id) % NUM_SHARDS
    }

    /** The entry is the last of the shard that its id is hashed to; the others are as before. */
    ghost predicate Joins(before: seq<seq<Entry>>, after: seq<seq<Entry>>, e: Entry) {
      var s := ShardIdx(e.id);
      s < |before| && after == before[s := before[s] + [e]]
    }

    /** One shard takes the entry; the others are as before. */
    method InsertIntoShard(s: nat, id: nat, vector: seq<real>, level: nat)
      requires ValidShards() && s < NUM_SHARDS && |vector| == dims
      modifies shards
      ensures ValidShards()
      ensures forall i :: 0 <= i < |shards| ==>
                shards[i].Snapshot() ==
                if i == s then old(shards[i].Snapshot()) + [Entry(id, vector)] else old(shards[i].Snapshot())
    {
      hide HnswIndex.Valid, HnswIndex.Snapshot, HnswIndex.Rows, Linking.Progress, Linking.Grown, HnswIndex.AllDistances;
      shards[s].Insert(id, vector, level);
      forall i | 0 <= i < |shards| && i != s
        ensures shards[i].Valid() && shards[i].Snapshot() == old(shards[i].Snapshot())
      {
        assert shards[i] != shards[s];
      }
    }

    /** The write to the id's shard that ends every kind of insertion. */
    method Publish(id: nat, vector: seq<real>, level: nat)
      requires ValidShards() && |vector| == dims
      modifies shards
      ensures ValidShards()
      ensures Joins(old(Snaps()), Snaps(), Entry(id, vector))
      ensures multiset(Contents()) == multiset(old(Contents())) + multiset{Entry(id, vector)}
      ensures StaysBelow(old(Contents()), Contents(), id)
    {
      hide HnswIndex.Valid, HnswIndex.Rows, SnapsUpTo, Snaps, Flatten, AllBelow;
      ghost var before, rest := Snaps(), Flatten(sealed);
      ghost var entries := Contents();
      var s := ShardIdx(id);
      InsertIntoSnaps(s, id, vector, level);
      GrownContents(before, s, Entry(id, vector), rest);
      AllBelowGrows(entries, Contents(), Entry(id, vector));
    }

    method InsertIntoSnaps(s: nat, id: nat, vector: seq<real>, level: nat)
      requires ValidShards() && s < NUM_SHARDS && |vector| == dims
      modifies shards
      ensures ValidShards() && Snaps() == old(Snaps())[s := old(Snaps())[s] + [Entry(id, vector)]]
    {
      hide HnswIndex.Valid, HnswIndex.Snapshot, HnswIndex.Rows, SnapsUpTo, Snaps;
      ghost var before := Snaps();
      InsertIntoShard(s, id, vector, level);
      ghost var after := Snaps();
      forall i | 0 <= i < |shards| ensures after[i] == before[s := before[s] + [Entry(id, vector)]][i] {
        assert before[i] == old(shards[i].Snapshot());
      }
      assert after == before[s := before[s] + [Entry(id, vector)]];
    }

    method SetCounter(n: nat)
      requires Valid() && n <= U64_MAX
      modifies this`nextId
      ensures nextId == n && Valid() && Contents() == old(Contents()) && Snaps() == old(Snaps())
    {
      hide ValidShards, Contents, Snaps;
      nextId := n;
    }

    /** `insert`: the identifier is drawn from the counter, which wraps at 64 bits. */
    method Insert(vector: seq<real>, level: nat) returns (r: Result<nat>)
      requires Valid()
      modifies this`nextId, shards
      ensures Valid()
      ensures |vector| != dims ==> r == DimensionMismatch && Contents() == old(Contents()) && nextId == old(nextId)
      ensures |vector| == dims ==> r == Ok(old(nextId))
      ensures |vector| == dims ==>
                multiset(Contents()) == multiset(old(Contents())) + multiset{Entry(old(nextId), vector)}
      ensures |vector| == dims ==>
                nextId == WrappingNext(old(nextId)) && Joins(old(Snaps()), Snaps(), Entry(old(nextId), vector))
      ensures r.Ok? && old(HighWater()) ==> AllBelow(old(Contents()), r.value)
      ensures old(HighWater()) && old(nextId) < U64_MAX ==> HighWater()
    {
      if |vector| != dims {
        return DimensionMismatch;
      }
      hide HnswIndex.Valid, ValidShards, Contents, AllBelow, StaysBelow, Joins, Snaps;
      ghost var before := Contents();
      var id := nextId;
      SetCounter(WrappingNext(id));
      Publish(id, vector, level);
      BelowBoth(before, Contents(), id, id, nextId);
      return Ok(id);
    }

    /** `insert_with_id`: the counter is raised above the explicit identifier. */
    method InsertWithId(id: nat, vector: seq<real>, level: nat) returns (r: Result<()>)
      requires Valid() && id <= U64_MAX
      modifies this`nextId, shards
      ensures Valid()
      ensures |vector| != dims ==> r == DimensionMismatch && Contents() == old(Contents()) && nextId == old(nextId)
      ensures |vector| == dims ==> r == Ok(())
      ensures |vector| == dims ==> multiset(Contents()) == multiset(old(Contents())) + multiset{Entry(id, vector)}
      ensures |vector| == dims ==> Joins(old(Snaps()), Snaps(), Entry(id, vector))
      ensures |vector| == dims ==> nextId == Max(old(nextId), Min(id + 1, U64_MAX))
      ensures old(HighWater()) && id < U64_MAX ==> HighWater()
    {
      if |vector| != dims {
        return DimensionMismatch;
      }
      hide HnswIndex.Valid, ValidShards, Contents, AllBelow, StaysBelow, Joins, Snaps;
      ghost var before := Contents();
      SetCounter(Max(nextId, Min(id + 1, U64_MAX)));
      Publish(id, vector, level);
      BelowBoth(before, Contents(), id, old(nextId), nextId);
      return Ok(());
    }

    /** One reply of every shard, each beginning at its own end of descent. */
    ghost predicate AllReply(query: seq<real>, k: nat, filter: Option<set<nat>>, answers: seq<seq<Scored>>,
                             ends: seq<nat>)
      requires ValidShards()
      reads this, shards
    {
      && |answers| == |ends| == |shards|
      && forall i :: 0 <= i < |shards| ==> shards[i].Replies(query, k, filter, ends[i], answers[i])
    }

    /** The k nearest of the replies of all shards and of everything sealed. */
    ghost predicate Merges(query: seq<real>, k: nat, filter: Option<set<nat>>, r: seq<Scored>)
      requires ValidShards()
      reads this, shards
    {
      exists answers: seq<seq<Scored>>, ends: seq<nat> ::
        && AllReply(query, k, filter, answers, ends)
        && IsTopK(r, multiset(Flatten(answers)) + Pool(metric, Flatten(sealed), query, filter), k)
    }

    lemma MergeOf(query: seq<real>, k: nat, filter: Option<set<nat>>, answers: seq<seq<Scored>>, ends: seq<nat>,
                  r: seq<Scored>)
      requires ValidShards() && AllReply(query, k, filter, answers, ends)
      requires IsTopK(r, multiset(Flatten(answers)) + Pool(metric, Flatten(sealed), query, filter), k)
      ensures Merges(query, k, filter, r)
    {
      hide AllReply, IsTopK, Pool, Flatten, ValidShards;
    }

    lemma RepliesAreDetermined(query: seq<real>, k: nat, filter: Option<set<nat>>, answers: seq<seq<Scored>>,
                               ends: seq<nat>, answers': seq<seq<Scored>>, ends': seq<nat>)
      requires ValidShards()
      requires AllReply(query, k, filter, answers, ends) && AllReply(query, k, filter, answers', ends')
      ensures answers == answers'
    {
      hide HnswIndex.Valid, HnswIndex.Replies;
      forall i | 0 <= i < |shards| ensures answers[i] == answers'[i] {
        shards[i].AnswerIsDetermined(query, k, filter, ends[i], answers[i], ends'[i], answers'[i]);
      }
    }

    /** The distances of the answer are determined, position by position. */
    lemma MergeIsDetermined(query: seq<real>, k: nat, filter: Option<set<nat>>, r: seq<Scored>, r': seq<Scored>)
      requires ValidShards() && Merges(query, k, filter, r) && Merges(query, k, filter, r')
      ensures |r| == |r'| && forall i :: 0 <= i < |r| ==> r[i].dist == r'[i].dist
    {
      hide ValidShards, AllReply, IsTopK, Pool, Flatten;
      var answers, ends :|
        AllReply(query, k, filter, answers, ends) &&
        IsTopK(r, multiset(Flatten(answers)) + Pool(metric, Flatten(sealed), query, filter), k);
      var answers', ends' :|
        AllReply(query, k, filter, answers', ends') &&
        IsTopK(r', multiset(Flatten(answers')) + Pool(metric, Flatten(sealed), query, filter), k);
      RepliesAreDetermined(query, k, filter, answers, ends, answers', ends');
      TopKDistancesUnique(r, r', multiset(Flatten(answers)) + Pool(metric, Flatten(sealed), query, filter), k);
    }

    lemma SomeShardAnswers(query: seq<real>, k: nat, answers: seq<seq<Scored>>, ends: seq<nat>)
      requires ValidShards() && AllReply(query, k, None, answers, ends) && k >= 1
      ensures Flatten(Snaps()) != [] ==> Flatten(answers) != []
    {
      hide HnswIndex.Valid;
      if i :| 0 <= i < |shards| && shards[i].ids != [] {
        assert shards[i].Replies(query, k, None, ends[i], answers[i]);
        PartOfFlatten(answers, i);
      } else {
        FlattenEmpty(Snaps());
      }
    }

    /** A search of an index that is not empty finds something. */
    lemma UnfilteredMergeFindsSome(query: seq<real>, k: nat, r: seq<Scored>)
      requires ValidShards() && Merges(query, k, None, r) && k >= 1 && Contents() != []
      ensures r != []
    {
      hide ValidShards, AllReply, Flatten, Snaps, ScoreAll;
      var answers, ends :|
        AllReply(query, k, None, answers, ends) &&
        IsTopK(r, multiset(Flatten(answers)) + Pool(metric, Flatten(sealed), query, None), k);
      SomeShardAnswers(query, k, answers, ends);
      RetainAll(ScoreAll(metric, Flatten(sealed), query));
      var pool := multiset(Flatten(answers)) + Pool(metric, Flatten(sealed), query, None);
      if Flatten(answers) != [] {
        assert Flatten(answers)[0] in pool;
      } else {
        assert |Flatten(sealed)| > 0;
      }
      assert |pool| > 0;
    }

    /** What the first n replies stand for. */
    lemma {:induction false} RepliesStand(query: seq<real>, k: nat, filter: Option<set<nat>>, answers: seq<seq<Scored>>,
                                          ends: seq<nat>, n: nat, exact: bool)
      requires ValidShards() && AllReply(query, k, filter, answers, ends) && n <= |shards|
      requires exact ==> forall i :: 0 <= i < n ==>
                 shards[i].ExactFor(k) || (|answers[i]| < k && shards[i].WithinWidestBeam(k))
      ensures multiset(Flatten(answers[..n])) <= Pool(metric, Flatten(Snaps()[..n]), query, filter)
      ensures exact ==>
                StandsFor(multiset(Flatten(answers[..n])), Pool(metric, Flatten(Snaps()[..n]), query, filter), k)
      decreases n
    {
      hide Pool, StandsFor, IsTopK, Snaps, Flatten, HnswIndex.ExactFor, HnswIndex.WithinWidestBeam, HnswIndex.Replies,
           HnswIndex.Snapshot, SortedByDist;
      var snaps := Snaps();
      if n == 0 {
        assert answers[..0] == [] && snaps[..0] == [];
        NothingFlat<Scored>();
        EmptyPool(metric, query, filter, k);
      } else {
        var i := n - 1;
        RepliesStand(query, k, filter, answers, ends, i, exact);
        shards[i].ReplyIsPart(query, k, filter, ends[i], answers[i]);
        if exact { shards[i].ReplyIsExact(query, k, filter, ends[i], answers[i]); }
        FlattenStep(answers, i);
        FlattenStep(snaps, i);
        AddAnswer(metric, query, filter, k, Flatten(answers[..i]), Flatten(snaps[..i]), answers[i], snaps[i], exact);
      }
    }

    lemma ShortTogetherShortEach(answers: seq<seq<Scored>>, k: nat)
      requires |Flatten(answers)| < k
      ensures forall i :: 0 <= i < |answers| ==> |answers[i]| < k
    {
      forall i | 0 <= i < |answers| ensures |answers[i]| < k {
        PartIsShorter(answers, i);
      }
    }

    /** The loop over the shards. */
    method AskShards(query: seq<real>, k: nat, filter: Option<set<nat>>)
      returns (results: seq<Scored>, ghost answers: seq<seq<Scored>>, ghost ends: seq<nat>)
      requires ValidShards()
      ensures AllReply(query, k, filter, answers, ends) && results == Flatten(answers)
      ensures multiset(results) <= Pool(metric, Flatten(Snaps()), query, filter)
      ensures AllExact(k) || (|results| < k && AllWithinWidestBeam(k)) ==>
                StandsFor(multiset(results), Pool(metric, Flatten(Snaps()), query, filter), k)
    {
      hide Pool, StandsFor, IsTopK, Snaps, Flatten, HnswIndex.Valid, HnswIndex.Snapshot, HnswIndex.ExactFor,
           HnswIndex.WithinWidestBeam, HnswIndex.Replies, SortedByDist;
      results, answers, ends := [], [], [];
      NothingFlat<Scored>();
      for i := 0 to |shards|
        invariant |answers| == |ends| == i && results == Flatten(answers)
        invariant forall j :: 0 <= j < i ==> shards[j].Replies(query, k, filter, ends[j], answers[j])
      {
        var own, end := shards[i].SearchFiltered(query, k, filter);
        FlattenSnoc(answers, own);
        results, answers, ends := results + own, answers + [own], ends + [end];
      }
      StandForShards(query, k, filter, answers, ends);
    }

    lemma StandForShards(query: seq<real>, k: nat, filter: Option<set<nat>>, answers: seq<seq<Scored>>, ends: seq<nat>)
      requires ValidShards() && AllReply(query, k, filter, answers, ends)
      ensures multiset(Flatten(answers)) <= Pool(metric, Flatten(Snaps()), query, filter)
      ensures AllExact(k) || (|Flatten(answers)| < k && AllWithinWidestBeam(k)) ==>
                StandsFor(multiset(Flatten(answers)), Pool(metric, Flatten(Snaps()), query, filter), k)
    {
      hide Pool, StandsFor, Snaps, Flatten, HnswIndex.Valid, HnswIndex.ExactFor, HnswIndex.WithinWidestBeam,
           HnswIndex.Replies;
      var exact := AllExact(k) || (|Flatten(answers)| < k && AllWithinWidestBeam(k));
      if |Flatten(answers)| < k { ShortTogetherShortEach(answers, k); }
      RepliesStand(query, k, filter, answers, ends, |shards|, exact);
      assert answers[..|shards|] == answers && Snaps()[..|shards|] == Snaps();
    }

    /** The loop over the sealed segments, appending to the shards' answers. */
    method AskSegments(query: seq<real>, k: nat, filter: Option<set<nat>>, found: seq<Scored>, ghost delta: seq<Entry>,
                       ghost exact: bool)
      returns (results: seq<Scored>)
      requires multiset(found) <= Pool(metric, delta, query, filter)
      requires exact ==> StandsFor(multiset(found), Pool(metric, delta, query, filter), k)
      ensures multiset(results) == multiset(found) + Pool(metric, Flatten(sealed), query, filter)
      ensures |results| >= |found| && multiset(results) <= Pool(metric, delta + Flatten(sealed), query, filter)
      ensures exact ==> StandsFor(multiset(results), Pool(metric, delta + Flatten(sealed), query, filter), k)
    {
      NothingCovered(delta, sealed);
      NothingScanned(metric, sealed, query, filter);
      hide Pool, StandsFor, IsTopK, Flatten, Retain, ScoreAll;
      results := found;
      ghost var covered := delta;
      for i := 0 to |sealed|
        invariant |results| >= |found| && covered == delta + Flatten(sealed[..i])
        invariant multiset(results) == multiset(found) + Pool(metric, Flatten(sealed[..i]), query, filter)
        invariant multiset(results) <= Pool(metric, covered, query, filter)
        invariant exact ==> StandsFor(multiset(results), Pool(metric, covered, query, filter), k)
      {
        var scanned := ScanSegment(metric, sealed[i], query, filter);
        AddScan(metric, query, filter, k, results, covered, scanned, sealed[i], exact);
        OneMoreScanned(metric, sealed, i, query, filter, scanned);
        OneMoreCovered(delta, sealed, i);
        results, covered := results + scanned, covered + sealed[i];
      }
      assert sealed[..|sealed|] == sealed;
    }

    /** Collect the shards' answers and everything sealed, sort, truncate. */
    method MergeAnswers(query: seq<real>, k: nat, filter: Option<set<nat>>) returns (r: seq<Scored>)
      requires Valid()
      ensures SortedByDist(r) && |r| <= k
      ensures Merges(query, k, filter, r)
      ensures multiset(r) <= Pool(metric, Contents(), query, filter)
      ensures AllExact(k) || (|r| < k && AllWithinWidestBeam(k)) ==>
                IsTopK(r, Pool(metric, Contents(), query, filter), k)
    {
      hide Pool, StandsFor, IsTopK, AllExact, AllWithinWidestBeam, AllReply, SortedByDist, Snaps, Flatten, Merges,
           HnswIndex.Valid;
      var found, answers, ends := AskShards(query, k, filter);
      ghost var exact := AllExact(k) || (|found| < k && AllWithinWidestBeam(k));
      var results := AskSegments(query, k, filter, found, Flatten(Snaps()), exact);
      var sorted := SortByDistance(results);
      SameSize(sorted, results);
      r := sorted[..Min(k, |sorted|)];
      TruncatedSortIsTopK(sorted, multiset(results), k);
      MergeOf(query, k, filter, answers, ends, r);
      FinishMerge(results, sorted, Pool(metric, Contents(), query, filter), k, exact);
    }

    static lemma SameSize(a: seq<Scored>, b: seq<Scored>)
      requires multiset(a) == multiset(b)
      ensures |a| == |b|
    {
      assert |multiset(a)| == |a|;
    }

    static lemma EmptyPool(metric: Metric, query: seq<real>, filter: Option<set<nat>>, k: nat)
      ensures Pool(metric, Flatten([]), query, filter) == multiset{}
      ensures StandsFor(multiset{}, multiset{}, k)
    {
    }

    static lemma AddAnswer(metric: Metric, query: seq<real>, filter: Option<set<nat>>, k: nat, results: seq<Scored>,
                    entries: seq<Entry>, own: seq<Scored>, more: seq<Entry>, exact: bool)
      requires multiset(results) <= Pool(metric, entries, query, filter)
      requires multiset(own) <= Pool(metric, more, query, filter)
      requires exact ==> StandsFor(multiset(results), Pool(metric, entries, query, filter), k)
      requires exact ==> IsTopK(own, Pool(metric, more, query, filter), k)
      ensures multiset(results + own) <= Pool(metric, entries + more, query, filter)
      ensures exact ==> StandsFor(multiset(results + own), Pool(metric, entries + more, query, filter), k)
    {
      hide Pool, StandsFor, IsTopK;
      PoolAppend(metric, entries, more, query, filter);
      if exact {
        AnswerStandsForPool(own, Pool(metric, more, query, filter), k);
        StandForUnion(multiset(results), multiset(own), Pool(metric, entries, query, filter),
                      Pool(metric, more, query, filter), k);
      }
    }

    static lemma AddScan(metric: Metric, query: seq<real>, filter: Option<set<nat>>, k: nat, results: seq<Scored>,
                  entries: seq<Entry>, scanned: seq<Scored>, more: seq<Entry>, exact: bool)
      requires multiset(results) <= Pool(metric, entries, query, filter)
      requires scanned == Retain(ScoreAll(metric, more, query), filter)
      requires exact ==> StandsFor(multiset(results), Pool(metric, entries, query, filter), k)
      ensures multiset(results + scanned) <= Pool(metric, entries + more, query, filter)
      ensures exact ==> StandsFor(multiset(results + scanned), Pool(metric, entries + more, query, filter), k)
    {
      PoolAppend(metric, entries, more, query, filter);
      if exact {
        assert StandsFor(multiset(scanned), multiset(scanned), k);
        hide StandsFor;
        StandForUnion(multiset(results), multiset(scanned), Pool(metric, entries, query, filter), multiset(scanned), k);
      }
    }

    static lemma FinishMerge(results: seq<Scored>, sorted: seq<Scored>, pool: multiset<Scored>, k: nat, exact: bool)
      requires SortedByDist(sorted) && multiset(sorted) == multiset(results) && multiset(results) <= pool
      requires exact ==> StandsFor(multiset(results), pool, k)
      ensures var r := sorted[..Min(k, |sorted|)];
              SortedByDist(r) && |r| <= k && multiset(r) <= pool && (exact ==> IsTopK(r, pool, k))
    {
      TruncatedAnswer(sorted, pool, k);
      TruncatedSortIsTopK(sorted, multiset(results), k);
      if exact {
        MergedAnswer(sorted[..Min(k, |sorted|)], multiset(results), pool, k);
      }
    }

    /** `search`: no filter. */
    method Search(query: seq<real>, k: nat) returns (r: Result<seq<Scored>>)
      requires Valid()
      ensures r.DimensionMismatch? <==> |query| != dims
      ensures r.Ok? ==> SortedByDist(r.value) && |r.value| <= k
      ensures r.Ok? ==> Merges(query, k, None, r.value)
      ensures r.Ok? && k >= 1 && Contents() != [] ==> r.value != []
      ensures r.Ok? ==> multiset(r.value) <= Pool(metric, Contents(), query, None)
      ensures r.Ok? && (AllExact(k) || (|r.value| < k && AllWithinWidestBeam(k))) ==>
                IsTopK(r.value, Pool(metric, Contents(), query, None), k)
    {
      if |query| != dims {
        return DimensionMismatch;
      }
      hide ValidShards, Contents, Merges, Pool, IsTopK, SortedByDist, AllExact, AllWithinWidestBeam;
      var hits := MergeAnswers(query, k, None);
      if k >= 1 && Contents() != [] { UnfilteredMergeFindsSome(query, k, hits); }
      return Ok(hits);
    }

    /** `search_filtered`: `passing` is the set of identifiers that satisfy the expression. */
    method SearchFiltered(query: seq<real>, k: nat, expr: Option<FilterExpr>)
      returns (r: Result<seq<Scored>>, ghost passing: Option<set<nat>>)
      requires Valid()
      ensures r.DimensionMismatch? <==> |query| != dims
      ensures passing.None? <==> expr.None?
      ensures passing.Some? ==> forall id :: id in passing.value <==> Matches(filterIndex.index, expr.value, id)
      ensures r.Ok? ==> SortedByDist(r.value) && |r.value| <= k
      ensures r.Ok? ==> if passing == Some({}) then r.value == [] else Merges(query, k, passing, r.value)
      ensures r.Ok? ==> multiset(r.value) <= Pool(metric, Contents(), query, passing)
      ensures r.Ok? && (AllExact(k) || (|r.value| < k && AllWithinWidestBeam(k))) ==>
                IsTopK(r.value, Pool(metric, Contents(), query, passing), k)
    {
      var filter: Option<set<nat>> := None;
      if expr.Some? {
        var bitmap := filterIndex.Evaluate(expr.value);
        filter := Some(bitmap);
      }
      passing := filter;
      if |query| != dims {
        return DimensionMismatch, passing;
      }
      if filter == Some({}) {
        NothingPasses(metric, Contents(), query);
        return Ok([]), passing;
      }
      var hits := MergeAnswers(query, k, filter);
      return Ok(hits), passing;
    }

    static lemma NothingPasses(metric: Metric, entries: seq<Entry>, query: seq<real>)
      ensures Pool(metric, entries, query, Some({})) == multiset{}
    {
      forall x: Scored ensures Pool(metric, entries, query, Some({}))[x] == 0 {
        RetainCounts(ScoreAll(metric, entries, query), Some({}), x);
      }
    }

    /** `run_compaction`: drain every shard into one new sealed segment.  Nothing is lost or duplicated, and
        afterwards every search is exact. */
    method RunCompaction()
      requires Valid()
      modifies this`sealed, shards
      ensures Valid()
      ensures multiset(Contents()) == multiset(old(Contents()))
      ensures sealed == if Flatten(old(Snaps())) == [] then old(sealed) else old(sealed) + [Flatten(old(Snaps()))]
      ensures forall i :: 0 <= i < |shards| ==> shards[i].ids == []
      ensures forall k :: AllExact(k)
    {
      hide HnswIndex.Valid, HnswIndex.Snapshot, HnswIndex.ExactFor, SnapsUpTo, Snaps, Flatten;
      ghost var before := sealed;
      var entries := DrainAll();
      FlattenEmpty(Snaps());
      SealKeepsContents(entries, before);
      if entries == [] {
        return;
      }
      sealed := sealed + [entries];
    }

    method DrainShard(s: nat) returns (entries: seq<Entry>)
      requires ValidShards() && s < NUM_SHARDS
      modifies shards[s]
      ensures ValidShards() && entries == old(shards[s].Snapshot()) && shards[s].ids == []
      ensures forall i :: 0 <= i < |shards| && i != s ==>
                shards[i].Snapshot() == old(shards[i].Snapshot()) && shards[i].ids == old(shards[i].ids)
    {
      hide HnswIndex.Valid, HnswIndex.Rows, HnswIndex.Snapshot;
      entries := shards[s].Drain();
      forall i | 0 <= i < |shards| && i != s
        ensures shards[i].Valid() && shards[i].ids == old(shards[i].ids)
        ensures shards[i].Snapshot() == old(shards[i].Snapshot())
      {
        assert shards[i] != shards[s];
      }
    }

    /** The loop that drains the shards one by one. */
    method DrainAll() returns (entries: seq<Entry>)
      requires ValidShards()
      modifies shards
      ensures ValidShards()
      ensures entries == Flatten(old(Snaps()))
      ensures forall i :: 0 <= i < |shards| ==> shards[i].ids == [] && shards[i].Snapshot() == []
      ensures forall k :: AllExact(k)
    {
      hide HnswIndex.Valid, HnswIndex.Snapshot, HnswIndex.ExactFor, HnswIndex.Rows, SnapsUpTo, Snaps;
      ghost var snaps := Snaps();
      entries := [];
      for i := 0 to |shards|
        invariant ValidShards()
        invariant entries == Flatten(snaps[..i])
        invariant forall j :: 0 <= j < i ==> shards[j].ids == []
        invariant forall j :: i <= j < |shards| ==> shards[j].Snapshot() == snaps[j]
      {
        var drained := DrainShard(i);
        FlattenStep(snaps, i);
        entries := entries + drained;
      }
      assert snaps[..|shards|] == snaps;
      forall i, k | 0 <= i < |shards| ensures shards[i].ExactFor(k) {
        shards[i].SmallIsExact(k);
      }
    }
  }
}
