/** The brute-force index: the correctness oracle of the graph index. */
module Flat {
  import opened Options
  import opened TopK
  import opened Pools

  class FlatIndex {
    const metric: Metric
    var vectors: seq<seq<real>>
    var ids: seq<nat>

    ghost predicate Valid()
      reads this
    {
      |vectors| == |ids|
    }

    function Stored(): (entries: seq<Entry>)
      requires Valid()
      reads this
      ensures |entries| == |ids| && forall i :: 0 <= i < |ids| ==> entries[i] == Entry(ids[i], vectors[i])
    {
      Zip(ids, vectors)
    }

    constructor (metric: Metric)
      ensures Valid() && Stored() == [] && this.metric == metric
    {
      this.metric := metric;
      vectors, ids := [], [];
    }

    method Insert(id: nat, vector: seq<real>)
      requires Valid()
      modifies this
      ensures Valid() && Stored() == old(Stored()) + [Entry(id, vector)]
    {
      ids := ids + [id];
      vectors := vectors + [vector];
    }

    /** Full scan, sort, truncate.  The scan measures from the stored vector to the query. */
    method Search(query: seq<real>, k: nat) returns (r: seq<Scored>)
      requires Valid()
      ensures IsTopK(r, Pool(Flip(metric), Stored(), query, None), k)
    {
      var results := ScoreAll(Flip(metric), Stored(), query);
      RetainAll(results);
      var sorted := SortByDistance(results);
      TruncatedSortIsTopK(sorted, multiset(results), k);
      r := sorted[..Min(k, |sorted|)];
    }
  }

  function Zip(ids: seq<nat>, vectors: seq<seq<real>>): (entries: seq<Entry>)
    requires |ids| == |vectors|
    ensures |entries| == |ids| && forall i :: 0 <= i < |ids| ==> entries[i] == Entry(ids[i], vectors[i])
  {
    seq(|ids|, i requires 0 <= i < |ids| => Entry(ids[i], vectors[i]))
  }

  /** The metric with its arguments exchanged. */
  function Flip(metric: Metric): (flipped: Metric)
    ensures forall a, b :: flipped(a, b) == metric(b, a)
  {
    (a, b) => metric(b, a)
  }

  ghost predicate Symmetric(metric: Metric) {
    forall a, b :: metric(a, b) == metric(b, a)
  }

  /** The stored pairs that the filter lets through. */
  function Kept(entries: seq<Entry>, filter: Option<set<nat>>): seq<Entry> {
    if entries == [] then []
    else (if Passes(filter, entries[0].id) then [entries[0]] else []) + Kept(entries[1..], filter)
  }

  lemma {:induction false} FilteringCommutes(metric: Metric, entries: seq<Entry>, query: seq<real>,
                                             filter: Option<set<nat>>)
    requires Symmetric(metric)
    ensures Retain(ScoreAll(metric, entries, query), filter) == ScoreAll(Flip(metric), Kept(entries, filter), query)
  {
    if entries == [] {
    } else {
      var rest := entries[1..];
      FilteringCommutes(metric, rest, query, filter);
      ScoresSplit(metric, entries, query);
      RetainUnfolds(ScoreAll(metric, entries, query), filter);
      hide Retain;
      var head := if Passes(filter, entries[0].id) then [entries[0]] else [];
      ScoresAppend(Flip(metric), head, Kept(rest, filter), query);
      assert Kept(entries, filter) == head + Kept(rest, filter);
      hide Kept;
      HeadScores(metric, entries[0], query, filter);
    }
  }

  lemma ScoresSplit(metric: Metric, entries: seq<Entry>, query: seq<real>)
    requires entries != []
    ensures ScoreAll(metric, entries, query)[1..] == ScoreAll(metric, entries[1..], query)
  {
  }

  lemma ScoresAppend(metric: Metric, a: seq<Entry>, b: seq<Entry>, query: seq<real>)
    ensures ScoreAll(metric, a + b, query) == ScoreAll(metric, a, query) + ScoreAll(metric, b, query)
  {
  }

  lemma RetainUnfolds(s: seq<Scored>, filter: Option<set<nat>>)
    requires s != []
    ensures Retain(s, filter) == (if Passes(filter, s[0].key) then [s[0]] else []) + Retain(s[1..], filter)
  {
  }

  lemma HeadScores(metric: Metric, e: Entry, query: seq<real>, filter: Option<set<nat>>)
    requires Symmetric(metric)
    ensures ScoreAll(Flip(metric), if Passes(filter, e.id) then [e] else [], query) ==
            if Passes(filter, e.id) then [Scored(e.id, metric(query, e.vector))] else []
  {
  }

  /** An exact filtered answer shows the distances that the oracle finds over the passing entries alone. */
  lemma ExactAnswerMatchesOracle(metric: Metric, entries: seq<Entry>, query: seq<real>, k: nat,
                                 filter: Option<set<nat>>, r: seq<Scored>, oracle: seq<Scored>)
    requires Symmetric(metric)
    requires IsTopK(r, Pool(metric, entries, query, filter), k)
    requires IsTopK(oracle, Pool(Flip(metric), Kept(entries, filter), query, None), k)
    ensures |r| == |oracle| && forall i :: 0 <= i < |r| ==> r[i].dist == oracle[i].dist
  {
    FilteringCommutes(metric, entries, query, filter);
    RetainAll(ScoreAll(Flip(metric), Kept(entries, filter), query));
    TopKDistancesUnique(r, oracle, Pool(metric, entries, query, filter), k);
  }
}
