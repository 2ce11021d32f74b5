/** The HNSW index: insertion with bidirectional linking and trimming, greedy descent, layer search and
    filtered search. */
module Hnsw {
  import opened Options
  import opened TopK
  import opened Pools
  import opened CandidateHeap
  import opened HnswGraph
  import opened LayerSearch
  import opened Descent
  import opened Linking

  const EF_START: nat := 100
  const EF_MAX: nat := 1000

  lemma {:induction false} RowFits(i: nat, n: nat, dims: nat)
    requires i < n
    ensures i * dims <= (i + 1) * dims <= n * dims
  {
    if i + 1 < n {
      RowFits(i, n - 1, dims);
    }
  }

  /** Row i of a flat buffer of rows of equal length. */
  function Row(vectors: seq<real>, dims: nat, n: nat, i: nat): (v: seq<real>)
    requires |vectors| == n * dims && i < n
    ensures |v| == dims
  {
    RowFits(i, n, dims);
    vectors[i * dims..(i + 1) * dims]
  }

  lemma RowAppend(vectors: seq<real>, v: seq<real>, dims: nat, n: nat, i: nat)
    requires |vectors| == n * dims && |v| == dims && i <= n
    ensures |vectors + v| == (n + 1) * dims
    ensures Row(vectors + v, dims, n + 1, i) == if i < n then Row(vectors, dims, n, i) else v
  {
    RowFits(i, n + 1, dims);
    if i < n { RowFits(i, n, dims); }
  }

  /** The distance from the query to every row. */
  function DistancesTo(metric: Metric, vectors: seq<real>, dims: nat, n: nat, query: seq<real>)
    : (ds: seq<real>)
    requires |vectors| == n * dims
    ensures |ds| == n && forall i :: 0 <= i < n ==> ds[i] == metric(query, Row(vectors, dims, n, i))
  {
    seq(n, i requires 0 <= i < n => metric(query, Row(vectors, dims, n, i)))
  }

  function Entries(vectors: seq<real>, dims: nat, ids: seq<nat>): (entries: seq<Entry>)
    requires |vectors| == |ids| * dims
    ensures |entries| == |ids|
    ensures forall i :: 0 <= i < |ids| ==> entries[i] == Entry(ids[i], Row(vectors, dims, |ids|, i))
  {
    seq(|ids|, i requires 0 <= i < |ids| => Entry(ids[i], Row(vectors, dims, |ids|, i)))
  }

  lemma EntriesAppend(vectors: seq<real>, dims: nat, ids: seq<nat>, id: nat, v: seq<real>)
    requires |vectors| == |ids| * dims && |v| == dims
    ensures |vectors + v| == |ids + [id]| * dims
    ensures Entries(vectors + v, dims, ids + [id]) == Entries(vectors, dims, ids) + [Entry(id, v)]
  {
    var n := |ids|;
    RowAppend(vectors, v, dims, n, 0);
    var longer, shorter := Entries(vectors + v, dims, ids + [id]), Entries(vectors, dims, ids) + [Entry(id, v)];
    forall i | 0 <= i < n + 1 ensures longer[i] == shorter[i] {
      RowAppend(vectors, v, dims, n, i);
    }
    assert longer == shorter;
  }

  function AllPairs(metric: Metric, vectors: seq<real>, dims: nat, n: nat): (dm: seq<seq<real>>)
    requires |vectors| == n * dims
    ensures |dm| == n
    ensures forall u :: 0 <= u < n ==> dm[u] == DistancesTo(metric, vectors, dims, n, Row(vectors, dims, n, u))
  {
    seq(n, u requires 0 <= u < n => DistancesTo(metric, vectors, dims, n, Row(vectors, dims, n, u)))
  }

  /** `closest_n`: the indices of the n nearest candidates. */
  method ClosestN(candidates: seq<Scored>, n: nat) returns (sel: seq<nat>, ghost top: seq<Scored>)
    ensures |sel| == Min(n, |candidates|)
    ensures IsTopK(top, multiset(candidates), n) && sel == KeySeq(top)
  {
    var sorted := SortByDistance(candidates);
    TruncatedSortIsTopK(sorted, multiset(candidates), n);
    top := sorted[..Min(n, |sorted|)];
    sel := KeySeq(sorted[..Min(n, |sorted|)]);
  }

  function Max(a: nat, b: nat): nat {
    if a < b then b else a
  }

  /** Node indices replaced by the identifiers stored with them. */
  function Named(ids: seq<nat>, hits: seq<Scored>): (s: seq<Scored>)
    requires forall i :: 0 <= i < |hits| ==> hits[i].key < |ids|
    ensures |s| == |hits| && forall i :: 0 <= i < |hits| ==> s[i] == Scored(ids[hits[i].key], hits[i].dist)
  {
    seq(|hits|, i requires 0 <= i < |hits| => Scored(ids[hits[i].key], hits[i].dist))
  }

  /** The hits of a beam by identifier, those that pass the filter. */
  function Results(ids: seq<nat>, hits: seq<Scored>, filter: Option<set<nat>>): seq<Scored> {
    if forall i :: 0 <= i < |hits| ==> hits[i].key < |ids| then Retain(Named(ids, hits), filter) else []
  }

  lemma ResultsOf(ids: seq<nat>, hits: seq<Scored>, filter: Option<set<nat>>)
    requires forall i :: 0 <= i < |hits| ==> hits[i].key < |ids|
    ensures Results(ids, hits, filter) == Retain(Named(ids, hits), filter)
    ensures filter.None? ==> Results(ids, hits, filter) == Named(ids, hits)
  {
    hide Retain;
    RetainAll(Named(ids, hits));
  }

  /** One beam of the search: its width, the nodes that it visited and what it kept. */
  datatype Beam = Beam(ef: nat, visited: set<nat>, hits: seq<Scored>)

  /** The beam is doubled, up to the widest, as long as fewer than k of its hits pass. */
  ghost predicate Beams(g: Adjacency, ds: seq<real>, ids: seq<nat>, k: nat, filter: Option<set<nat>>, end: nat,
                        beams: seq<Beam>) {
    && beams != [] && beams[0].ef == Max(k, EF_START)
    && (forall i :: 0 <= i < |beams| ==> FoundBy(g, ds, end, beams[i]))
    && (forall i :: 0 < i < |beams| ==> Widens(ids, k, filter, beams[i - 1], beams[i].ef))
    && Suffices(ids, k, filter, beams[|beams| - 1])
  }

  /** The beams tried so far gave too little; the next one has width `ef`. */
  ghost predicate BeamsSoFar(g: Adjacency, ds: seq<real>, ids: seq<nat>, k: nat, filter: Option<set<nat>>, end: nat,
                             beams: seq<Beam>, ef: nat) {
    && (beams != [] ==> beams[0].ef == Max(k, EF_START) && Widens(ids, k, filter, beams[|beams| - 1], ef))
    && (forall i :: 0 <= i < |beams| ==> FoundBy(g, ds, end, beams[i]))
    && forall i :: 0 < i < |beams| ==> Widens(ids, k, filter, beams[i - 1], beams[i].ef)
  }

  lemma LastBeam(g: Adjacency, ds: seq<real>, ids: seq<nat>, k: nat, filter: Option<set<nat>>, end: nat,
                 beams: seq<Beam>, r: seq<Scored>)
    requires beams != [] && Suffices(ids, k, filter, beams[|beams| - 1])
    requires var n := |beams| - 1;
             && BeamsSoFar(g, ds, ids, k, filter, end, beams[..n], beams[n].ef)
             && (n == 0 ==> beams[0].ef == Max(k, EF_START))
             && FoundBy(g, ds, end, beams[n]) && r == Cut(Results(ids, beams[n].hits, filter), k)
    ensures BeamAnswer(g, ds, ids, k, filter, end, r)
  {
    hide FoundBy, Widens, Suffices, Results, Cut;
    var n := |beams| - 1;
    forall i | 0 <= i < |beams| ensures FoundBy(g, ds, end, beams[i]) {
      if i < n { assert FoundBy(g, ds, end, beams[..n][i]); }
    }
    forall i | 0 < i < |beams| ensures Widens(ids, k, filter, beams[i - 1], beams[i].ef) {
      if i < n { assert Widens(ids, k, filter, beams[..n][i - 1], beams[..n][i].ef); }
    }
    assert Beams(g, ds, ids, k, filter, end, beams);
  }

  ghost predicate FoundBy(g: Adjacency, ds: seq<real>, end: nat, b: Beam) {
    Found(g, ds, 0, end, b.ef, b.visited, b.hits)
  }

  predicate Suffices(ids: seq<nat>, k: nat, filter: Option<set<nat>>, b: Beam) {
    |Results(ids, b.hits, filter)| >= k || b.ef >= EF_MAX
  }

  predicate Widens(ids: seq<nat>, k: nat, filter: Option<set<nat>>, b: Beam, ef: nat) {
    !Suffices(ids, k, filter, b) && ef == Min(b.ef * 2, EF_MAX)
  }

  /** The answer is what the last beam gives, cut to k. */
  ghost predicate BeamAnswer(g: Adjacency, ds: seq<real>, ids: seq<nat>, k: nat, filter: Option<set<nat>>, end: nat,
                             r: seq<Scored>) {
    exists beams: seq<Beam> ::
      Beams(g, ds, ids, k, filter, end, beams) &&
      r == Cut(Results(ids, beams[|beams| - 1].hits, filter), k)
  }

  function Cut(s: seq<Scored>, k: nat): seq<Scored> {
    s[..Min(k, |s|)]
  }

  lemma {:induction false} BeamsAgree(g: Adjacency, ds: seq<real>, ids: seq<nat>, k: nat, filter: Option<set<nat>>,
                                      end: nat, a: seq<Beam>, b: seq<Beam>, i: nat)
    requires Beams(g, ds, ids, k, filter, end, a) && Beams(g, ds, ids, k, filter, end, b) && i < |a| && i < |b|
    ensures a[i] == b[i]
  {
    hide FoundBy, Widens, Suffices;
    if i > 0 {
      BeamsAgree(g, ds, ids, k, filter, end, a, b, i - 1);
      SameWidth(ids, k, filter, a[i - 1], a[i].ef, b[i].ef);
    }
    SameWidthSameBeam(g, ds, end, a[i], b[i]);
  }

  lemma SameWidth(ids: seq<nat>, k: nat, filter: Option<set<nat>>, b: Beam, x: nat, y: nat)
    requires Widens(ids, k, filter, b, x) && Widens(ids, k, filter, b, y)
    ensures x == y
  {
  }

  lemma SameWidthSameBeam(g: Adjacency, ds: seq<real>, end: nat, a: Beam, b: Beam)
    requires FoundBy(g, ds, end, a) && FoundBy(g, ds, end, b) && a.ef == b.ef
    ensures a == b
  {
    hide Explored, Finished, KeepsNearest;
    ExplorationIsDetermined(g, ds, 0, end, a.ef, a.visited, a.hits, b.visited, b.hits);
  }

  lemma BeamsStop(g: Adjacency, ds: seq<real>, ids: seq<nat>, k: nat, filter: Option<set<nat>>, end: nat,
                  a: seq<Beam>, b: seq<Beam>)
    requires Beams(g, ds, ids, k, filter, end, a) && Beams(g, ds, ids, k, filter, end, b) && |a| <= |b|
    ensures |a| == |b|
  {
    hide FoundBy, Results;
    var n := |a| - 1;
    BeamsAgree(g, ds, ids, k, filter, end, a, b, n);
    if n + 1 < |b| {
      NotTheLast(g, ds, ids, k, filter, end, b, n);
      assert false;
    }
  }

  lemma NotTheLast(g: Adjacency, ds: seq<real>, ids: seq<nat>, k: nat, filter: Option<set<nat>>, end: nat,
                   beams: seq<Beam>, i: nat)
    requires Beams(g, ds, ids, k, filter, end, beams) && i + 1 < |beams|
    ensures !Suffices(ids, k, filter, beams[i])
  {
    hide FoundBy, Suffices;
    assert Widens(ids, k, filter, beams[i + 1 - 1], beams[i + 1].ef);
  }

  lemma BeamAnswerIsDetermined(g: Adjacency, ds: seq<real>, ids: seq<nat>, k: nat, filter: Option<set<nat>>, end: nat,
                               r: seq<Scored>, r': seq<Scored>)
    requires BeamAnswer(g, ds, ids, k, filter, end, r) && BeamAnswer(g, ds, ids, k, filter, end, r')
    ensures r == r'
  {
    hide FoundBy, Results, Suffices, Widens;
    var a: seq<Beam> :|
      Beams(g, ds, ids, k, filter, end, a) && r == Cut(Results(ids, a[|a| - 1].hits, filter), k);
    var b: seq<Beam> :|
      Beams(g, ds, ids, k, filter, end, b) && r' == Cut(Results(ids, b[|b| - 1].hits, filter), k);
    if |a| <= |b| {
      BeamsStop(g, ds, ids, k, filter, end, a, b);
    } else {
      BeamsStop(g, ds, ids, k, filter, end, b, a);
    }
    BeamsAgree(g, ds, ids, k, filter, end, a, b, |a| - 1);
  }

  /** Without a filter every hit counts, and there is one. */
  lemma UnfilteredFindsSome(g: Adjacency, ds: seq<real>, ids: seq<nat>, k: nat, end: nat, r: seq<Scored>)
    requires BeamAnswer(g, ds, ids, k, None, end, r) && |ds| == |ids| && k >= 1
    ensures r != []
  {
    hide Explored, Finished, ReachSet, Suffices, Widens, Accounted;
    var beams: seq<Beam> :|
      Beams(g, ds, ids, k, None, end, beams) && r == Cut(Results(ids, beams[|beams| - 1].hits, None), k);
    var b := beams[|beams| - 1];
    assert FoundBy(g, ds, end, b);
    forall i | 0 <= i < |b.hits| ensures b.hits[i].key < |ids| {
      assert b.hits[i] in b.hits;
    }
    RetainAll(Named(ids, b.hits));
  }

  lemma HitsFacts(g: Adjacency, ds: seq<real>, start: nat, ef: nat, visited: set<nat>, hits: seq<Scored>)
    requires Found(g, ds, 0, start, ef, visited, hits)
    ensures SortedByDist(hits) && NoRepeats(KeySeq(hits))
    ensures forall i :: 0 <= i < |hits| ==> hits[i].key < |ds| && hits[i].dist == ds[hits[i].key]
  {
    HitsDistinct(ds, visited, hits);
    forall i | 0 <= i < |hits| ensures hits[i].key < |ds| && hits[i].dist == ds[hits[i].key] {
      assert hits[i] in hits;
    }
    assert forall i, j :: 0 <= i < j < |hits| ==> Before(hits[i], hits[j]);
  }

  /** In a connected graph everything is reached from anywhere. */
  lemma ConnectedReachesAll(g: Adjacency, entries: seq<Entry>, start: nat)
    requires Connected(g, 0) && start < |g| == |entries|
    ensures |ReachSet(g, 0, start)| == |g| && Among(entries, ReachSet(g, 0, start)) == entries
  {
    assert ReachSet(g, 0, start) == Below(|g|);
    AllAmong(entries, Below(|g|));
  }

  lemma KeysInSequence(hits: seq<Scored>)
    ensures forall v :: v in Keys(hits) <==> v in KeySeq(hits)
  {
    forall v | v in Keys(hits) ensures v in KeySeq(hits) {
      var j :| 0 <= j < |hits| && hits[j].key == v;
      assert KeySeq(hits)[j] == v;
    }
  }

  lemma AmongIsPart(metric: Metric, entries: seq<Entry>, query: seq<real>, keys: set<nat>, filter: Option<set<nat>>)
    ensures Pool(metric, Among(entries, keys), query, filter) <= Pool(metric, entries, query, filter)
  {
    hide Among, Chosen, Retain;
    var all := ScoreAll(metric, entries, query);
    ScoresAmong(metric, entries, query, keys);
    ChosenWithin(all, keys, |all|);
    assert all[..|all|] == all;
    RetainPermutes(ScoreAll(metric, Among(entries, keys), query), all, filter);
  }

  /** The retained hits are the pool of the nodes that were hit. */
  lemma NamedHits(metric: Metric, entries: seq<Entry>, query: seq<real>, ids: seq<nat>, ds: seq<real>,
                  hits: seq<Scored>, filter: Option<set<nat>>)
    requires |entries| == |ids| == |ds| && SortedByDist(hits) && NoRepeats(KeySeq(hits))
    requires forall i :: 0 <= i < |ids| ==> entries[i].id == ids[i] && ds[i] == metric(query, entries[i].vector)
    requires forall i :: 0 <= i < |hits| ==> hits[i].key < |ds| && hits[i].dist == ds[hits[i].key]
    ensures var results := Retain(Named(ids, hits), filter);
            SortedByDist(results) && multiset(results) == Pool(metric, Among(entries, Keys(hits)), query, filter)
  {
    hide Among, Chosen, Retain, Keys;
    var all, named := ScoreAll(metric, entries, query), Named(ids, hits);
    KeysInSequence(hits);
    NamedAreScored(metric, entries, query, ids, ds, hits);
    PickedByPosition(all, named, KeySeq(hits), Keys(hits));
    ScoresAmong(metric, entries, query, Keys(hits));
    RetainPermutes(named, ScoreAll(metric, Among(entries, Keys(hits)), query), filter);
    RetainSorted(named, filter);
  }

  lemma NamedAreScored(metric: Metric, entries: seq<Entry>, query: seq<real>, ids: seq<nat>, ds: seq<real>,
                       hits: seq<Scored>)
    requires |entries| == |ids| == |ds|
    requires forall i :: 0 <= i < |ids| ==> entries[i].id == ids[i] && ds[i] == metric(query, entries[i].vector)
    requires forall i :: 0 <= i < |hits| ==> hits[i].key < |ds| && hits[i].dist == ds[hits[i].key]
    ensures var all, named := ScoreAll(metric, entries, query), Named(ids, hits);
            |named| == |KeySeq(hits)| &&
            forall j :: 0 <= j < |named| ==> KeySeq(hits)[j] < |all| && named[j] == all[KeySeq(hits)[j]]
    ensures SortedByDist(hits) ==> SortedByDist(Named(ids, hits))
  {
  }

  lemma TruncatedAnswer(results: seq<Scored>, pool: multiset<Scored>, k: nat)
    requires SortedByDist(results) && multiset(results) <= pool
    ensures var r := results[..Min(k, |results|)];
            SortedByDist(r) && multiset(r) <= pool && (multiset(results) == pool ==> IsTopK(r, pool, k))
  {
    SplitCounts(results, Min(k, |results|));
    if multiset(results) == pool {
      TruncatedSortIsTopK(results, pool, k);
    }
  }

  lemma EmptyAnswer(metric: Metric, entries: seq<Entry>, query: seq<real>, k: nat, filter: Option<set<nat>>)
    ensures SortedByDist([]) && multiset([]) <= Pool(metric, entries, query, filter)
    ensures entries == [] ==> IsTopK([], Pool(metric, entries, query, filter), k)
  {
  }

  /** The nodes closer than `d`. */
  ghost function Nearer(ds: seq<real>, d: real): set<nat> {
    set i | i in Below(|ds|) && ds[i] < d
  }

  lemma NearerShrinks(ds: seq<real>, v: nat, d: real)
    requires v < |ds| && ds[v] < d
    ensures Nearer(ds, ds[v]) < Nearer(ds, d)
  {
    assert v in Nearer(ds, d) && v !in Nearer(ds, ds[v]);
  }

  lemma SmallerRest(all: set<nat>, seen: set<nat>, grown: set<nat>)
    requires seen <= grown <= all
    ensures all - grown <= all - seen
    ensures seen != grown ==> all - grown < all - seen
  {
    if seen != grown {
      var x :| x in grown && x !in seen;
      assert x in all - seen && x !in all - grown;
    }
  }

  class HnswIndex {
    const dims: nat
    const metric: Metric
    var vectors: seq<real>
    var ids: seq<nat>
    var neighbors: Adjacency
    var levels: seq<nat>
    var entry: Option<nat>
    var maxLevel: nat

    /** The flat buffer holds one row per node. */
    predicate Rows()
      reads this`vectors, this`ids
    {
      |vectors| == |ids| * dims
    }

    /** The parallel arrays agree in length. */
    ghost predicate Shape()
      reads this
    {
      && Rows()
      && |levels| == |ids|
      && |neighbors| == |ids|
      && forall u :: 0 <= u < |ids| ==> |neighbors[u]| == levels[u] + 1
    }

    ghost predicate EntryOnTop()
      reads this
    {
      && |levels| == |ids|
      && (forall u :: 0 <= u < |levels| ==> levels[u] <= maxLevel)
      && match entry
         case None => ids == [] && maxLevel == 0
         case Some(e) => e < |ids| && levels[e] == maxLevel
    }

    /** The invariant of every reachable index.  The last conjunct is the small-graph regime, where
        nothing has been trimmed at the base layer yet. */
    ghost predicate Valid()
      reads this
      ensures Valid() ==> Rows()
    {
      && Shape()
      && EntryOnTop()
      && GoodLists(neighbors)
      && (|ids| <= M_MAX + 1 ==> CompleteBase(neighbors))
    }

    function VectorAt(i: nat): (v: seq<real>)
      requires Rows() && i < |ids|
      reads this`vectors, this`ids
    {
      Row(vectors, dims, |ids|, i)
    }

    /** `snapshot`: the stored pairs in insertion order. */
    function Snapshot(): (entries: seq<Entry>)
      requires Rows()
      reads this`vectors, this`ids
      ensures |entries| == |ids|
      ensures forall i :: 0 <= i < |ids| ==> entries[i] == Entry(ids[i], VectorAt(i))
    {
      Entries(vectors, dims, ids)
    }

    function DistTo(query: seq<real>, i: nat): real
      requires Rows() && i < |ids|
      reads this`vectors, this`ids
    {
      metric(query, VectorAt(i))
    }


    /** The distance from the query to every node. */
    ghost function Distances(query: seq<real>): (ds: seq<real>)
      requires Rows()
      reads this`vectors, this`ids
      ensures |ds| == |ids| && forall i :: 0 <= i < |ids| ==> ds[i] == DistTo(query, i)
    {
      DistancesTo(metric, vectors, dims, |ids|, query)
    }

    /** Offer the neighbour `n` of the node `v` being expanded, unless it was seen before. */
    method Offer(query: seq<real>, ghost start: nat, ef: nat, ghost layer: nat, ghost v: nat, n: nat,
                 ghost done: set<nat>,
                 seenIn: set<nat>, candidatesIn: seq<Scored>, resultsIn: seq<Scored>)
      returns (seen: set<nat>, candidates: seq<Scored>, results: seq<Scored>)
      requires Shape() && InRange(neighbors) && v < |ids| && v in seenIn && n in Links(neighbors, v, layer)
      requires Searching(neighbors, Distances(query), layer, start, ef, seenIn, candidatesIn, resultsIn, done)
      ensures Searching(neighbors, Distances(query), layer, start, ef, seen, candidates, results, done)
      ensures seen == seenIn + {n}
      ensures n in seenIn ==> candidates == candidatesIn
      ensures var before := Frontier(seenIn, candidatesIn, resultsIn);
              Sane(Distances(query), before) && 1 <= ef &&
              Frontier(seen, candidates, results) == Offered(Distances(query), ef, before, n)
    {
      HeapFacts(neighbors, Distances(query), layer, start, ef, seenIn, candidatesIn, resultsIn, done);
      if n in seenIn {
        return seenIn, candidatesIn, resultsIn;
      }
      var c := Scored(n, DistTo(query, n));
      Meet(neighbors, Distances(query), layer, start, ef, seenIn, candidatesIn, resultsIn, done, v, n);
      return seenIn + {n}, Enqueue(candidatesIn, resultsIn, ef, c), Admit(resultsIn, ef, c);
    }

    /** The loop over the neighbours of `v`, the candidate being expanded. */
    method Expand(query: seq<real>, ghost start: nat, ef: nat, layer: nat, v: nat, ghost done: set<nat>,
                  seenIn: set<nat>, candidatesIn: seq<Scored>, resultsIn: seq<Scored>)
      returns (seen: set<nat>, candidates: seq<Scored>, results: seq<Scored>)
      requires Shape() && InRange(neighbors) && v < |ids| && v in seenIn
      requires Searching(neighbors, Distances(query), layer, start, ef, seenIn, candidatesIn, resultsIn, done)
      ensures Searching(neighbors, Distances(query), layer, start, ef, seen, candidates, results, done)
      ensures seenIn <= seen && forall w :: w in Links(neighbors, v, layer) ==> w in seen
      ensures seen == seenIn ==> candidates == candidatesIn
      ensures var before, links := Frontier(seenIn, candidatesIn, resultsIn), Links(neighbors, v, layer);
              Sane(Distances(query), before) && 1 <= ef && (forall i :: 0 <= i < |links| ==> links[i] < |ids|) &&
              Frontier(seen, candidates, results) == OfferedAll(Distances(query), ef, before, links)
    {
      hide Searching, Sane, Offered, OfferedAll;
      ghost var ds, before := Distances(query), Frontier(seenIn, candidatesIn, resultsIn);
      HeapFacts(neighbors, ds, layer, start, ef, seenIn, candidatesIn, resultsIn, done);
      seen, candidates, results := seenIn, candidatesIn, resultsIn;
      var links := Links(neighbors, v, layer);
      assert forall i :: 0 <= i < |links| ==> links[i] in links;
      assert links[0..] == links;
      for i := 0 to |links|
        invariant Searching(neighbors, ds, layer, start, ef, seen, candidates, results, done)
        invariant Sane(ds, Frontier(seen, candidates, results))
        invariant OfferedAll(ds, ef, before, links) ==
                  OfferedAll(ds, ef, Frontier(seen, candidates, results), links[i..])
        invariant seenIn <= seen
        invariant forall j :: 0 <= j < i ==> links[j] in seen
        invariant seen == seenIn ==> candidates == candidatesIn
      {
        OfferOne(ds, ef, Frontier(seen, candidates, results), links[i..]);
        seen, candidates, results := Offer(query, start, ef, layer, v, links[i], done, seen, candidates, results);
        assert links[i..][1..] == links[i + 1..];
      }
      OfferNone(ds, ef, Frontier(seen, candidates, results), links[|links|..]);
    }

    /** `ef_search`: explore one layer from `start`, keeping the ef nearest of the nodes visited.  The
        candidate heap hands out its farthest member first. */
    method EfSearch(query: seq<real>, start: nat, ef: nat, layer: nat)
      returns (hits: seq<Scored>, ghost visited: set<nat>)
      requires Shape() && InRange(neighbors) && start < |ids| && 1 <= ef
      ensures Found(neighbors, Distances(query), layer, start, ef, visited, hits)
      ensures 1 <= |hits| <= ef && Ordered(hits) && Keys(hits) <= ReachSet(neighbors, layer, start)
      ensures |ReachSet(neighbors, layer, start)| <= ef ==> Keys(hits) == ReachSet(neighbors, layer, start)
    {
      hide Searching, Expanded, Found, Run, Sane, OfferedAll;
      ghost var ds := Distances(query);
      ghost var done := {};
      var seen := {start};
      var first := Scored(start, DistTo(query, start));
      var candidates, results := [first], [first];
      Begin(neighbors, ds, layer, start, ef);
      ghost var states := [Frontier(seen, candidates, results)];
      RunBegins(neighbors, ds, layer, start, ef);
      while candidates != []
        invariant Searching(neighbors, ds, layer, start, ef, seen, candidates, results, done)
        invariant Expanded(neighbors, layer, seen, done)
        invariant states != [] && states[|states| - 1] == Frontier(seen, candidates, results)
        invariant Run(neighbors, ds, layer, start, ef, states)
        decreases Below(|ids|) - seen, |candidates|
      {
        HeapFacts(neighbors, ds, layer, start, ef, seen, candidates, results, done);
        var c := Peek(candidates);
        if c.dist > Peek(results).dist {
          StoppedEarly(neighbors, ds, layer, start, ef, seen, candidates, results, done, states);
          FoundHits(neighbors, ds, layer, start, ef, seen, results);
          return results, seen;
        }
        Take(neighbors, ds, layer, start, ef, seen, candidates, results, done);
        ghost var before, state := seen, Frontier(seen, candidates, results);
        seen, candidates, results :=
          Expand(query, start, ef, layer, c.key, done + {c.key}, seen, Pop(candidates), results);
        RunExpands(neighbors, ds, layer, start, ef, states, state, Frontier(seen, candidates, results));
        states := states + [Frontier(seen, candidates, results)];
        GrowExpanded(neighbors, layer, before, seen, done, c.key);
        done := done + {c.key};
        HeapFacts(neighbors, ds, layer, start, ef, seen, candidates, results, done);
        SmallerRest(Below(|ids|), before, seen);
      }
      Exhausted(neighbors, ds, layer, start, ef, seen, results, done, states);
      FoundHits(neighbors, ds, layer, start, ef, seen, results);
      return results, seen;
    }

    // ---- greedy descent ----

    /** The loop over the links of one node: the first of the nearest, if it is closer than the node. */
    method CloserLink(query: seq<real>, from: nat, layer: nat) returns (best: nat, improved: bool, ghost at: nat)
      requires Shape() && InRange(neighbors) && from < |ids|
      ensures best < |ids|
      ensures !improved ==> best == from && Bottom(neighbors, Distances(query), layer, best)
      ensures improved ==> var ds, links := Distances(query), Links(neighbors, from, layer);
              at < |links| && links[at] == best && IsFirst(ds, links, at) && ds[best] < ds[from]
    {
      best, improved, at := from, false, 0;
      ghost var ds := Distances(query);
      var links := Links(neighbors, from, layer);
      for i := 0 to |links|
        invariant best < |ids|
        invariant if improved then at < i && best == links[at] && ds[best] < ds[from] else best == from
        invariant forall j :: 0 <= j < i ==> links[j] < |ids| && ds[best] <= ds[links[j]]
        invariant improved ==> forall j :: 0 <= j < at ==> ds[best] < ds[links[j]]
      {
        assert links[i] in Links(neighbors, from, layer);
        if DistTo(query, links[i]) < DistTo(query, best) {
          best, improved, at := links[i], true, i;
        }
      }
    }

    /** `greedy_down`: walk to the closest neighbour until none is closer. */
    method GreedyDown(query: seq<real>, start: nat, layer: nat) returns (best: nat)
      requires Shape() && InRange(neighbors) && start < |ids|
      ensures Descends(neighbors, Distances(query), layer, start, best)
      ensures best < |ids| && Reaches(neighbors, layer, start, best)
      ensures DistTo(query, best) <= DistTo(query, start)
      ensures forall n :: n in Links(neighbors, best, layer) ==> DistTo(query, best) <= DistTo(query, n)
    {
      hide Reaches, Nearer, Downhill, Descends, IsFirst, InRange;
      best := start;
      ghost var ds, path := Distances(query), [start];
      DownhillBegins(neighbors, ds, layer, start);
      while true
        invariant best < |ids| && path != [] && path[0] == start && path[|path| - 1] == best
        invariant Downhill(neighbors, ds, layer, path)
        decreases Nearer(ds, ds[best])
      {
        ghost var from := best;
        var improved;
        ghost var at;
        best, improved, at := CloserLink(query, best, layer);
        if !improved {
          WalkEnds(neighbors, ds, layer, path, start, best);
          DescentReaches(neighbors, ds, layer, start, best);
          return;
        }
        DownhillGoesOn(neighbors, ds, layer, path, at);
        path := path + [best];
        NearerShrinks(ds, best, ds[from]);
      }
    }

    // ---- insertion ----

    /** Distances between all pairs of stored vectors, seen from the first of the pair. */
    ghost function AllDistances(): (dm: seq<seq<real>>)
      requires Rows()
      reads this`vectors, this`ids
      ensures |dm| == |ids| && forall u :: 0 <= u < |ids| ==> dm[u] == Distances(VectorAt(u))
    {
      AllPairs(metric, vectors, dims, |ids|)
    }

    /** `trim`: keep the closest M_MAX edges. */
    method Trim(node: nat, layer: nat) returns (list: seq<nat>)
      requires Shape() && InRange(neighbors) && node < |ids| && layer < |neighbors[node]|
      ensures ClosestLinks(list, neighbors[node][layer], Distances(VectorAt(node)), M_MAX)
    {
      var links := Links(neighbors, node, layer);
      var scored := [];
      for i := 0 to |links|
        invariant |scored| == i
        invariant forall j :: 0 <= j < i ==>
          links[j] < |ids| && scored[j] == Scored(links[j], DistTo(VectorAt(node), links[j]))
      {
        assert links[i] in Links(neighbors, node, layer);
        scored := scored + [Scored(links[i], DistTo(VectorAt(node), links[i]))];
      }
      var sorted := SortByDistance(scored);
      var top := sorted[..Min(M_MAX, |sorted|)];
      TruncatedSortIsTopK(sorted, multiset(scored), M_MAX);
      assert scored == ScoredLinks(Distances(VectorAt(node)), links);
      list := KeySeq(top);
    }

    /** The link from an old node back to the new one, trimmed if the list overflows. */
    method LinkBack(idx: nat, n: nat, lc: nat)
      requires Shape() && GoodLists(neighbors)
      requires idx < |ids| && n < |ids| && n != idx && lc < |neighbors[idx]|
      requires lc < |neighbors[n]| && idx !in neighbors[n][lc]
      modifies this`neighbors
      ensures Shape() && GoodLists(neighbors)
      ensures BackLinked(old(neighbors[n][lc]), neighbors[n][lc], idx, Distances(VectorAt(n)))
      ensures neighbors == SetList(old(neighbors), n, lc, neighbors[n][lc])
    {
      hide GoodLists, InRange, SetList, ClosestLinks, NoRepeats;
      ghost var h, before := neighbors, neighbors[n][lc];
      GoodListAt(h, n, lc);
      StoreList(n, lc, neighbors[n][lc] + [idx]);
      if |neighbors[n][lc]| > M_MAX {
        PushKeepsRange(h, n, lc, idx);
        var list := Trim(n, lc);
        StoreList(n, lc, list);
        SetListTwice(h, n, lc, before + [idx], list);
      }
      BackLinkedIsGood(h, n, lc, before, neighbors[n][lc], idx, Distances(VectorAt(n)));
      SetListKeepsGood(h, n, lc, neighbors[n][lc]);
    }

    method StoreList(n: nat, lc: nat, list: seq<nat>)
      requires Shape() && n < |ids| && lc < |neighbors[n]|
      modifies this`neighbors
      ensures Shape() && neighbors == SetList(old(neighbors), n, lc, list)
      ensures |neighbors[n]| == |old(neighbors[n])| && neighbors[n][lc] == list
    {
      neighbors := SetList(neighbors, n, lc, list);
    }

    /** The body of the linking loop for one selected neighbour.  The test of the neighbour's own level
        never fails. */
    method Connect(idx: nat, n: nat, lc: nat)
      requires Shape() && GoodLists(neighbors)
      requires idx < |ids| && n < |ids| && n != idx && lc < |neighbors[idx]| && lc < |neighbors[n]|
      requires |neighbors[idx][lc]| < M_MAX && n !in neighbors[idx][lc] && idx !in neighbors[n][lc]
      modifies this`neighbors
      ensures Shape() && GoodLists(neighbors)
      ensures BackLinked(old(neighbors[n][lc]), neighbors[n][lc], idx, Distances(VectorAt(n)))
      ensures var forth := SetList(old(neighbors), idx, lc, old(neighbors[idx][lc]) + [n]);
              neighbors == SetList(forth, n, lc, neighbors[n][lc])
    {
      hide GoodLists, SetList, BackLinked;
      GoodListAt(neighbors, idx, lc);
      SetListKeepsGood(neighbors, idx, lc, neighbors[idx][lc] + [n]);
      neighbors := SetList(neighbors, idx, lc, neighbors[idx][lc] + [n]);
      if lc < |neighbors[n]| {
        LinkBack(idx, n, lc);
      }
    }

    /** The neighbours chosen for node `idx` at layer `lc`. */
    method Choose(idx: nat, start: nat, lc: nat) returns (sel: seq<nat>)
      requires Shape() && InRange(neighbors) && idx < |ids| && start < |ids|
      ensures Recommended(neighbors, Distances(VectorAt(idx)), lc, start, sel)
    {
      hide Found, IsTopK, InRange;
      var hits, visited := EfSearch(VectorAt(idx), start, EF_CONSTRUCTION, lc);
      ghost var top;
      sel, top := ClosestN(hits, if lc == 0 then M_MAX else M);
    }

    /** The loop connecting node `idx` with each node of `sel`. */
    method ConnectAll(idx: nat, lc: nat, sel: seq<nat>)
      requires Shape() && GoodLists(neighbors) && idx < |ids|
      requires lc < |neighbors[idx]| && neighbors[idx][lc] == [] && Unlinked(neighbors, idx, lc)
      requires |sel| <= M_MAX && NoRepeats(sel)
      requires forall v :: v in sel ==> v < |ids| && lc < |neighbors[v]| && v != idx
      modifies this`neighbors
      ensures Shape() && GoodLists(neighbors) && OtherLayersSame(old(neighbors), neighbors, lc)
      ensures LayerDiff(old(neighbors), neighbors, idx, lc, sel, |sel|, AllDistances())
    {
      hide LayerDiff, GoodLists, OtherLayersSame, BackLinked, SetList, NoRepeats, Unlinked;
      ghost var g, dm := neighbors, AllDistances();
      LayerDiffBegin(g, idx, lc, sel, dm);
      SameEverywhere(g, lc);
      for i := 0 to |sel|
        invariant Shape() && GoodLists(neighbors) && SameShape(g, neighbors)
        invariant OtherLayersSame(g, neighbors, lc)
        invariant LayerDiff(g, neighbors, idx, lc, sel, i, dm)
      {
        var n := sel[i];
        LayerDiffRoom(g, neighbors, idx, lc, sel, i, dm);
        ghost var h := neighbors;
        Connect(idx, n, lc);
        ConnectTouchesOneLayer(g, h, idx, n, lc, h[idx][lc] + [n], neighbors[n][lc]);
        LayerDiffStep(g, h, neighbors, idx, lc, sel, i, dm, neighbors[n][lc]);
      }
    }

    /** Link node `idx` into layer `lc`: search from `start`, connect to the closest nodes found, and hand
        on the closest of them. */
    method LinkLayer(idx: nat, start: nat, lc: nat) returns (next: nat, ghost plan: Plan)
      requires Shape() && GoodLists(neighbors)
      requires idx < |ids| && start < |ids| && start != idx && lc < |neighbors[start]| && lc < |neighbors[idx]|
      requires neighbors[idx][lc] == [] && Unlinked(neighbors, idx, lc)
      modifies this`neighbors
      ensures Shape() && GoodLists(neighbors) && OtherLayersSame(old(neighbors), neighbors, lc)
      ensures plan.start == start && LayerLinked(old(neighbors), neighbors, idx, lc, plan, AllDistances())
      ensures next < |ids| && next != idx && lc < |neighbors[next]|
      ensures Nearest(AllDistances()[idx], plan.chosen, next)
    {
      hide Recommended, LayerDiff, GoodLists, InRange, Unlinked, Nearest;
      ghost var g, dm := neighbors, AllDistances();
      GoodListsInRange(g);
      var sel := Choose(idx, start, lc);
      next := if sel == [] then start else sel[0];
      RecommendedIsGood(g, dm[idx], lc, start, idx, sel);
      FirstIsNearest(g, dm[idx], lc, start, sel);
      ConnectAll(idx, lc, sel);
      plan := Plan(start, sel);
      assert next in sel;
    }

    constructor (dims: nat, metric: Metric)
      ensures Valid() && ids == [] && this.dims == dims && this.metric == metric
    {
      this.dims, this.metric := dims, metric;
      vectors, ids, neighbors, levels := [], [], [], [];
      entry, maxLevel := None, 0;
    }

    /** The node storage grows by one unlinked node. */
    method Append(id: nat, vector: seq<real>, level: nat)
      requires Valid() && |vector| == dims
      modifies this
      ensures Shape() && GoodLists(neighbors)
      ensures Snapshot() == old(Snapshot()) + [Entry(id, vector)]
      ensures ids == old(ids) + [id] && levels == old(levels) + [level]
      ensures neighbors == Grown(old(neighbors), level)
      ensures entry == old(entry) && maxLevel == old(maxLevel)
    {
      EntriesAppend(vectors, dims, ids, id, vector);
      GrownIsGood(neighbors, level);
      vectors := vectors + vector;
      ids := ids + [id];
      levels := levels + [level];
      neighbors := Grown(neighbors, level);
    }

    /** Greedy descent from the entry point to the top layer that the new node shares. */
    method Descend(query: seq<real>, idx: nat, start: nat, level: nat) returns (ep: nat)
      requires Shape() && GoodLists(neighbors) && forall lc: nat :: Unlinked(neighbors, idx, lc)
      requires start < |ids| && start != idx && |neighbors[start]| == maxLevel + 1
      ensures DescendsTo(neighbors, Distances(query), start, maxLevel, level + 1, ep)
      ensures ep < |ids| && ep != idx && Min(level, maxLevel) < |neighbors[ep]|
    {
      hide GoodLists, InRange, Unlinked, Reaches, Underway, Descends;
      GoodListsInRange(neighbors);
      ep := start;
      var lc := maxLevel;
      ghost var ds, chain := Distances(query), [start];
      ChainBegins(neighbors, ds, start, maxLevel);
      while lc > level
        invariant lc <= maxLevel && Min(level, maxLevel) <= lc
        invariant ep < |ids| && ep != idx && lc < |neighbors[ep]|
        invariant Underway(neighbors, ds, start, maxLevel, lc, chain, ep)
      {
        ReachStaysAtLayer(neighbors, lc, ep, idx);
        ghost var from := ep;
        ep := GreedyDown(query, ep, lc);
        assert ep in ReachSet(neighbors, lc, from);
        ChainGoesOn(neighbors, ds, start, maxLevel, lc, chain, from, ep);
        chain := chain + [ep];
        lc := lc - 1;
      }
      ChainEnds(neighbors, ds, start, maxLevel, level + 1, chain, ep);
    }

    /** `insert`, with the drawn level as a parameter.  Insertion always appends a node. */
    method Insert(id: nat, vector: seq<real>, level: nat)
      requires Valid() && |vector| == dims
      modifies this
      ensures Valid()
      ensures Snapshot() == old(Snapshot()) + [Entry(id, vector)]
      ensures levels == old(levels) + [level]
      ensures entry == if old(entry).None? || level > old(maxLevel) then Some(|old(ids)|) else old(entry)
      ensures maxLevel == Max(level, old(maxLevel))
      ensures old(entry).Some? ==>
                Inserted(Grown(old(neighbors), level), neighbors, |old(ids)|, old(entry).value, old(maxLevel), level,
                         AllDistances())
      ensures old(entry).None? ==> neighbors == Grown(old(neighbors), level)
    {
      hide GoodLists, Unlinked, Progress, CompleteBase, DescendsTo, Inserted;
      var idx := |ids|;
      ghost var g := neighbors;
      Append(id, vector, level);
      GrownIsGood(g, level);
      if entry == None {
        LoneNode(neighbors);
        entry, maxLevel := Some(idx), level;
        return;
      }
      ghost var plans := LinkEverywhere(idx, entry.value, level);
      InsertionDone(Grown(g, level), neighbors, idx, entry.value, maxLevel, level, plans, AllDistances());
      if idx <= M_MAX {
        InsertKeepsSmallBase(g, neighbors, level, Min(level, maxLevel), plans, AllDistances());
      }
      if level > maxLevel {
        entry, maxLevel := Some(idx), level;
      }
    }

    /** The descent, and the loop over the shared layers. */
    method LinkEverywhere(idx: nat, start: nat, level: nat) returns (ghost plans: seq<Plan>)
      requires Shape() && GoodLists(neighbors) && idx < |ids| && |neighbors[idx]| == level + 1
      requires forall lc: nat :: Unlinked(neighbors, idx, lc)
      requires forall l :: 0 <= l <= level ==> neighbors[idx][l] == []
      requires start < |ids| && start != idx && |neighbors[start]| == maxLevel + 1
      modifies this`neighbors
      ensures Shape() && GoodLists(neighbors)
      ensures Progress(old(neighbors), neighbors, idx, Min(level, maxLevel), 0, plans, AllDistances())
      ensures |plans| == Min(level, maxLevel) + 1
      ensures DescendsTo(old(neighbors), AllDistances()[idx], start, maxLevel, level + 1,
                         plans[Min(level, maxLevel)].start)
    {
      hide GoodLists, Unlinked, Progress, LayerLinked, OtherLayersSame, SameLayer, DescendsTo, Nearest;
      var ep: nat := Descend(VectorAt(idx), idx, start, level);
      ghost var g, dm, top := neighbors, AllDistances(), Min(level, maxLevel);
      ghost var first := ep;
      plans := [];
      ProgressBegin(g, idx, top, dm);
      var lc := Min(level, maxLevel) + 1;
      while lc > 0
        invariant 0 <= lc <= top + 1 && Shape() && GoodLists(neighbors)
        invariant Progress(g, neighbors, idx, top, lc, plans, dm) && |plans| == top + 1 - lc
        invariant if plans == [] then ep == first
                  else Nearest(dm[idx], plans[0].chosen, ep) && plans[|plans| - 1].start == first
        invariant ep < |neighbors| && ep != idx && lc - 1 < |neighbors[ep]|
      {
        lc := lc - 1;
        ghost var h := neighbors;
        ProgressUnlinked(g, h, idx, top, lc, plans, dm);
        ghost var plan;
        ep, plan := LinkLayer(idx, ep, lc);
        ProgressStep(g, h, neighbors, idx, top, lc, plans, plan, dm);
        plans := [plan] + plans;
      }
    }

    /** `drain`: hand out everything stored and start over empty. */
    method Drain() returns (entries: seq<Entry>)
      requires Valid()
      modifies this
      ensures entries == old(Snapshot())
      ensures Valid() && ids == []
    {
      entries := Snapshot();
      vectors, ids, neighbors, levels := [], [], [], [];
      entry, maxLevel := None, 0;
    }

    // ---- search ----

    /** The answer is exact whenever the base layer is connected and no larger than the first beam. */
    ghost predicate ExactFor(k: nat)
      reads this
    {
      Connected(neighbors, 0) && |ids| <= Max(k, EF_START)
    }

    /** The widest beam sees everything. */
    ghost predicate WithinWidestBeam(k: nat)
      reads this
    {
      Connected(neighbors, 0) && |ids| <= Max(k, EF_MAX)
    }

    /** In the small-graph regime every index is exact, whatever was inserted at whatever levels. */
    lemma SmallIsExact(k: nat)
      requires Valid() && |ids| <= M_MAX + 1
      ensures ExactFor(k)
    {
      CompleteIsConnected(neighbors);
    }

    /** No more nodes than the first beam holds are reachable from where the descent ends, or no more than the
        widest, and the answer is short. */
    ghost predicate FitsBeam(end: nat, k: nat, found: nat)
      reads this
    {
      var n := |ReachSet(neighbors, 0, end)|;
      n <= Max(k, EF_START) || (found < k && n <= Max(k, EF_MAX))
    }

    /** The passing pairs among the nodes that are reachable from a node of the base layer. */
    ghost function ReachablePool(end: nat, query: seq<real>, filter: Option<set<nat>>): multiset<Scored>
      requires Rows()
      reads this
    {
      Pool(metric, Among(Snapshot(), ReachSet(neighbors, 0, end)), query, filter)
    }

    /** One round of the search: the hits of one beam, by identifier, those that pass. */
    method Round(query: seq<real>, start: nat, ef: nat, filter: Option<set<nat>>)
      returns (results: seq<Scored>, ghost beam: Beam)
      requires Valid() && start < |ids| && 1 <= ef
      ensures beam.ef == ef && FoundBy(neighbors, Distances(query), start, beam)
      ensures results == Results(ids, beam.hits, filter)
      ensures SortedByDist(results) && multiset(results) <= Pool(metric, Snapshot(), query, filter)
      ensures |ReachSet(neighbors, 0, start)| <= ef ==>
                multiset(results) == Pool(metric, Among(Snapshot(), ReachSet(neighbors, 0, start)), query, filter)
    {
      hide GoodLists, InRange, Found, Connected, Pool, CompleteBase, Ordered, Keys, ReachSet, SortedByDist, Among,
           Results, Retain;
      GoodListsInRange(neighbors);
      var hits, visited := EfSearch(query, start, ef, 0);
      HitsFacts(neighbors, Distances(query), start, ef, visited, hits);
      var named := Named(ids, hits);
      NamedHits(metric, Snapshot(), query, ids, Distances(query), hits, filter);
      results := if filter.Some? then Retain(named, filter) else named;
      ResultsOf(ids, hits, filter);
      AmongIsPart(metric, Snapshot(), query, Keys(hits), filter);
      beam := Beam(ef, visited, hits);
    }

    /** What a search of a graph that is not empty answers: the greedy descent ends at `end`, and the beams that
        start there give `r`.  That fixes the answer; the rest says how good it is. */
    ghost predicate Answers(query: seq<real>, k: nat, filter: Option<set<nat>>, end: nat, r: seq<Scored>)
      requires Rows()
      reads this
    {
      && entry.Some? && end < |ids|
      && DescendsTo(neighbors, Distances(query), entry.value, maxLevel, 1, end)
      && BeamAnswer(neighbors, Distances(query), ids, k, filter, end, r)
      && SortedByDist(r) && |r| <= k && multiset(r) <= Pool(metric, Snapshot(), query, filter)
      && (FitsBeam(end, k, |r|) ==> IsTopK(r, ReachablePool(end, query, filter), k))
      && (filter.None? && k >= 1 ==> r != [])
    }

    /** An empty graph answers nothing. */
    ghost predicate Replies(query: seq<real>, k: nat, filter: Option<set<nat>>, end: nat, r: seq<Scored>)
      requires Rows()
      reads this
    {
      if ids == [] then r == [] else Answers(query, k, filter, end, r)
    }

    lemma ReplyIsPart(query: seq<real>, k: nat, filter: Option<set<nat>>, end: nat, r: seq<Scored>)
      requires Rows() && Replies(query, k, filter, end, r)
      ensures SortedByDist(r) && |r| <= k && multiset(r) <= Pool(metric, Snapshot(), query, filter)
    {
      hide Pool, DescendsTo, BeamAnswer;
    }

    /** An exact index replies exactly, and so does one that the widest beam covers, if the reply is short. */
    lemma ReplyIsExact(query: seq<real>, k: nat, filter: Option<set<nat>>, end: nat, r: seq<Scored>)
      requires Shape() && Replies(query, k, filter, end, r)
      requires ExactFor(k) || (|r| < k && WithinWidestBeam(k))
      ensures IsTopK(r, Pool(metric, Snapshot(), query, filter), k)
    {
      hide Pool, DescendsTo, BeamAnswer, IsTopK, Connected, ReachSet, Among;
      if ids == [] {
        EmptyAnswer(metric, Snapshot(), query, k, filter);
      } else {
        ConnectedReachesAll(neighbors, Snapshot(), end);
      }
    }

    /** There is one answer. */
    lemma AnswerIsDetermined(query: seq<real>, k: nat, filter: Option<set<nat>>, end: nat, r: seq<Scored>,
                             end': nat, r': seq<Scored>)
      requires Rows() && Replies(query, k, filter, end, r) && Replies(query, k, filter, end', r')
      ensures r == r' && (ids != [] ==> end == end')
    {
      hide DescendsTo, BeamAnswer, SortedByDist, Pool, FitsBeam, IsTopK;
      var ds := Distances(query);
      if ids != [] {
        DescentEndIsDetermined(neighbors, ds, entry.value, maxLevel, 1, end, end');
        BeamAnswerIsDetermined(neighbors, ds, ids, k, filter, end, r, r');
      }
    }

    /** `search_filtered`: greedy descent, then a layer search whose beam doubles until k hits pass. */
    method SearchFiltered(query: seq<real>, k: nat, filter: Option<set<nat>>)
      returns (r: seq<Scored>, ghost end: nat)
      requires Valid()
      ensures SortedByDist(r) && |r| <= k
      ensures multiset(r) <= Pool(metric, Snapshot(), query, filter)
      ensures Replies(query, k, filter, end, r)
      ensures ExactFor(k) ==> IsTopK(r, Pool(metric, Snapshot(), query, filter), k)
      ensures |r| < k && WithinWidestBeam(k) ==> IsTopK(r, Pool(metric, Snapshot(), query, filter), k)
    {
      hide GoodLists, InRange, Connected, Pool, CompleteBase, Reaches, SortedByDist, ReachSet, Among, IsTopK,
           DescendsTo, BeamAnswer;
      if entry == None {
        EmptyAnswer(metric, Snapshot(), query, k, filter);
        return [], 0;
      }
      r, end := Descended(query, k, filter);
      hide Answers;
      ReplyIsPart(query, k, filter, end, r);
      if ExactFor(k) || (|r| < k && WithinWidestBeam(k)) { ReplyIsExact(query, k, filter, end, r); }
    }

    /** The descent through the upper layers. */
    method DescendToBase(query: seq<real>) returns (best: nat)
      requires Valid() && entry.Some?
      ensures best < |ids| && DescendsTo(neighbors, Distances(query), entry.value, maxLevel, 1, best)
    {
      hide GoodLists, InRange, Connected, CompleteBase, Reaches, Underway, Descends;
      GoodListsInRange(neighbors);
      best := entry.value;
      ghost var ds, chain := Distances(query), [best];
      ChainBegins(neighbors, ds, best, maxLevel);
      for lc := maxLevel downto 0
        invariant best < |ids| && Underway(neighbors, ds, entry.value, maxLevel, lc, chain, best)
      {
        ghost var from := best;
        best := GreedyDown(query, best, lc + 1);
        ChainGoesOn(neighbors, ds, entry.value, maxLevel, lc + 1, chain, from, best);
        chain := chain + [best];
      }
      ChainEnds(neighbors, ds, entry.value, maxLevel, 1, chain, best);
    }

    /** What the results of the last beam give. */
    lemma BeamAnswers(query: seq<real>, k: nat, filter: Option<set<nat>>, end: nat, results: seq<Scored>, ef: nat)
      requires Valid() && entry.Some? && end < |ids|
      requires DescendsTo(neighbors, Distances(query), entry.value, maxLevel, 1, end)
      requires SortedByDist(results) && multiset(results) <= Pool(metric, Snapshot(), query, filter)
      requires |ReachSet(neighbors, 0, end)| <= ef ==> multiset(results) == ReachablePool(end, query, filter)
      requires Max(k, EF_START) <= ef && (|results| >= k || ef >= EF_MAX)
      requires BeamAnswer(neighbors, Distances(query), ids, k, filter, end, results[..Min(k, |results|)])
      ensures Answers(query, k, filter, end, results[..Min(k, |results|)])
    {
      hide Shape, GoodLists, CompleteBase, Pool, SortedByDist, ReachSet, ReachablePool, IsTopK, DescendsTo, BeamAnswer;
      TruncatedAnswer(results, Pool(metric, Snapshot(), query, filter), k);
      if multiset(results) == ReachablePool(end, query, filter) {
        TruncatedAnswer(results, ReachablePool(end, query, filter), k);
      }
      if filter.None? && k >= 1 {
        UnfilteredFindsSome(neighbors, Distances(query), ids, k, end, results[..Min(k, |results|)]);
      }
    }

    /** A search of a graph that is not empty. */
    method Descended(query: seq<real>, k: nat, filter: Option<set<nat>>) returns (r: seq<Scored>, ghost end: nat)
      requires Valid() && entry.Some?
      ensures Answers(query, k, filter, end, r)
    {
      hide GoodLists, InRange, Connected, Pool, CompleteBase, Reaches, SortedByDist, ReachSet, Among, IsTopK,
           DescendsTo, FoundBy, Results, BeamAnswer, Answers;
      var best := DescendToBase(query);
      end := best;
      ghost var ds, beams := Distances(query), [];
      var ef := Max(k, EF_START);
      while true
        invariant Max(k, EF_START) <= ef
        invariant beams == [] ==> ef == Max(k, EF_START)
        invariant BeamsSoFar(neighbors, ds, ids, k, filter, end, beams, ef)
        decreases EF_MAX - ef
      {
        ghost var beam;
        var results;
        results, beam := Round(query, best, ef, filter);
        beams := beams + [beam];
        if |results| >= k || ef >= EF_MAX {
          r := results[..Min(k, |results|)];
          LastBeam(neighbors, ds, ids, k, filter, end, beams, r);
          BeamAnswers(query, k, filter, end, results, ef);
          return;
        }
        ef := Min(ef * 2, EF_MAX);
      }
    }

    /** `search`. */
    method Search(query: seq<real>, k: nat) returns (r: seq<Scored>, ghost end: nat)
      requires Valid()
      ensures SortedByDist(r) && |r| <= k
      ensures Replies(query, k, None, end, r)
      ensures multiset(r) <= Pool(metric, Snapshot(), query, None)
      ensures ExactFor(k) ==> IsTopK(r, Pool(metric, Snapshot(), query, None), k)
      ensures |r| < k && WithinWidestBeam(k) ==> IsTopK(r, Pool(metric, Snapshot(), query, None), k)
    {
      r, end := SearchFiltered(query, k, None);
    }
  }
}
