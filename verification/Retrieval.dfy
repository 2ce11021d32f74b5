/** Recall from end to end: the adapter's search and the text search find candidates, the store's rows decide. */
module Retrieval {
  import opened Options
  import opened Repository
  import opened Adapter
  import opened Journal
  import opened Recall
  import opened Serving
  import opened VivyIndex
  import Ranking

  /** Three candidates are fetched for every row asked for, up to the configured limit. */
  function CandidateLimit(q: Query, maxLimit: nat): nat {
    Ranking.Min(q.limit, maxLimit) * 3
  }

  /** Every id that one of the two searches found, once. */
  ghost predicate Combines(hits: seq<Hit>, texts: seq<string>, candidates: seq<string>) {
    && (forall i, j :: 0 <= i < j < |candidates| ==> candidates[i] != candidates[j])
    && forall id :: id in candidates <==> id in IdsOf(hits) || id in texts
  }

  /** The union of the two candidate lists; their order decides ties only. */
  method Combine(hits: seq<Hit>, texts: seq<string>) returns (candidates: seq<string>)
    ensures Combines(hits, texts, candidates)
  {
    candidates := [];
    for i := 0 to |hits|
      invariant forall a, b :: 0 <= a < b < |candidates| ==> candidates[a] != candidates[b]
      invariant forall id :: id in candidates <==> exists j :: 0 <= j < i && hits[j].id == id
    {
      if hits[i].id !in candidates {
        candidates := candidates + [hits[i].id];
      }
    }
    for i := 0 to |texts|
      invariant forall a, b :: 0 <= a < b < |candidates| ==> candidates[a] != candidates[b]
      invariant forall id :: id in candidates <==> id in IdsOf(hits) || id in texts[..i]
    {
      if texts[i] !in candidates {
        candidates := candidates + [texts[i]];
      }
      assert texts[..i + 1] == texts[..i] + [texts[i]];
    }
    assert texts[..|texts|] == texts;
  }

  /** The index shows the Active rows, the engine is exact, its waste is within the overfetch, and
      the candidate limit covers all Active rows. */
  ghost predicate Covers(index: VivyVectorIndex, db: Db, limit: nat)
    reads index, index.inner, index.inner.shards
  {
    && Visible(World(db, index.model)) && index.inner.ValidShards() && limit >= 1 && limit >= |ActiveEmbeddings(db)|
    && index.inner.AllExact(Fetch(limit))
    && |index.inner.Contents()| <= |ActiveEmbeddings(db)| + 2 * limit + 10
  }

  /** How an answer came about. */
  datatype Trail = Trail(hits: seq<Hit>, candidates: seq<string>, items: seq<Ranking.Item>, picks: seq<nat>)

  /** The items are those of the candidates that the two searches found, and the answer was picked from them. */
  ghost predicate LeadsTo(trail: Trail, root: real -> real, decay: int -> real, db: Db, q: Query, now: int,
                          texts: seq<string>, answer: seq<Ranking.Item>)
  {
    && Combines(trail.hits, texts, trail.candidates)
    && ItemsOfCandidates(root, decay, db, q, now, trail.candidates, trail.items)
    && Picked(root, q, trail.items, trail.picks, answer)
  }

  /** `recall` over the adapter.  Whatever the engine finds, only rows that may be returned are, with their scores;
      where it finds all Active rows and no lambda is given, no row of the store that may be returned and is left
      out scores better than one in the answer. */
  method Retrieve(index: VivyVectorIndex, root: real -> real, decay: int -> real, db: Db, q: Query, now: int,
                  texts: seq<string>, maxLimit: nat)
    returns (answer: Option<seq<Ranking.Item>>, ghost trail: Trail)
    requires index.Valid() && Keyed(db)
    ensures answer.Some? <==>
              q.limit > 0 && |q.embedding| == index.dims && (q.mmrLambda == None || 0.0 <= q.mmrLambda.value <= 1.0)
    ensures answer.Some? ==>
              && Answers(root, decay, db, q, now, answer.value)
              && index.Serves(q.embedding, CandidateLimit(q, maxLimit), trail.hits)
              && LeadsTo(trail, root, decay, db, q, now, texts, answer.value)
    ensures answer.Some? && q.mmrLambda == None ==>
              BestFirst(root, decay, db, q, now, IdsOf(trail.hits) + IdSet(texts), answer.value)
    ensures answer.Some? && q.mmrLambda == None && Covers(index, db, CandidateLimit(q, maxLimit)) ==>
              BestFirst(root, decay, db, q, now, db.memories.Keys, answer.value)
  {
    hide VivyVectorIndex.Valid, Visible, Keyed, Answers, BestFirst, IdsOf, Combines, Covers, ActiveEmbeddings,
         CandidateLimit, ItemsOfCandidates, Picked, IdSet, VivyVectorIndex.Serves;
    trail := Trail([], [], [], []);
    if !ValidQuery(q, index.dims) {
      return None, trail;
    }
    var hits := Candidates(index, db, q.embedding, CandidateLimit(q, maxLimit));
    var candidates := Combine(hits, texts);
    ghost var items, picks;
    CombinedIds(hits, texts, candidates);
    answer, items, picks := Recall.Recall(root, decay, db, q, now, candidates, index.dims);
    trail := Trail(hits, candidates, items, picks);
    if q.mmrLambda == None && Covers(index, db, CandidateLimit(q, maxLimit)) {
      BestOfAll(root, decay, db, q, now, IdsOf(hits) + IdSet(texts), answer.value);
    }
  }

  /** The vector half of the candidates. */
  method Candidates(index: VivyVectorIndex, db: Db, query: seq<real>, limit: nat) returns (hits: seq<Hit>)
    requires index.Valid() && |query| == index.dims
    ensures index.Serves(query, limit, hits)
    ensures Covers(index, db, limit) ==> IdsOf(hits) == ActiveEmbeddings(db).Keys
  {
    hide VivyVectorIndex.Valid, Visible, IdsOf, VivyVectorIndex.Serves, ActiveEmbeddings, VivyIndex.ValidShards,
         VivyIndex.AllExact, VivyIndex.Contents, Fetch;
    var found := SearchRows(index, db, query, limit);
    hits := found.value;
  }

  lemma CombinedIds(hits: seq<Hit>, texts: seq<string>, candidates: seq<string>)
    requires Combines(hits, texts, candidates)
    ensures IdSet(candidates) == IdsOf(hits) + IdSet(texts)
    ensures forall i, j :: 0 <= i < j < |candidates| ==> candidates[i] != candidates[j]
  {
    hide IdsOf;
    forall ids: seq<string>, id ensures id in IdSet(ids) <==> id in ids {
    }
    hide IdSet;
  }

  /** When every Active row is a candidate, the best of the candidates is the best of the store. */
  lemma BestOfAll(root: real -> real, decay: int -> real, db: Db, q: Query, now: int, among: set<string>,
                  answer: seq<Ranking.Item>)
    requires ActiveEmbeddings(db).Keys <= among && BestFirst(root, decay, db, q, now, among, answer)
    ensures BestFirst(root, decay, db, q, now, db.memories.Keys, answer)
  {
    hide TotalScore, Passes;
    forall id | Admits(db, q, now, id) ensures id in among {
      assert id in ActiveEmbeddings(db).Keys;
    }
  }
}
