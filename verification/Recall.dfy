/** Recall: which rows may be returned, how they are scored, and the two ways of picking among them. */
module Recall {
  import opened Options
  import opened Repository
  import opened Ranking
  import opened Store
  import Distance
  import opened Journal

  datatype Filters = Filters(kinds: Option<set<Kind>>, minImportance: Option<real>,
                             metadata: Option<map<string, string>>)

  datatype Query = Query(scope: Scope, embedding: seq<real>, filters: Filters, limit: nat, mmrLambda: Option<real>)

  predicate ValidQuery(q: Query, dims: nat) {
    && q.limit > 0 && |q.embedding| == dims
    && match q.mmrLambda
       case None => true
       case Some(l) => 0.0 <= l <= 1.0
  }

  predicate Passes(f: Filters, r: Record) {
    && (f.kinds.Some? ==> r.kind in f.kinds.value)
    && (f.minImportance.Some? ==> r.importance >= f.minImportance.value)
    && (f.metadata.Some? ==>
          forall k :: k in f.metadata.value ==> k in r.metadata && r.metadata[k] == f.metadata.value[k])
  }

  /** The row may be returned: in scope by tenant and namespace, Active, not expired, and past the filters. */
  predicate Admits(db: Db, q: Query, now: int, id: string) {
    InScope(db, q.scope, id) && Recallable(db.memories[id], now) && Passes(q.filters, db.memories[id])
  }

  function Age(r: Record, now: int): int {
    if now - r.createdAt > 0 then now - r.createdAt else 0
  }

  /** The four weighted parts; `decay` is the recency curve. */
  function TotalScore(root: real -> real, decay: int -> real, embedding: seq<real>, r: Record, now: int): real {
    0.70 * Clamp01(1.0 - Distance.Cosine(root, embedding, r.embedding) / 2.0)
    + 0.15 * Clamp01(r.importance)
    + 0.10 * decay(Age(r, now))
    + 0.05 * Clamp01(r.accessCount as real / 10.0)
  }

  /** Over the reals the similarity needs no clamp, and the weighted total lies between 0 and 1. */
  lemma ScoreInRange(root: real -> real, decay: int -> real, embedding: seq<real>, r: Record, now: int)
    requires RootsFit(root, embedding, r.embedding) && 0.0 <= decay(Age(r, now)) <= 1.0
    ensures var similarity := 1.0 - Distance.Cosine(root, embedding, r.embedding) / 2.0;
            0.0 <= similarity <= 1.0 && Clamp01(similarity) == similarity
    ensures 0.0 <= TotalScore(root, decay, embedding, r, now) <= 1.0
  {
    Distance.CosineInRange(root, embedding, r.embedding);
  }

  /** The square roots that the distance of the two vectors takes. */
  predicate RootsFit(root: real -> real, a: seq<real>, b: seq<real>) {
    var m, n := Distance.NormSquared(a, b), Distance.NormSquared(b, a);
    Distance.IsRoot(root(m), m) && Distance.IsRoot(root(n), n)
  }

  /** What each part of the score is worth: of two rows that differ in one respect only, by how much the scores
      differ.  The tenth access is the last that counts. */
  lemma ScoreParts(root: real -> real, decay: int -> real, embedding: seq<real>, r: Record, s: Record, now: int)
    requires RootsFit(root, embedding, r.embedding) && RootsFit(root, embedding, s.embedding)
    ensures var d := TotalScore(root, decay, embedding, s, now) - TotalScore(root, decay, embedding, r, now);
            && (s == r.(importance := s.importance) && 0.0 <= r.importance <= 1.0 && 0.0 <= s.importance <= 1.0 ==>
                  d == 0.15 * (s.importance - r.importance))
            && (s == r.(embedding := s.embedding) ==>
                  d == 0.35 * (Distance.Cosine(root, embedding, r.embedding) -
                               Distance.Cosine(root, embedding, s.embedding)))
            && (s == r.(createdAt := s.createdAt) && r.createdAt <= now && s.createdAt <= now ==>
                  d == 0.10 * (decay(now - s.createdAt) - decay(now - r.createdAt)))
            && (s == r.(accessCount := r.accessCount + 1) ==> d == if r.accessCount < 10 then 0.005 else 0.0)
  {
    Distance.CosineInRange(root, embedding, r.embedding);
    Distance.CosineInRange(root, embedding, s.embedding);
    hide Distance.Cosine;
  }

  /** The best that a row can do. */
  lemma PerfectScore(root: real -> real, decay: int -> real, embedding: seq<real>, r: Record, now: int)
    requires RootsFit(root, embedding, r.embedding) && 0.0 <= decay(Age(r, now)) <= 1.0
    ensures TotalScore(root, decay, embedding, r, now) == 1.0 <==>
            && Distance.Cosine(root, embedding, r.embedding) == 0.0
            && r.importance >= 1.0 && decay(Age(r, now)) == 1.0 && r.accessCount >= 10
  {
    Distance.CosineInRange(root, embedding, r.embedding);
    hide Distance.Cosine;
  }

  function ItemFor(root: real -> real, decay: int -> real, q: Query, r: Record, now: int): Item {
    Item(r.id, r.embedding, TotalScore(root, decay, q.embedding, r, now))
  }

  /** Every row is stored under its own id. */
  ghost predicate Keyed(db: Db) {
    forall id :: id in db.memories ==> db.memories[id].id == id
  }

  /** One item for each candidate that may be returned, and no other. */
  ghost predicate ItemsOfCandidates(root: real -> real, decay: int -> real, db: Db, q: Query, now: int,
                                    candidates: seq<string>, items: seq<Item>)
  {
    && (forall i, j :: 0 <= i < j < |items| ==> items[i].id != items[j].id)
    && (forall i :: 0 <= i < |items| ==>
          items[i].id in candidates && Admits(db, q, now, items[i].id) &&
          items[i] == ItemFor(root, decay, q, db.memories[items[i].id], now))
    && forall id :: id in candidates && Admits(db, q, now, id) ==> exists i :: 0 <= i < |items| && items[i].id == id
  }

  lemma OneMoreCandidate(root: real -> real, decay: int -> real, db: Db, q: Query, now: int, candidates: seq<string>,
                         items: seq<Item>, id: string)
    requires Keyed(db) && id !in candidates && ItemsOfCandidates(root, decay, db, q, now, candidates, items)
    ensures ItemsOfCandidates(root, decay, db, q, now, candidates + [id],
                              if Admits(db, q, now, id) then items + [ItemFor(root, decay, q, db.memories[id], now)]
                              else items)
  {
    hide TotalScore, Passes, Recallable;
    var items1 := if Admits(db, q, now, id) then items + [ItemFor(root, decay, q, db.memories[id], now)] else items;
    forall c | c in candidates + [id] && Admits(db, q, now, c)
      ensures exists i :: 0 <= i < |items1| && items1[i].id == c
    {
      if c == id {
        assert items1[|items|].id == c;
      } else {
        var i :| 0 <= i < |items| && items[i].id == c;
        assert items1[i].id == c;
      }
    }
  }

  lemma NoCandidates(root: real -> real, decay: int -> real, db: Db, q: Query, now: int)
    ensures ItemsOfCandidates(root, decay, db, q, now, [], [])
  {
  }

  /** The loop over the candidates, distinct as the keys of a map are. */
  method ScoreCandidates(root: real -> real, decay: int -> real, db: Db, q: Query, now: int, candidates: seq<string>)
    returns (items: seq<Item>)
    requires Keyed(db) && forall i, j :: 0 <= i < j < |candidates| ==> candidates[i] != candidates[j]
    ensures ItemsOfCandidates(root, decay, db, q, now, candidates, items)
  {
    hide ItemsOfCandidates, ItemFor, Keyed;
    items := [];
    NoCandidates(root, decay, db, q, now);
    assert candidates[..0] == [];
    for i := 0 to |candidates|
      invariant ItemsOfCandidates(root, decay, db, q, now, candidates[..i], items)
    {
      var id := candidates[i];
      OneMoreCandidate(root, decay, db, q, now, candidates[..i], items, id);
      assert candidates[..i + 1] == candidates[..i] + [id];
      if Admits(db, q, now, id) {
        items := items + [ItemFor(root, decay, q, db.memories[id], now)];
      }
    }
    assert candidates[..|candidates|] == candidates;
  }

  /** Which rows may be returned, column by column: the row is the scope's, Active and not expired; of a kind, with
      an importance and with the metadata that the filters ask for. */
  lemma AdmittedRow(db: Db, q: Query, now: int, id: string)
    ensures Admits(db, q, now, id) <==>
            && id in db.memories
            && var r := db.memories[id];
               && r.scope.tenant == q.scope.tenant && r.scope.namespace == q.scope.namespace
               && r.status == Active && (r.expiresAt == None || now < r.expiresAt.value)
               && (q.filters.kinds == None || r.kind in q.filters.kinds.value)
               && (q.filters.minImportance == None || q.filters.minImportance.value <= r.importance)
               && (q.filters.metadata == None ||
                   forall k :: k in q.filters.metadata.value ==>
                     k in r.metadata && r.metadata[k] == q.filters.metadata.value[k])
  {
  }

  /** How the answer was picked from the items. */
  ghost predicate Picked(root: real -> real, q: Query, items: seq<Item>, picks: seq<nat>, answer: seq<Item>) {
    && Positions(items, picks) && answer == At(items, picks) && |picks| == Ranking.Min(q.limit, |items|)
    && match q.mmrLambda
       case Some(l) => Greedy(root, l, items, picks)
       case None => exists order :: StablyDescending(items, order) && AllBelow(order, |items|) && picks <= order
  }

  /** A row in the answer may be returned, once, with its score; the vacuum may not take it at that time. */
  ghost predicate Answers(root: real -> real, decay: int -> real, db: Db, q: Query, now: int, answer: seq<Item>) {
    && (forall i, j :: 0 <= i < j < |answer| ==> answer[i].id != answer[j].id)
    && forall i :: 0 <= i < |answer| ==>
         && Admits(db, q, now, answer[i].id)
         && answer[i] == ItemFor(root, decay, q, db.memories[answer[i].id], now)
         && !Purgeable(db.memories[answer[i].id], now)
  }

  lemma PickedAnswers(root: real -> real, decay: int -> real, db: Db, q: Query, now: int, candidates: seq<string>,
                      items: seq<Item>, picks: seq<nat>, answer: seq<Item>)
    requires ItemsOfCandidates(root, decay, db, q, now, candidates, items) && Picked(root, q, items, picks, answer)
    ensures Answers(root, decay, db, q, now, answer)
  {
    hide TotalScore, Passes, Greedy;
    forall i, j | 0 <= i < j < |answer| ensures answer[i].id != answer[j].id {
      assert answer[i] == items[picks[i]] && answer[j] == items[picks[j]];
    }
    forall i | 0 <= i < |answer|
      ensures Admits(db, q, now, answer[i].id) && answer[i] == ItemFor(root, decay, q, db.memories[answer[i].id], now)
      ensures !Purgeable(db.memories[answer[i].id], now)
    {
      assert answer[i] == items[picks[i]];
    }
  }

  lemma OrderIsDistinct(items: seq<Item>, order: seq<nat>)
    requires StablyDescending(items, order)
    ensures Positions(items, order)
  {
    forall i, j | 0 <= i < j < |order| ensures order[i] != order[j] {
      assert Before(items, order[i], order[j]);
    }
  }

  method Rank(root: real -> real, q: Query, items: seq<Item>) returns (answer: seq<Item>, ghost picks: seq<nat>)
    ensures Picked(root, q, items, picks, answer)
    ensures |answer| == Ranking.Min(q.limit, |items|) && forall x :: x in answer ==> x in items
  {
    match q.mmrLambda {
      case Some(l) =>
        answer, picks := Mmr(root, l, items, q.limit);
      case None =>
        var sorted;
        ghost var order;
        sorted, order := SortDescending(items);
        OrderIsDistinct(items, order);
        var n := Ranking.Min(q.limit, |sorted|);
        answer, picks := sorted[..n], order[..n];
        assert picks <= order;
    }
  }

  /** `recall`, given the distinct candidates that the vector and text searches found. */
  method Recall(root: real -> real, decay: int -> real, db: Db, q: Query, now: int, candidates: seq<string>, dims: nat)
    returns (answer: Option<seq<Item>>, ghost items: seq<Item>, ghost picks: seq<nat>)
    requires Keyed(db) && forall i, j :: 0 <= i < j < |candidates| ==> candidates[i] != candidates[j]
    ensures answer.Some? <==>
              q.limit > 0 && |q.embedding| == dims && (q.mmrLambda == None || 0.0 <= q.mmrLambda.value <= 1.0)
    ensures answer.Some? && q.mmrLambda == None ==> BestFirst(root, decay, db, q, now, IdSet(candidates), answer.value)
    ensures answer.Some? ==>
              && ItemsOfCandidates(root, decay, db, q, now, candidates, items)
              && Picked(root, q, items, picks, answer.value)
              && Answers(root, decay, db, q, now, answer.value)
  {
    if !ValidQuery(q, dims) {
      return None, [], [];
    }
    hide ItemsOfCandidates, Picked, Answers, BestFirst;
    var scored := ScoreCandidates(root, decay, db, q, now, candidates);
    items := scored;
    var ranked;
    ranked, picks := Rank(root, q, scored);
    PickedAnswers(root, decay, db, q, now, candidates, items, picks, ranked);
    if q.mmrLambda.None? { SortedIsBestFirst(root, decay, db, q, now, candidates, items, picks, ranked); }
    answer := Some(ranked);
  }

  /** An answer with nothing better left out: descending by score, and a row that may be returned is in it, unless
      it is full of rows that score at least as well. */
  ghost predicate BestFirst(root: real -> real, decay: int -> real, db: Db, q: Query, now: int, among: set<string>,
                            answer: seq<Item>)
  {
    && (forall i, j :: 0 <= i < j < |answer| ==> answer[i].score >= answer[j].score)
    && forall id :: id in among && Admits(db, q, now, id) ==>
         InOrOutdone(answer, q.limit, id, TotalScore(root, decay, q.embedding, db.memories[id], now))
  }

  /** The id is in the answer, or the answer is full and nothing in it scores less. */
  predicate InOrOutdone(answer: seq<Item>, limit: nat, id: string, score: real) {
    || (exists i :: 0 <= i < |answer| && answer[i].id == id)
    || (|answer| == limit && forall i :: 0 <= i < |answer| ==> answer[i].score >= score)
  }

  /** In a descending order a position is among the first n, or none of those scores less. */
  lemma FrontIsBest(items: seq<Item>, order: seq<nat>, n: nat, p: nat)
    requires StablyDescending(items, order) && AllBelow(order, |items|) && n <= |order| && p < |items|
    ensures (exists i :: 0 <= i < n && order[i] == p) ||
            (n < |order| && forall i :: 0 <= i < n ==> items[order[i]].score >= items[p].score)
  {
    assert p in order;
    var j :| 0 <= j < |order| && order[j] == p;
    if j >= n {
      forall i | 0 <= i < n ensures items[order[i]].score >= items[p].score {
        assert Before(items, order[i], order[j]);
      }
    }
  }

  /** Without lambda the answer is descending, and an item is in it unless it is full of items that score as much. */
  lemma SortedAnswer(root: real -> real, q: Query, items: seq<Item>, picks: seq<nat>, answer: seq<Item>)
    requires Picked(root, q, items, picks, answer) && q.mmrLambda.None?
    ensures forall i, j :: 0 <= i < j < |answer| ==> answer[i].score >= answer[j].score
    ensures forall p :: 0 <= p < |items| ==> InOrOutdone(answer, q.limit, items[p].id, items[p].score)
  {
    var order :| StablyDescending(items, order) && AllBelow(order, |items|) && picks <= order;
    assert forall i :: 0 <= i < |answer| ==> answer[i] == items[order[i]];
    forall i, j | 0 <= i < j < |answer| ensures answer[i].score >= answer[j].score {
      assert Before(items, order[i], order[j]);
    }
    forall p | 0 <= p < |items| ensures InOrOutdone(answer, q.limit, items[p].id, items[p].score) {
      hide StablyDescending, AllBelow, Greedy;
      FrontIsBest(items, order, |picks|, p);
      if i :| 0 <= i < |picks| && order[i] == p { assert answer[i].id == items[p].id; }
    }
  }

  /** So it is the best that the candidates hold. */
  lemma SortedIsBestFirst(root: real -> real, decay: int -> real, db: Db, q: Query, now: int, candidates: seq<string>,
                          items: seq<Item>, picks: seq<nat>, answer: seq<Item>)
    requires ItemsOfCandidates(root, decay, db, q, now, candidates, items) && Picked(root, q, items, picks, answer)
    requires q.mmrLambda.None?
    ensures BestFirst(root, decay, db, q, now, IdSet(candidates), answer)
  {
    hide TotalScore, Passes, Recallable, Picked, InOrOutdone;
    SortedAnswer(root, q, items, picks, answer);
    forall id | id in IdSet(candidates) && Admits(db, q, now, id)
      ensures exists p :: 0 <= p < |items| && items[p].id == id &&
                          items[p].score == TotalScore(root, decay, q.embedding, db.memories[id], now)
    {
      hide Admits;
      var p :| 0 <= p < |items| && items[p].id == id;
    }
  }

  /** Lambda one asks for what no lambda asks for. */
  lemma LambdaOneIsNoLambda(root: real -> real, q: Query, items: seq<Item>, mmr: seq<nat>, sorted: seq<nat>,
                            a: seq<Item>, b: seq<Item>)
    requires Picked(root, q.(mmrLambda := Some(1.0)), items, mmr, a)
    requires Picked(root, q.(mmrLambda := None), items, sorted, b)
    ensures a == b
  {
    var order :| StablyDescending(items, order) && AllBelow(order, |items|) && sorted <= order;
    MmrIsSortAtLambdaOne(root, items, mmr, order, |mmr|);
    assert mmr[..|mmr|] == mmr && sorted == order[..|sorted|];
  }
}
