/** The two ends of recall: maximal marginal relevance, and sorting by score. */
module Ranking {
  import opened Options
  import Distance

  datatype Item = Item(id: string, embedding: seq<real>, score: real)

  function Clamp01(x: real): (y: real)
    ensures 0.0 <= y <= 1.0
  {
    if x < 0.0 then 0.0 else if x > 1.0 then 1.0 else x
  }

  function Min(a: nat, b: nat): nat {
    if a < b then a else b
  }

  function Similarity(root: real -> real, a: Item, b: Item): real {
    Clamp01(1.0 - Distance.Cosine(root, a.embedding, b.embedding))
  }

  /** The greatest similarity to a selected item, zero if there is none. */
  function Redundancy(root: real -> real, c: Item, selected: seq<Item>): real {
    if selected == [] then 0.0
    else Distance.Max(Redundancy(root, c, selected[..|selected| - 1]), Similarity(root, c, selected[|selected| - 1]))
  }

  function MmrScore(root: real -> real, weight: real, c: Item, selected: seq<Item>): real {
    weight * c.score - (1.0 - weight) * Redundancy(root, c, selected)
  }

  predicate InRange(items: seq<Item>, positions: seq<nat>) {
    forall i :: 0 <= i < |positions| ==> positions[i] < |items|
  }

  function At(items: seq<Item>, positions: seq<nat>): (chosen: seq<Item>)
    requires InRange(items, positions)
    ensures |chosen| == |positions|
  {
    seq(|positions|, i requires 0 <= i < |positions| => items[positions[i]])
  }

  ghost predicate Positions(items: seq<Item>, picks: seq<nat>) {
    && InRange(items, picks)
    && forall i, j :: 0 <= i < j < |picks| ==> picks[i] != picks[j]
  }

  /** Pick number k is the first of the best of what was left. */
  ghost predicate GreedyPick(root: real -> real, weight: real, items: seq<Item>, picks: seq<nat>, k: nat)
    requires k < |picks| && Positions(items, picks)
  {
    var selected := At(items, picks[..k]);
    var best := MmrScore(root, weight, items[picks[k]], selected);
    forall p: nat :: p < |items| && p !in picks[..k] ==>
      var score := MmrScore(root, weight, items[p], selected);
      score <= best && (p < picks[k] ==> score < best)
  }

  ghost predicate Greedy(root: real -> real, weight: real, items: seq<Item>, picks: seq<nat>) {
    Positions(items, picks) && forall k :: 0 <= k < |picks| ==> GreedyPick(root, weight, items, picks, k)
  }

  /** The first of the best candidates. */
  ghost predicate FirstBest(root: real -> real, weight: real, candidates: seq<Item>, selected: seq<Item>, best: nat) {
    best < |candidates| &&
    forall i :: 0 <= i < |candidates| ==>
      var score := MmrScore(root, weight, candidates[i], selected);
      var top := MmrScore(root, weight, candidates[best], selected);
      score <= top && (i < best ==> score < top)
  }

  /** The loop over the selected items. */
  method MaxSimilarity(root: real -> real, c: Item, selected: seq<Item>) returns (maxSim: real)
    ensures maxSim == Redundancy(root, c, selected)
  {
    maxSim := 0.0;
    for i := 0 to |selected|
      invariant maxSim == Redundancy(root, c, selected[..i])
    {
      assert selected[..i + 1][..i] == selected[..i];
      var sim := Similarity(root, c, selected[i]);
      if sim > maxSim {
        maxSim := sim;
      }
    }
    assert selected[..|selected|] == selected;
  }

  /** The loop over the remaining items: the first strict maximum. */
  method BestIndex(root: real -> real, weight: real, remaining: seq<Item>, selected: seq<Item>) returns (best: nat)
    requires remaining != []
    ensures FirstBest(root, weight, remaining, selected, best)
    ensures forall i :: 0 <= i < |remaining| ==>
              Worth(root, weight, selected, remaining[best], remaining[i], i < best)
  {
    best := 0;
    var bestScore: Option<real> := None;
    for idx := 0 to |remaining|
      invariant bestScore.None? ==> idx == 0
      invariant bestScore.Some? ==> best < idx && bestScore.value == MmrScore(root, weight, remaining[best], selected)
      invariant bestScore.Some? ==> forall i :: 0 <= i < idx ==>
        MmrScore(root, weight, remaining[i], selected) <= bestScore.value
      invariant bestScore.Some? ==> forall i :: 0 <= i < best ==>
        MmrScore(root, weight, remaining[i], selected) < bestScore.value
    {
      hide MmrScore, Redundancy;
      var redundancy := MaxSimilarity(root, remaining[idx], selected);
      var score := ScoreWith(root, weight, remaining[idx], selected, redundancy);
      if bestScore.None? || score > bestScore.value {
        bestScore, best := Some(score), idx;
      }
    }
    forall i | 0 <= i < |remaining| ensures Worth(root, weight, selected, remaining[best], remaining[i], i < best) {
      WorthIsScore(root, weight, selected, remaining[best], remaining[i], i < best);
      hide Worth, MmrScore;
    }
  }

  function ScoreWith(root: real -> real, weight: real, c: Item, ghost selected: seq<Item>, redundancy: real): (s: real)
    requires redundancy == Redundancy(root, c, selected)
    ensures s == MmrScore(root, weight, c, selected)
  {
    weight * c.score - (1.0 - weight) * redundancy
  }

  /** What remains, in the original order, next to what was picked. */
  ghost predicate Partition(items: seq<Item>, picks: seq<nat>, left: seq<nat>) {
    && Positions(items, picks) && Positions(items, left)
    && (forall i, j :: 0 <= i < j < |left| ==> left[i] < left[j])
    && (forall p: nat :: p < |items| ==> (p in left <==> p !in picks))
    && |picks| + |left| == |items|
  }

  function Without(left: seq<nat>, best: nat): seq<nat>
    requires best < |left|
  {
    left[..best] + left[best + 1..]
  }

  lemma WithoutElements(left: seq<nat>, best: nat, p: nat)
    requires best < |left| && forall i, j :: 0 <= i < j < |left| ==> left[i] < left[j]
    ensures p in Without(left, best) <==> p in left && p != left[best]
  {
    if p in left && p != left[best] {
      var i :| 0 <= i < |left| && left[i] == p;
      assert Without(left, best)[if i < best then i else i - 1] == p;
    }
  }

  lemma PartitionStep(items: seq<Item>, picks: seq<nat>, left: seq<nat>, best: nat)
    requires Partition(items, picks, left) && best < |left|
    ensures Partition(items, picks + [left[best]], Without(left, best))
  {
    var x, picks1, left1 := left[best], picks + [left[best]], Without(left, best);
    assert x in left && x !in picks;
    assert Positions(items, picks1) by {
      forall i | 0 <= i < |picks| ensures picks1[i] != x {
        assert picks[i] in picks;
      }
    }
    forall p: nat | p < |items| ensures p in left1 <==> p !in picks1 {
      WithoutElements(left, best, p);
      assert p in picks1 <==> p in picks || p == x;
    }
  }

  lemma GreedyStep(root: real -> real, weight: real, items: seq<Item>, picks: seq<nat>, left: seq<nat>, best: nat)
    requires Partition(items, picks, left) && Greedy(root, weight, items, picks)
    requires FirstBest(root, weight, At(items, left), At(items, picks), best)
    ensures Greedy(root, weight, items, picks + [left[best]])
  {
    hide MmrScore, Redundancy;
    PartitionStep(items, picks, left, best);
    var x, picks1 := left[best], picks + [left[best]];
    forall k | 0 <= k < |picks1| ensures GreedyPick(root, weight, items, picks1, k) {
      if k < |picks| {
        assert picks1[..k] == picks[..k];
        assert GreedyPick(root, weight, items, picks, k);
      } else {
        assert picks1[..k] == picks;
        forall p: nat | p < |items| && p !in picks
          ensures var selected := At(items, picks);
                  var score := MmrScore(root, weight, items[p], selected);
                  var top := MmrScore(root, weight, items[x], selected);
                  score <= top && (p < x ==> score < top)
        {
          var i :| 0 <= i < |left| && left[i] == p;
          assert At(items, left)[i] == items[p] && At(items, left)[best] == items[x];
        }
      }
    }
  }

  lemma AtStep(items: seq<Item>, picks: seq<nat>, left: seq<nat>, best: nat)
    requires Partition(items, picks, left) && best < |left|
    ensures InRange(items, picks + [left[best]]) && InRange(items, Without(left, best))
    ensures At(items, picks + [left[best]]) == At(items, picks) + [At(items, left)[best]]
    ensures At(items, Without(left, best)) == At(items, left)[..best] + At(items, left)[best + 1..]
  {
  }

  /** The MMR loop: as many items as there are, up to the limit, none twice, each the first best of the rest. */
  method Mmr(root: real -> real, weight: real, items: seq<Item>, limit: nat) returns (selected: seq<Item>,
             ghost picks: seq<nat>)
    ensures Greedy(root, weight, items, picks) && selected == At(items, picks)
    ensures Balanced(root, weight, items, picks)
    ensures |selected| == Min(limit, |items|)
  {
    selected, picks := [], [];
    var remaining := items;
    ghost var left: seq<nat> := seq(|items|, i requires 0 <= i < |items| => i);
    assert remaining == At(items, left);
    forall p: nat | p < |items| ensures p in left {
      assert left[p] == p;
    }
    while remaining != [] && |selected| < limit
      invariant InRange(items, picks) && InRange(items, left)
      invariant Partition(items, picks, left) && Greedy(root, weight, items, picks)
      invariant selected == At(items, picks) && remaining == At(items, left) && |selected| <= limit
      invariant |picks| + |left| == |items|
      decreases |remaining|
    {
      hide Greedy, Partition, At, Without, InRange, FirstBest;
      var best := BestIndex(root, weight, remaining, selected);
      var chosen := remaining[best];
      PickOne(root, weight, items, picks, left, best);
      remaining := remaining[..best] + remaining[best + 1..];
      selected := selected + [chosen];
      picks, left := picks + [left[best]], Without(left, best);
    }
    GreedyIsBalanced(root, weight, items, picks);
    hide Greedy, Balanced;
  }

  lemma PickOne(root: real -> real, weight: real, items: seq<Item>, picks: seq<nat>, left: seq<nat>, best: nat)
    requires Partition(items, picks, left) && Greedy(root, weight, items, picks)
    requires InRange(items, picks) && InRange(items, left)
    requires FirstBest(root, weight, At(items, left), At(items, picks), best)
    ensures best < |left|
    ensures var picks1, left1 := picks + [left[best]], Without(left, best);
            && InRange(items, picks1) && InRange(items, left1) && |left1| == |left| - 1
            && Partition(items, picks1, left1) && Greedy(root, weight, items, picks1)
            && At(items, picks1) == At(items, picks) + [At(items, left)[best]]
            && At(items, left1) == At(items, left)[..best] + At(items, left)[best + 1..]
  {
    assert best < |left|;
    hide Greedy, FirstBest;
    PartitionStep(items, picks, left, best);
    AtStep(items, picks, left, best);
    GreedyStep(root, weight, items, picks, left, best);
  }

  // ---- what the picks trade off ----

  /** `m` is the least number from zero up that no similarity to a selected item exceeds. */
  ghost predicate GreatestSimilarity(root: real -> real, c: Item, selected: seq<Item>, m: real) {
    && m >= 0.0
    && (forall i :: 0 <= i < |selected| ==> Similarity(root, c, selected[i]) <= m)
    && (m == 0.0 || exists i :: 0 <= i < |selected| && Similarity(root, c, selected[i]) == m)
  }

  lemma {:induction false} RedundancyIsGreatest(root: real -> real, c: Item, selected: seq<Item>)
    ensures GreatestSimilarity(root, c, selected, Redundancy(root, c, selected))
    decreases |selected|
  {
    hide Similarity;
    if selected == [] {
    } else {
      var n := |selected| - 1;
      RedundancyIsGreatest(root, c, selected[..n]);
      var before, m := Redundancy(root, c, selected[..n]), Redundancy(root, c, selected);
      if m == before && m != 0.0 {
        var i :| 0 <= i < n && Similarity(root, c, selected[..n][i]) == m;
        assert Similarity(root, c, selected[i]) == m;
      } else if m != before {
        assert Similarity(root, c, selected[n]) == m;
      }
      forall i | 0 <= i < |selected| ensures Similarity(root, c, selected[i]) <= m {
        if i < n { assert selected[..n][i] == selected[i]; }
      }
    }
  }

  lemma GreatestIsUnique(root: real -> real, c: Item, selected: seq<Item>, m: real, m': real)
    requires GreatestSimilarity(root, c, selected, m) && GreatestSimilarity(root, c, selected, m')
    ensures m == m'
  {
    hide Similarity;
  }

  /** The item x is worth taking before y: what it gains in score outweighs what it loses in novelty. */
  ghost predicate Worth(root: real -> real, weight: real, selected: seq<Item>, x: Item, y: Item, strictly: bool) {
    forall mx, my :: GreatestSimilarity(root, x, selected, mx) && GreatestSimilarity(root, y, selected, my) ==>
      var gain, loss := weight * (x.score - y.score), (1.0 - weight) * (mx - my);
      gain >= loss && (strictly ==> gain > loss)
  }

  lemma WorthIsScore(root: real -> real, weight: real, selected: seq<Item>, x: Item, y: Item, strictly: bool)
    ensures var best, score := MmrScore(root, weight, x, selected), MmrScore(root, weight, y, selected);
            Worth(root, weight, selected, x, y, strictly) <==> score <= best && (strictly ==> score < best)
  {
    hide GreatestSimilarity, Redundancy;
    var mx, my := Redundancy(root, x, selected), Redundancy(root, y, selected);
    RedundancyIsGreatest(root, x, selected);
    RedundancyIsGreatest(root, y, selected);
    TradeOff(weight, x.score, y.score, mx, my);
    forall m, n | GreatestSimilarity(root, x, selected, m) && GreatestSimilarity(root, y, selected, n)
      ensures m == mx && n == my
    {
      GreatestIsUnique(root, x, selected, m, mx);
      GreatestIsUnique(root, y, selected, n, my);
    }
  }

  /** Pick number k is worth taking before p. */
  ghost predicate Outweighs(root: real -> real, weight: real, items: seq<Item>, picks: seq<nat>, k: nat, p: nat)
    requires k < |picks| && Positions(items, picks) && p < |items|
  {
    Worth(root, weight, At(items, picks[..k]), items[picks[k]], items[p], p < picks[k])
  }

  lemma OutweighsIsScore(root: real -> real, weight: real, items: seq<Item>, picks: seq<nat>, k: nat, p: nat)
    requires k < |picks| && Positions(items, picks) && p < |items|
    ensures var selected := At(items, picks[..k]);
            var score, best := MmrScore(root, weight, items[p], selected),
                               MmrScore(root, weight, items[picks[k]], selected);
            Outweighs(root, weight, items, picks, k, p) <==> score <= best && (p < picks[k] ==> score < best)
  {
    hide MmrScore, Worth, At;
    WorthIsScore(root, weight, At(items, picks[..k]), items[picks[k]], items[p], p < picks[k]);
  }

  lemma TradeOff(weight: real, a: real, b: real, m: real, n: real)
    ensures weight * (a - b) - (1.0 - weight) * (m - n) ==
            (weight * a - (1.0 - weight) * m) - (weight * b - (1.0 - weight) * n)
  {
  }

  /** Every pick outweighs everything that was left, those before it strictly. */
  ghost predicate Balanced(root: real -> real, weight: real, items: seq<Item>, picks: seq<nat>) {
    && Positions(items, picks)
    && forall k, p: nat :: 0 <= k < |picks| && p < |items| && p !in picks[..k] ==>
         Outweighs(root, weight, items, picks, k, p)
  }

  /** The loop's picks are exactly the balanced ones. */
  lemma GreedyIsBalanced(root: real -> real, weight: real, items: seq<Item>, picks: seq<nat>)
    ensures Greedy(root, weight, items, picks) <==> Balanced(root, weight, items, picks)
  {
    hide MmrScore, At, Outweighs;
    if Greedy(root, weight, items, picks) {
      forall k, p: nat | 0 <= k < |picks| && p < |items| && p !in picks[..k]
        ensures Outweighs(root, weight, items, picks, k, p)
      {
        OutweighsIsScore(root, weight, items, picks, k, p);
        assert GreedyPick(root, weight, items, picks, k);
      }
    }
    if Balanced(root, weight, items, picks) {
      forall k | 0 <= k < |picks| ensures GreedyPick(root, weight, items, picks, k) {
        forall p: nat | p < |items| && p !in picks[..k]
          ensures var selected := At(items, picks[..k]);
                  var score, best := MmrScore(root, weight, items[p], selected),
                                     MmrScore(root, weight, items[picks[k]], selected);
                  score <= best && (p < picks[k] ==> score < best)
        {
          assert Outweighs(root, weight, items, picks, k, p);
          OutweighsIsScore(root, weight, items, picks, k, p);
        }
      }
    }
  }

  /** With lambda zero a pick is a least similar one of what was left. */
  lemma LambdaZeroPicksLeastSimilar(root: real -> real, items: seq<Item>, picks: seq<nat>, k: nat, p: nat, mx: real,
                                    mp: real)
    requires Greedy(root, 0.0, items, picks) && k < |picks| && p < |items| && p !in picks[..k]
    requires GreatestSimilarity(root, items[picks[k]], At(items, picks[..k]), mx)
    requires GreatestSimilarity(root, items[p], At(items, picks[..k]), mp)
    ensures mx <= mp
  {
    GreedyIsBalanced(root, 0.0, items, picks);
    hide Greedy, GreatestSimilarity, At;
    assert Outweighs(root, 0.0, items, picks, k, p);
  }

  /** Below one, of two items with equal scores the strictly more similar one is not picked before the other. */
  lemma EqualScoresPickLessSimilar(root: real -> real, weight: real, items: seq<Item>, picks: seq<nat>, k: nat, p: nat,
                                   mx: real, mp: real)
    requires weight < 1.0 && Greedy(root, weight, items, picks) && k < |picks| && p < |items| && p !in picks[..k]
    requires items[p].score == items[picks[k]].score
    requires GreatestSimilarity(root, items[picks[k]], At(items, picks[..k]), mx)
    requires GreatestSimilarity(root, items[p], At(items, picks[..k]), mp)
    ensures mx <= mp
  {
    GreedyIsBalanced(root, weight, items, picks);
    hide Greedy, GreatestSimilarity, At;
    assert Outweighs(root, weight, items, picks, k, p);
    NotPositive(1.0 - weight, mx - mp);
  }

  lemma NotPositive(w: real, d: real)
    requires w > 0.0 && w * d <= 0.0
    ensures d <= 0.0
  {
  }

  /** The first pick has the greatest score, if lambda is positive. */
  lemma FirstPickScoresBest(root: real -> real, weight: real, items: seq<Item>, picks: seq<nat>, p: nat)
    requires weight > 0.0 && Greedy(root, weight, items, picks) && picks != [] && p < |items|
    ensures items[p].score <= items[picks[0]].score
  {
    GreedyIsBalanced(root, weight, items, picks);
    hide Greedy;
    assert picks[..0] == [] && At(items, picks[..0]) == [];
    assert Outweighs(root, weight, items, picks, 0, p);
    assert GreatestSimilarity(root, items[picks[0]], [], 0.0) && GreatestSimilarity(root, items[p], [], 0.0);
    NotPositive(weight, items[p].score - items[picks[0]].score);
  }

  /** A vector is wholly similar to another exactly if their distance is zero, and not at all exactly if they do not
      point the same way at all. */
  lemma SimilarityEnds(root: real -> real, a: Item, b: Item)
    requires var m, n := Distance.NormSquared(a.embedding, b.embedding), Distance.NormSquared(b.embedding, a.embedding);
             Distance.IsRoot(root(m), m) && Distance.IsRoot(root(n), n)
    ensures Similarity(root, a, b) == 1.0 <==> Distance.Cosine(root, a.embedding, b.embedding) == 0.0
    ensures Similarity(root, a, b) == 0.0 <==> Distance.Dot(a.embedding, b.embedding) <= 0.0
  {
    Distance.CosineInRange(root, a.embedding, b.embedding);
    Distance.CosineAtLeastOne(root, a.embedding, b.embedding);
    hide Distance.Cosine, Distance.Dot;
  }

  // ---- the sorting path ----

  /** The order of a stable sort by descending score. */
  predicate Before(items: seq<Item>, p: nat, q: nat)
    requires p < |items| && q < |items|
  {
    items[p].score > items[q].score || (items[p].score == items[q].score && p < q)
  }

  ghost predicate StablyDescending(items: seq<Item>, order: seq<nat>) {
    && InRange(items, order)
    && forall i, j :: 0 <= i < j < |order| ==> Before(items, order[i], order[j])
  }

  /** All positions below n, each once. */
  ghost predicate AllBelow(order: seq<nat>, n: nat) {
    |order| == n && forall p: nat :: p in order <==> p < n
  }

  lemma InsertKeepsOrder(items: seq<Item>, order: seq<nat>, p: nat, at: nat)
    requires StablyDescending(items, order) && AllBelow(order, p) && p < |items| && at <= |order|
    requires forall i :: 0 <= i < at ==> items[order[i]].score >= items[p].score
    requires forall i :: at <= i < |order| ==> items[order[i]].score < items[p].score
    ensures var order1 := order[..at] + [p] + order[at..]; StablyDescending(items, order1) && AllBelow(order1, p + 1)
  {
    InsertKeepsPositions(order, p, at);
    InsertKeepsDescent(items, order, p, at);
  }

  lemma InsertKeepsPositions(order: seq<nat>, p: nat, at: nat)
    requires AllBelow(order, p) && at <= |order|
    ensures AllBelow(order[..at] + [p] + order[at..], p + 1)
  {
    var order1 := order[..at] + [p] + order[at..];
    forall q: nat ensures q in order1 <==> q < p + 1 {
      assert order == order[..at] + order[at..];
      assert q in order1 <==> q == p || q in order;
    }
  }

  lemma InsertKeepsDescent(items: seq<Item>, order: seq<nat>, p: nat, at: nat)
    requires StablyDescending(items, order) && AllBelow(order, p) && p < |items| && at <= |order|
    requires forall i :: 0 <= i < at ==> items[order[i]].score >= items[p].score
    requires forall i :: at <= i < |order| ==> items[order[i]].score < items[p].score
    ensures StablyDescending(items, order[..at] + [p] + order[at..])
  {
    var order1 := order[..at] + [p] + order[at..];
    forall i | 0 <= i < |order| ensures order[i] < p {
      assert order[i] in order;
    }
    hide AllBelow;
    forall i, j | 0 <= i < j < |order1| ensures Before(items, order1[i], order1[j]) {
      if i == at {
        assert order1[j] == order[j - 1];
      } else if j == at {
        assert order1[i] == order[i];
      } else {
        hide Before;
        assert order1[i] == order[if i < at then i else i - 1] && order1[j] == order[if j < at then j else j - 1];
      }
    }
  }

  /** A stable sort by descending score: each position goes behind those with no smaller score. */
  method SortDescending(items: seq<Item>) returns (sorted: seq<Item>, ghost order: seq<nat>)
    ensures StablyDescending(items, order) && AllBelow(order, |items|)
    ensures sorted == At(items, order)
    ensures |sorted| == |items| && forall i, j :: 0 <= i < j < |sorted| ==> sorted[i].score >= sorted[j].score
  {
    var positions: seq<nat> := [];
    for p: nat := 0 to |items|
      invariant StablyDescending(items, positions) && AllBelow(positions, p)
    {
      var at: nat := |positions|;
      while at > 0 && items[positions[at - 1]].score < items[p].score
        invariant at <= |positions| && InRange(items, positions)
        invariant forall i :: at <= i < |positions| ==> items[positions[i]].score < items[p].score
      {
        at := at - 1;
      }
      InsertKeepsOrder(items, positions, p, at);
      positions := positions[..at] + [p] + positions[at..];
    }
    order := positions;
    sorted := At(items, positions);
    forall i, j | 0 <= i < j < |sorted| ensures sorted[i].score >= sorted[j].score {
      assert Before(items, order[i], order[j]);
    }
  }

  /** With lambda one the MMR score is the score. */
  lemma LambdaOne(root: real -> real, c: Item, selected: seq<Item>)
    ensures MmrScore(root, 1.0, c, selected) == c.score
  {
  }

  lemma OrderIsInjective(items: seq<Item>, order: seq<nat>, k: nat)
    requires StablyDescending(items, order) && k < |order|
    ensures order[k] !in order[..k] && forall j :: 0 <= j < k ==> order[j] in order[..k]
  {
    forall i | 0 <= i < k ensures order[i] != order[k] && order[i] == order[..k][i] {
      assert Before(items, order[i], order[k]);
    }
  }

  /** Both paths pick the same position next. */
  lemma SamePick(root: real -> real, items: seq<Item>, picks: seq<nat>, order: seq<nat>, k: nat)
    requires Greedy(root, 1.0, items, picks) && k < |picks| && |picks| <= |order|
    requires StablyDescending(items, order) && AllBelow(order, |items|) && picks[..k] == order[..k]
    ensures picks[k] == order[k]
  {
    assert GreedyPick(root, 1.0, items, picks, k);
    hide Greedy, GreedyPick, MmrScore;
    var x, y := picks[k], order[k];
    assert x !in picks[..k];
    assert x in order;
    var j :| 0 <= j < |order| && order[j] == x;
    OrderIsInjective(items, order, k);
    FirstOfBest(root, items, picks, k, y);
    assert j >= k;
    assert j > k ==> Before(items, y, x);
  }

  lemma FirstOfBest(root: real -> real, items: seq<Item>, picks: seq<nat>, k: nat, p: nat)
    requires k < |picks| && Positions(items, picks) && GreedyPick(root, 1.0, items, picks, k)
    requires p < |items| && p !in picks[..k]
    ensures items[p].score <= items[picks[k]].score && (p < picks[k] ==> items[p].score < items[picks[k]].score)
  {
    var selected := At(items, picks[..k]);
    LambdaOne(root, items[p], selected);
    LambdaOne(root, items[picks[k]], selected);
    hide MmrScore;
  }

  /** With lambda one the MMR path and the sorting path give the same items in the same order, ties included. */
  lemma {:induction false} MmrIsSortAtLambdaOne(root: real -> real, items: seq<Item>, picks: seq<nat>,
                                                order: seq<nat>, k: nat)
    requires Greedy(root, 1.0, items, picks) && StablyDescending(items, order) && AllBelow(order, |items|)
    requires k <= |picks| <= |items|
    ensures picks[..k] == order[..k] && At(items, picks[..k]) == At(items, order)[..k]
    decreases k
  {
    if k == 0 {
    } else {
      MmrIsSortAtLambdaOne(root, items, picks, order, k - 1);
      SamePick(root, items, picks, order, k - 1);
    }
  }

  /** Two greedy selections agree: the answer is determined. */
  lemma {:induction false} GreedyIsUnique(root: real -> real, weight: real, items: seq<Item>, a: seq<nat>,
                                          b: seq<nat>, k: nat)
    requires Greedy(root, weight, items, a) && Greedy(root, weight, items, b) && k <= |a| && k <= |b|
    ensures a[..k] == b[..k]
    decreases k
  {
    if k == 0 {
    } else {
      hide GreedyPick;
      GreedyIsUnique(root, weight, items, a, b, k - 1);
      assert GreedyPick(root, weight, items, a, k - 1) && GreedyPick(root, weight, items, b, k - 1);
      PickIsUnique(root, weight, items, a, b, k - 1);
      assert a[..k] == a[..k - 1] + [a[k - 1]] && b[..k] == b[..k - 1] + [b[k - 1]];
    }
  }

  lemma PickIsUnique(root: real -> real, weight: real, items: seq<Item>, a: seq<nat>, b: seq<nat>, k: nat)
    requires Positions(items, a) && Positions(items, b) && k < |a| && k < |b| && a[..k] == b[..k]
    requires GreedyPick(root, weight, items, a, k) && GreedyPick(root, weight, items, b, k)
    ensures a[k] == b[k]
  {
    hide MmrScore, At;
    assert a[k] !in a[..k] && b[k] !in b[..k];
  }
}
