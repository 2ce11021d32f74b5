/** Linking a new node into one layer: which lists change, and how. */
module Linking {
  import opened TopK
  import opened CandidateHeap
  import opened HnswGraph
  import opened LayerSearch
  import opened Descent

  const EF_CONSTRUCTION: nat := 200

  function KeySeq(s: seq<Scored>): (keys: seq<nat>)
    ensures |keys| == |s| && forall i :: 0 <= i < |s| ==> keys[i] == s[i].key
  {
    seq(|s|, i requires 0 <= i < |s| => s[i].key)
  }

  function ScoredLinks(ds: seq<real>, links: seq<nat>): (s: seq<Scored>)
    requires forall i :: 0 <= i < |links| ==> links[i] < |ds|
    ensures |s| == |links| && forall i :: 0 <= i < |s| ==> s[i] == Scored(links[i], ds[links[i]])
  {
    seq(|links|, i requires 0 <= i < |links| => Scored(links[i], ds[links[i]]))
  }

  /** `list` names the `limit` nearest of `links`. */
  ghost predicate ClosestLinks(list: seq<nat>, links: seq<nat>, ds: seq<real>, limit: nat) {
    && (forall i :: 0 <= i < |links| ==> links[i] < |ds|)
    && exists top :: IsTopK(top, multiset(ScoredLinks(ds, links)), limit) && list == KeySeq(top)
  }

  lemma TwiceInSeq<T>(s: seq<T>, i: nat, j: nat)
    requires i < j < |s| && s[i] == s[j]
    ensures multiset(s)[s[i]] >= 2
  {
    SplitCounts(s, j);
    assert s[i] in s[..j] && s[j] in s[j..];
    assert multiset(s)[s[i]] == multiset(s[..j])[s[i]] + multiset(s[j..])[s[i]];
  }

  lemma {:induction false} OnceInSeq(s: seq<Scored>, x: Scored)
    requires NoRepeats(KeySeq(s))
    ensures multiset(s)[x] <= 1
  {
    if s == [] {
    } else {
      var n := |s| - 1;
      var t := s[..n];
      assert s == t + [s[n]];
      assert KeySeq(s)[..n] == KeySeq(t);
      OnceInSeq(t, x);
      assert forall i :: 0 <= i < n ==> KeySeq(s)[i] != KeySeq(s)[n];
      assert s[n] !in t;
    }
  }

  /** Picking from a list without repeated keys yields a list without repeated keys. */
  lemma PickedKeys(top: seq<Scored>, s: seq<Scored>)
    requires multiset(top) <= multiset(s) && NoRepeats(KeySeq(s))
    ensures NoRepeats(KeySeq(top))
    ensures forall v :: v in KeySeq(top) ==> v in KeySeq(s)
  {
    forall i | 0 <= i < |top| ensures top[i] in s {
      assert top[i] in multiset(top);
    }
    forall i | 0 <= i < |top| ensures KeySeq(top)[i] in KeySeq(s) {
      var j :| 0 <= j < |s| && s[j] == top[i];
      assert KeySeq(s)[j] == top[i].key;
    }
    forall i, j | 0 <= i < j < |top| ensures KeySeq(top)[i] != KeySeq(top)[j] {
      if top[i].key == top[j].key {
        var a :| 0 <= a < |s| && s[a] == top[i];
        var b :| 0 <= b < |s| && s[b] == top[j];
        assert KeySeq(s)[a] == KeySeq(s)[b];
        OnceInSeq(s, top[i]);
        TwiceInSeq(top, i, j);
        assert false;
      }
    }
  }

  /** When there is room for all of them, all are picked. */
  lemma AllPicked(top: seq<Scored>, s: seq<Scored>, k: nat)
    requires IsTopK(top, multiset(s), k) && |s| <= k
    ensures forall v :: v in KeySeq(s) ==> v in KeySeq(top)
  {
    var rest := multiset(s) - multiset(top);
    assert multiset(s) == multiset(top) + rest;
    assert |rest| == 0;
    forall i | 0 <= i < |s| ensures s[i].key in KeySeq(top) {
      assert s[i] in multiset(s);
      var j :| 0 <= j < |top| && top[j] == s[i];
      assert KeySeq(top)[j] == s[i].key;
    }
  }

  /** The list of an old neighbour after the new node was linked back to it: appended, and cut down to
      the closest M_MAX if that is one too many. */
  ghost predicate BackLinked(before: seq<nat>, after: seq<nat>, idx: nat, ds: seq<real>) {
    if |before| < M_MAX then after == before + [idx]
    else ClosestLinks(after, before + [idx], ds, M_MAX)
  }

  lemma ClosestLinksSubset(list: seq<nat>, links: seq<nat>, ds: seq<real>, limit: nat)
    requires ClosestLinks(list, links, ds, limit) && NoRepeats(links)
    ensures |list| == Min(limit, |links|) && NoRepeats(list)
    ensures forall v :: v in list ==> v in links
  {
    var s := ScoredLinks(ds, links);
    var top :| IsTopK(top, multiset(s), limit) && list == KeySeq(top);
    assert KeySeq(s) == links;
    PickedKeys(top, s);
  }

  lemma BackLinkedIsGood(g: Adjacency, n: nat, lc: nat, before: seq<nat>, after: seq<nat>, idx: nat, ds: seq<real>)
    requires GoodList(g, n, lc, before) && BackLinked(before, after, idx, ds)
    requires idx < |g| && idx != n && lc < |g[idx]| && idx !in before
    ensures GoodList(g, n, lc, after)
  {
    if |before| >= M_MAX {
      ClosestLinksSubset(after, before + [idx], ds, M_MAX);
    }
  }

  /** At layer `lc`, the graph `h` differs from `g` exactly by the links between `idx` and the first `i`
      nodes of `sel`. */
  ghost predicate LayerDiff(g: Adjacency, h: Adjacency, idx: nat, lc: nat, sel: seq<nat>, i: nat, dm: seq<seq<real>>)
    requires idx < |g| == |h| == |dm| && i <= |sel| && forall u :: 0 <= u < |g| ==> |h[u]| == |g[u]|
  {
    && lc < |g[idx]| && h[idx][lc] == sel[..i]
    && forall u :: 0 <= u < |g| && u != idx && lc < |g[u]| ==>
         if u in sel[..i] then BackLinked(g[u][lc], h[u][lc], idx, dm[u]) else h[u][lc] == g[u][lc]
  }

  ghost predicate SameShape(g: Adjacency, h: Adjacency) {
    |g| == |h| && forall u :: 0 <= u < |g| ==> |h[u]| == |g[u]|
  }

  ghost predicate SameLayer(g: Adjacency, h: Adjacency, l: nat) {
    |g| == |h| && forall u :: 0 <= u < |g| ==> Links(g, u, l) == Links(h, u, l)
  }

  lemma LayerDiffBegin(g: Adjacency, idx: nat, lc: nat, sel: seq<nat>, dm: seq<seq<real>>)
    requires idx < |g| == |dm| && lc < |g[idx]| && g[idx][lc] == []
    ensures LayerDiff(g, g, idx, lc, sel, 0, dm)
  {
  }

  /** The next node to link is new to both lists involved, and the list of `idx` has room for it. */
  lemma LayerDiffRoom(g: Adjacency, h: Adjacency, idx: nat, lc: nat, sel: seq<nat>, i: nat, dm: seq<seq<real>>)
    requires idx < |g| == |dm| && i < |sel| && SameShape(g, h) && LayerDiff(g, h, idx, lc, sel, i, dm)
    requires Unlinked(g, idx, lc) && |sel| <= M_MAX && NoRepeats(sel)
    requires sel[i] < |g| && sel[i] != idx && lc < |g[sel[i]]|
    ensures |h[idx][lc]| < M_MAX && sel[i] !in h[idx][lc] && idx !in h[sel[i]][lc]
  {
    assert sel[i] !in sel[..i];
    assert idx !in Links(g, sel[i], lc);
  }

  /** Layers other than `lc` are the same in both graphs. */
  ghost predicate OtherLayersSame(g: Adjacency, h: Adjacency, lc: nat) {
    SameShape(g, h) && forall l: nat :: l != lc ==> SameLayer(g, h, l)
  }

  lemma SameEverywhere(g: Adjacency, lc: nat)
    ensures OtherLayersSame(g, g, lc)
  {
  }

  lemma ConnectTouchesOneLayer(g: Adjacency, h: Adjacency, u: nat, v: nat, lc: nat, a: seq<nat>, b: seq<nat>)
    requires OtherLayersSame(g, h, lc) && u < |g| && v < |g| && lc < |g[u]| && lc < |g[v]|
    ensures OtherLayersSame(g, SetList(SetList(h, u, lc, a), v, lc, b), lc)
  {
    var k := SetList(SetList(h, u, lc, a), v, lc, b);
    forall l: nat | l != lc ensures SameLayer(g, k, l) {
      assert SameLayer(g, h, l);
    }
  }

  /** One step of the linking loop. */
  lemma LayerDiffStep(g: Adjacency, h: Adjacency, k: Adjacency, idx: nat, lc: nat, sel: seq<nat>, i: nat,
                      dm: seq<seq<real>>, after: seq<nat>)
    requires idx < |g| == |dm| && i < |sel| && SameShape(g, h) && LayerDiff(g, h, idx, lc, sel, i, dm)
    requires NoRepeats(sel) && sel[i] != idx && sel[i] < |g| && lc < |g[sel[i]]|
    requires BackLinked(h[sel[i]][lc], after, idx, dm[sel[i]])
    requires k == SetList(SetList(h, idx, lc, h[idx][lc] + [sel[i]]), sel[i], lc, after)
    ensures SameShape(g, k) && LayerDiff(g, k, idx, lc, sel, i + 1, dm)
  {
    assert sel[..i + 1] == sel[..i] + [sel[i]];
    assert sel[i] !in sel[..i];
  }

  /** `sel` names the nodes that the layer search from `start` recommends as neighbours. */
  ghost predicate Recommended(g: Adjacency, ds: seq<real>, lc: nat, start: nat, sel: seq<nat>) {
    exists visited: set<nat>, hits: seq<Scored>, top: seq<Scored> ::
      && Found(g, ds, lc, start, EF_CONSTRUCTION, visited, hits)
      && IsTopK(top, multiset(hits), if lc == 0 then M_MAX else M)
      && sel == KeySeq(top)
  }

  /** Where the linking of a layer starts, and the nodes chosen there. */
  datatype Plan = Plan(start: nat, chosen: seq<nat>)

  /** The whole effect of an insertion on one layer. */
  ghost predicate LayerLinked(g: Adjacency, h: Adjacency, idx: nat, lc: nat, p: Plan, dm: seq<seq<real>>)
    requires idx < |g| == |dm| && SameShape(g, h)
  {
    && p.start < |g| && p.start != idx && p.chosen != []
    && Recommended(g, dm[idx], lc, p.start, p.chosen)
    && LayerDiff(g, h, idx, lc, p.chosen, |p.chosen|, dm)
  }

  /** `v` is a nearest one of the list. */
  ghost predicate Nearest(ds: seq<real>, list: seq<nat>, v: nat) {
    v in list && forall u :: u in list ==> u < |ds| && v < |ds| && ds[v] <= ds[u]
  }

  /** The chosen nodes are sorted, nearest first. */
  lemma FirstIsNearest(g: Adjacency, ds: seq<real>, lc: nat, start: nat, sel: seq<nat>)
    requires Recommended(g, ds, lc, start, sel) && sel != []
    ensures Nearest(ds, sel, sel[0])
  {
    hide Explored, Finished, ReachSet, IsTopK, Accounted, Genuine;
    var visited: set<nat>, hits: seq<Scored>, top: seq<Scored> :|
      Found(g, ds, lc, start, EF_CONSTRUCTION, visited, hits) &&
      IsTopK(top, multiset(hits), if lc == 0 then M_MAX else M) && sel == KeySeq(top);
    TopIsNearest(ds, visited, hits, top, if lc == 0 then M_MAX else M);
  }

  lemma TopIsNearest(ds: seq<real>, visited: set<nat>, hits: seq<Scored>, top: seq<Scored>, limit: nat)
    requires Genuine(ds, visited, hits) && IsTopK(top, multiset(hits), limit) && top != []
    ensures Nearest(ds, KeySeq(top), KeySeq(top)[0])
  {
    var keys := KeySeq(top);
    forall i | 0 <= i < |top| ensures keys[i] < |ds| && top[i].dist == ds[keys[i]] {
      assert top[i] in multiset(hits);
    }
  }

  lemma SameLayerReach(g: Adjacency, h: Adjacency, l: nat, u: nat)
    requires SameLayer(g, h, l)
    ensures ReachSet(g, l, u) == ReachSet(h, l, u)
  {
    forall v | 0 <= v < |g| ensures Reaches(g, l, u, v) == Reaches(h, l, u, v) {
      if Reaches(g, l, u, v) {
        var p :| IsPath(g, l, p) && p[0] == u && p[|p| - 1] == v;
        assert IsPath(h, l, p);
      }
      if Reaches(h, l, u, v) {
        var p :| IsPath(h, l, p) && p[0] == u && p[|p| - 1] == v;
        assert IsPath(g, l, p);
      }
    }
  }

  lemma SameLayerRecommended(g: Adjacency, h: Adjacency, ds: seq<real>, l: nat, start: nat, sel: seq<nat>)
    requires SameLayer(g, h, l) && Recommended(g, ds, l, start, sel)
    ensures Recommended(h, ds, l, start, sel)
  {
    SameLayerReach(g, h, l, start);
    var visited: set<nat>, hits: seq<Scored>, top: seq<Scored> :|
      Found(g, ds, l, start, EF_CONSTRUCTION, visited, hits) &&
      IsTopK(top, multiset(hits), if l == 0 then M_MAX else M) && sel == KeySeq(top);
    ExploredReadsLayer(g, h, ds, l, start, EF_CONSTRUCTION, visited, hits);
    FinishedReadsLayer(g, h, ds, l, EF_CONSTRUCTION, visited, hits);
    hide ReachSet, Explored, Finished;
    assert Found(h, ds, l, start, EF_CONSTRUCTION, visited, hits);
  }

  lemma FinishedReadsLayer(g: Adjacency, h: Adjacency, ds: seq<real>, l: nat, ef: nat, visited: set<nat>,
                           hits: seq<Scored>)
    requires SameLayer(g, h, l) && Finished(g, ds, l, ef, visited, hits)
    ensures Finished(h, ds, l, ef, visited, hits)
  {
    hide Dropped;
    var done: set<nat> :|
      && done <= visited && Expanded(g, l, visited, done)
      && ((Keys(hits) <= done && forall v :: v in visited - done ==> v < |ds| && Dropped(ds, hits, ef, v))
          || exists v :: v in visited - done && v < |ds| && forall c :: c in hits ==> c.dist < ds[v]);
    assert Expanded(h, l, visited, done);
  }

  /** No list of the layer names `idx`. */
  ghost predicate Unlinked(g: Adjacency, idx: nat, lc: nat) {
    forall u :: 0 <= u < |g| ==> idx !in Links(g, u, lc)
  }

  /** Search among nodes living at a layer stays among them, and does not meet an unlinked node. */
  lemma ReachStaysAtLayer(g: Adjacency, layer: nat, start: nat, idx: nat)
    requires GoodLists(g) && start < |g| && layer < |g[start]|
    requires start != idx && Unlinked(g, idx, layer)
    ensures forall v :: v in ReachSet(g, layer, start) ==> v < |g| && layer < |g[v]| && v != idx
  {
    var s := set v | v in Below(|g|) && layer < |g[v]| && v != idx;
    forall v, w | v in s && v < |g| && w in Links(g, v, layer) ensures w in s {
      assert GoodList(g, v, layer, g[v][layer]);
    }
    ClosedHoldsReach(g, layer, s, start);
  }

  lemma PickedHits(ds: seq<real>, visited: set<nat>, hits: seq<Scored>, ef: nat, top: seq<Scored>, limit: nat)
    requires KeepsNearest(ds, visited, hits, ef) && IsTopK(top, multiset(hits), limit) && limit > 0
    ensures top != [] && |top| <= limit && NoRepeats(KeySeq(top))
    ensures forall v :: v in KeySeq(top) ==> v in visited
  {
    HitsDistinct(ds, visited, hits);
    PickedKeys(top, hits);
    forall v | v in KeySeq(hits) ensures v in visited {
      var j :| 0 <= j < |hits| && hits[j].key == v;
      assert hits[j] in hits;
    }
  }

  lemma RecommendedIsGood(g: Adjacency, ds: seq<real>, lc: nat, start: nat, idx: nat, sel: seq<nat>)
    requires GoodLists(g) && start < |g| && lc < |g[start]| && start != idx && Unlinked(g, idx, lc)
    requires Recommended(g, ds, lc, start, sel)
    ensures sel != [] && |sel| <= M_MAX && NoRepeats(sel)
    ensures forall v :: v in sel ==> v < |g| && lc < |g[v]| && v != idx
  {
    var visited: set<nat>, hits: seq<Scored>, top: seq<Scored> :|
      Found(g, ds, lc, start, EF_CONSTRUCTION, visited, hits) &&
      IsTopK(top, multiset(hits), if lc == 0 then M_MAX else M) && sel == KeySeq(top);
    PickedHits(ds, visited, hits, EF_CONSTRUCTION, top, if lc == 0 then M_MAX else M);
    ReachStaysAtLayer(g, lc, start, idx);
  }

  lemma HitsDistinct(ds: seq<real>, visited: set<nat>, hits: seq<Scored>)
    requires Ordered(hits) && Genuine(ds, visited, hits)
    ensures NoRepeats(KeySeq(hits))
  {
    forall i, j | 0 <= i < j < |hits| ensures hits[i].key != hits[j].key {
      assert Before(hits[i], hits[j]);
      assert hits[i] in hits && hits[j] in hits;
    }
  }

  lemma {:induction false} RepeatFreeCount(s: seq<nat>, all: set<nat>)
    requires NoRepeats(s) && forall v :: v in s ==> v in all
    ensures |s| <= |all|
  {
    if s == [] {
    } else {
      var n := |s| - 1;
      assert forall v :: v in s[..n] ==> v in all - {s[n]};
      RepeatFreeCount(s[..n], all - {s[n]});
    }
  }

  /** A complete base layer with one node still to be linked. */
  ghost predicate CompleteBut(g: Adjacency, idx: nat) {
    && |g| == idx + 1
    && (forall u :: 0 <= u < |g| ==> g[u] != [])
    && Unlinked(g, idx, 0) && g[idx][0] == []
    && forall u, v :: 0 <= u < idx && 0 <= v < idx && u != v ==> v in Links(g, u, 0)
  }

  lemma AllOthersReached(g: Adjacency, idx: nat, start: nat)
    requires GoodLists(g) && CompleteBut(g, idx) && start < idx
    ensures ReachSet(g, 0, start) == Below(idx)
  {
    ReachStaysAtLayer(g, 0, start, idx);
    ReachesItself(g, 0, start);
    forall v | v in Below(idx) ensures v in ReachSet(g, 0, start) {
      if v != start { ReachesStep(g, 0, start, start, v); }
    }
  }

  lemma AllFound(g: Adjacency, ds: seq<real>, idx: nat, start: nat, visited: set<nat>, hits: seq<Scored>)
    requires GoodLists(g) && CompleteBut(g, idx) && start < idx <= EF_CONSTRUCTION
    requires Found(g, ds, 0, start, EF_CONSTRUCTION, visited, hits)
    ensures |hits| == idx && NoRepeats(KeySeq(hits))
    ensures forall u :: 0 <= u < idx ==> u in KeySeq(hits)
  {
    hide Explored, Finished;
    AllOthersReached(g, idx, start);
    HitsDistinct(ds, visited, hits);
    KeysCount(hits);
    forall u | 0 <= u < idx ensures u in KeySeq(hits) {
      assert u in Keys(hits);
      var j :| 0 <= j < |hits| && hits[j].key == u;
      assert KeySeq(hits)[j] == u;
    }
  }

  /** While the base layer is complete and small, a newcomer is recommended all of it. */
  lemma AllRecommended(g: Adjacency, ds: seq<real>, idx: nat, start: nat, sel: seq<nat>)
    requires GoodLists(g) && CompleteBut(g, idx) && start < idx <= M_MAX
    requires Recommended(g, ds, 0, start, sel)
    ensures forall u :: 0 <= u < idx ==> u in sel
  {
    hide Found, GoodLists, CompleteBut;
    var visited: set<nat>, hits: seq<Scored>, top: seq<Scored> :|
      Found(g, ds, 0, start, EF_CONSTRUCTION, visited, hits) &&
      IsTopK(top, multiset(hits), M_MAX) && sel == KeySeq(top);
    AllFound(g, ds, idx, start, visited, hits);
    AllPicked(top, hits, M_MAX);
  }

  /** An old node has at most idx - 1 links, so nothing is trimmed. */
  lemma RoomLeft(g: Adjacency, idx: nat, u: nat)
    requires GoodLists(g) && CompleteBut(g, idx) && u < idx
    ensures |g[u][0]| < idx
  {
    assert GoodList(g, u, 0, g[u][0]);
    assert idx !in Links(g, u, 0);
    RepeatFreeCount(g[u][0], Below(idx) - {u});
  }

  /** The small-graph invariant survives an insertion. */
  lemma SmallBaseStaysComplete(g: Adjacency, h: Adjacency, idx: nat, p: Plan, dm: seq<seq<real>>)
    requires GoodLists(g) && CompleteBut(g, idx) && idx <= M_MAX && |dm| == |g| && SameShape(g, h)
    requires LayerLinked(g, h, idx, 0, p, dm)
    ensures CompleteBase(h)
  {
    hide GoodLists, Recommended;
    var sel := p.chosen;
    AllRecommended(g, dm[idx], idx, p.start, sel);
    assert sel[..|sel|] == sel;
    forall u | 0 <= u < idx ensures h[u][0] == g[u][0] + [idx] {
      RoomLeft(g, idx, u);
    }
    assert h[idx][0] == sel;
    forall u, v | 0 <= u < |h| && 0 <= v < |h| && u != v ensures v in Links(h, u, 0) {
      if u < idx && v < idx {
        assert v in Links(g, u, 0);
      }
    }
  }

  // ---- a whole insertion ----

  /** The graph with one more node, living at layers 0 to `level` and not linked yet. */
  function Grown(g: Adjacency, level: nat): (h: Adjacency)
    ensures |h| == |g| + 1 && |h[|g|]| == level + 1
    ensures forall u :: 0 <= u < |g| ==> h[u] == g[u]
    ensures forall l :: 0 <= l <= level ==> h[|g|][l] == []
  {
    g + [seq(level + 1, l => [])]
  }

  lemma GrownIsGood(g: Adjacency, level: nat)
    requires GoodLists(g)
    ensures GoodLists(Grown(g, level))
    ensures forall lc: nat :: Unlinked(Grown(g, level), |g|, lc)
  {
    var h := Grown(g, level);
    forall u, l | 0 <= u < |h| && 0 <= l < |h[u]| ensures GoodList(h, u, l, h[u][l]) {
      if u < |g| { GoodListAt(g, u, l); }
    }
    forall lc: nat, u | 0 <= u < |h| ensures |g| !in Links(h, u, lc) {
      if u < |g| && lc < |g[u]| { GoodListAt(g, u, lc); }
    }
  }

  /** Layers lc..top of `h` are linked as an insertion into `g` links them, the others are untouched.  Layer lc + i
      starts at a nearest one of the nodes chosen in the layer above it. */
  ghost predicate Progress(g: Adjacency, h: Adjacency, idx: nat, top: nat, lc: nat, plans: seq<Plan>,
                           dm: seq<seq<real>>)
    requires idx < |g| == |dm|
  {
    && lc <= top + 1 && |plans| == top + 1 - lc && SameShape(g, h)
    && (forall l: nat :: l < lc || top < l ==> SameLayer(g, h, l))
    && (forall i :: 0 <= i < |plans| ==> LayerLinked(g, h, idx, lc + i, plans[i], dm))
    && forall i :: 0 <= i < |plans| - 1 ==> Nearest(dm[idx], plans[i + 1].chosen, plans[i].start)
  }

  /** The whole effect of an insertion into a graph that has an entry: the greedy descent from the entry, over the
      layers that the new node does not share, ends where the linking of the top shared layer starts. */
  ghost predicate Inserted(g: Adjacency, h: Adjacency, idx: nat, entry: nat, maxLevel: nat, level: nat,
                           dm: seq<seq<real>>)
    requires idx < |g| == |dm|
  {
    var top := Min(level, maxLevel);
    exists plans: seq<Plan> ::
      && Progress(g, h, idx, top, 0, plans, dm)
      && DescendsTo(g, dm[idx], entry, maxLevel, level + 1, plans[top].start)
  }

  lemma InsertionDone(g: Adjacency, h: Adjacency, idx: nat, entry: nat, maxLevel: nat, level: nat, plans: seq<Plan>,
                      dm: seq<seq<real>>)
    requires idx < |g| == |dm| && |plans| == Min(level, maxLevel) + 1
    requires Progress(g, h, idx, Min(level, maxLevel), 0, plans, dm)
    requires DescendsTo(g, dm[idx], entry, maxLevel, level + 1, plans[Min(level, maxLevel)].start)
    ensures Inserted(g, h, idx, entry, maxLevel, level, dm)
  {
    hide Progress, DescendsTo;
  }

  lemma LayerDiffOnlyReadsLayer(g: Adjacency, g': Adjacency, h: Adjacency, h': Adjacency,
                                idx: nat, l: nat, sel: seq<nat>, dm: seq<seq<real>>)
    requires idx < |g| == |dm| && SameShape(g, h) && SameShape(g', h') && SameShape(g, g')
    requires SameLayer(g, g', l) && SameLayer(h, h', l)
    requires LayerDiff(g, h, idx, l, sel, |sel|, dm)
    ensures LayerDiff(g', h', idx, l, sel, |sel|, dm)
  {
    forall u | 0 <= u < |g| && l < |g[u]| ensures g'[u][l] == g[u][l] && h'[u][l] == h[u][l] {
      assert Links(g, u, l) == Links(g', u, l) && Links(h, u, l) == Links(h', u, l);
    }
  }

  lemma LayerLinkedOnlyReadsLayer(g: Adjacency, g': Adjacency, h: Adjacency, h': Adjacency,
                                  idx: nat, l: nat, p: Plan, dm: seq<seq<real>>)
    requires idx < |g| == |dm| && SameShape(g, h) && SameShape(g', h') && SameShape(g, g')
    requires SameLayer(g, g', l) && SameLayer(h, h', l)
    requires LayerLinked(g, h, idx, l, p, dm)
    ensures LayerLinked(g', h', idx, l, p, dm)
  {
    hide Recommended, LayerDiff;
    SameLayerRecommended(g, g', dm[idx], l, p.start, p.chosen);
    LayerDiffOnlyReadsLayer(g, g', h, h', idx, l, p.chosen, dm);
  }

  lemma ProgressStep(g: Adjacency, h: Adjacency, k: Adjacency, idx: nat, top: nat, lc: nat, plans: seq<Plan>, p: Plan,
                     dm: seq<seq<real>>)
    requires idx < |g| == |dm| && lc <= top && Progress(g, h, idx, top, lc + 1, plans, dm)
    requires OtherLayersSame(h, k, lc) && LayerLinked(h, k, idx, lc, p, dm)
    requires plans != [] ==> Nearest(dm[idx], plans[0].chosen, p.start)
    ensures Progress(g, k, idx, top, lc, [p] + plans, dm)
  {
    hide LayerLinked, SameLayer, Nearest;
    forall l: nat | l < lc || top < l ensures SameLayer(g, k, l) {
      SameLayerTransitive(g, h, k, l);
    }
    var all := [p] + plans;
    forall i | 0 <= i < |all| ensures LayerLinked(g, k, idx, lc + i, all[i], dm) {
      var l := lc + i;
      SameLayerReflexive(g, l);
      SameLayerReflexive(k, l);
      if i == 0 {
        SameLayerSymmetric(g, h, l);
        LayerLinkedOnlyReadsLayer(h, g, k, k, idx, l, p, dm);
      } else {
        assert LayerLinked(g, h, idx, lc + 1 + (i - 1), plans[i - 1], dm);
        LayerLinkedOnlyReadsLayer(g, g, h, k, idx, l, plans[i - 1], dm);
      }
    }
    forall i | 0 <= i < |all| - 1 ensures Nearest(dm[idx], all[i + 1].chosen, all[i].start) {
      if i > 0 { assert Nearest(dm[idx], plans[i].chosen, plans[i - 1].start); }
    }
  }

  lemma SameLayerReflexive(g: Adjacency, l: nat)
    ensures SameLayer(g, g, l)
  {
  }

  lemma SameLayerSymmetric(g: Adjacency, h: Adjacency, l: nat)
    requires SameLayer(g, h, l)
    ensures SameLayer(h, g, l)
  {
  }

  lemma SameLayerTransitive(g: Adjacency, h: Adjacency, k: Adjacency, l: nat)
    requires SameLayer(g, h, l) && SameLayer(h, k, l)
    ensures SameLayer(g, k, l)
  {
  }

  lemma ProgressBegin(g: Adjacency, idx: nat, top: nat, dm: seq<seq<real>>)
    requires idx < |g| == |dm|
    ensures Progress(g, g, idx, top, top + 1, [], dm)
  {
  }

  /** A layer that was not reached yet is still as it was. */
  lemma ProgressUnlinked(g: Adjacency, h: Adjacency, idx: nat, top: nat, lc: nat, plans: seq<Plan>,
                         dm: seq<seq<real>>)
    requires idx < |g| == |dm| && Progress(g, h, idx, top, lc + 1, plans, dm)
    requires Unlinked(g, idx, lc) && lc < |g[idx]| && g[idx][lc] == []
    ensures |h| == |g| && SameShape(g, h)
    ensures Unlinked(h, idx, lc) && lc < |h[idx]| && h[idx][lc] == []
  {
    assert SameLayer(g, h, lc);
    assert Links(g, idx, lc) == Links(h, idx, lc);
  }

  lemma InsertKeepsSmallBase(g: Adjacency, h: Adjacency, level: nat, top: nat, plans: seq<Plan>, dm: seq<seq<real>>)
    requires GoodLists(g) && (forall u :: 0 <= u < |g| ==> g[u] != [])
    requires |dm| == |g| + 1 && Progress(Grown(g, level), h, |g|, top, 0, plans, dm)
    requires |g| <= M_MAX && CompleteBase(g)
    ensures CompleteBase(h)
  {
    hide Progress, GoodLists, LayerLinked;
    var k := Grown(g, level);
    GrownIsGood(g, level);
    forall u, v | 0 <= u < |g| && 0 <= v < |g| && u != v ensures v in Links(k, u, 0) {
      assert v in Links(g, u, 0);
    }
    BaseLinked(k, h, |g|, top, plans, dm);
    SmallBaseStaysComplete(k, h, |g|, plans[0], dm);
  }

  lemma BaseLinked(g: Adjacency, h: Adjacency, idx: nat, top: nat, plans: seq<Plan>, dm: seq<seq<real>>)
    requires idx < |g| == |dm| && Progress(g, h, idx, top, 0, plans, dm)
    ensures SameShape(g, h) && plans != [] && LayerLinked(g, h, idx, 0, plans[0], dm)
  {
    assert LayerLinked(g, h, idx, 0 + 0, plans[0], dm);
  }
}
