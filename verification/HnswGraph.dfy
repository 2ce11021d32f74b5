/** The layered adjacency structure of the HNSW graph: reachability inside a layer, and the invariants
    that insertion keeps. */
module HnswGraph {
  /** Connections per layer above the base, and the cap on any adjacency list. */
  const M: nat := 16
  const M_MAX: nat := 32

  /** neighbors[node][layer] lists the node's neighbours at that layer. */
  type Adjacency = seq<seq<seq<nat>>>

  /** The list the search loops read: empty above the node's own level. */
  function Links(g: Adjacency, u: nat, layer: nat): seq<nat>
    requires u < |g|
  {
    if layer < |g[u]| then g[u][layer] else []
  }

  ghost predicate InRange(g: Adjacency) {
    forall u: nat, layer: nat, v :: u < |g| && v in Links(g, u, layer) ==> v < |g|
  }

  // ---- reachability within one layer ----

  ghost predicate IsPath(g: Adjacency, layer: nat, p: seq<nat>) {
    && p != []
    && (forall i :: 0 <= i < |p| ==> p[i] < |g|)
    && forall i :: 0 < i < |p| ==> p[i] in Links(g, p[i - 1], layer)
  }

  ghost predicate Reaches(g: Adjacency, layer: nat, u: nat, v: nat) {
    exists p :: IsPath(g, layer, p) && p[0] == u && p[|p| - 1] == v
  }

  ghost function ReachSet(g: Adjacency, layer: nat, u: nat): set<nat> {
    set v | 0 <= v < |g| && Reaches(g, layer, u, v)
  }

  lemma ReachesItself(g: Adjacency, layer: nat, u: nat)
    requires u < |g|
    ensures Reaches(g, layer, u, u)
  {
    assert IsPath(g, layer, [u]);
  }

  lemma ReachesStep(g: Adjacency, layer: nat, u: nat, v: nat, w: nat)
    requires v < |g| && w < |g| && Reaches(g, layer, u, v) && w in Links(g, v, layer)
    ensures Reaches(g, layer, u, w)
  {
    var p :| IsPath(g, layer, p) && p[0] == u && p[|p| - 1] == v;
    assert IsPath(g, layer, p + [w]);
  }

  ghost predicate ClosedUnderLinks(g: Adjacency, layer: nat, s: set<nat>) {
    forall v, w :: v in s && v < |g| && w in Links(g, v, layer) ==> w in s
  }

  lemma {:induction false} PathStaysInside(g: Adjacency, layer: nat, s: set<nat>, p: seq<nat>)
    requires ClosedUnderLinks(g, layer, s) && IsPath(g, layer, p) && p[0] in s
    ensures p[|p| - 1] in s
  {
    if |p| > 1 {
      var q := p[..|p| - 1];
      assert IsPath(g, layer, q);
      PathStaysInside(g, layer, s, q);
      assert p[|p| - 1] in Links(g, q[|q| - 1], layer);
    }
  }

  /** A closed set holds everything its members reach. */
  lemma ClosedHoldsReach(g: Adjacency, layer: nat, s: set<nat>, u: nat)
    requires ClosedUnderLinks(g, layer, s) && u in s
    ensures ReachSet(g, layer, u) <= s
  {
    forall v | v in ReachSet(g, layer, u) ensures v in s {
      var p :| IsPath(g, layer, p) && p[0] == u && p[|p| - 1] == v;
      PathStaysInside(g, layer, s, p);
    }
  }

  ghost function Below(n: nat): (s: set<nat>)
    ensures |s| == n
    ensures forall i: nat :: i in s <==> i < n
  {
    if n == 0 then {} else Below(n - 1) + {n - 1}
  }

  lemma SubsetCount(a: set<nat>, b: set<nat>)
    requires a <= b
    ensures |a| <= |b|
    ensures |a| == |b| ==> a == b
  {
    assert b == a + (b - a);
  }

  /** Every node of the layer reaches every other. */
  ghost predicate Connected(g: Adjacency, layer: nat) {
    forall u, v :: 0 <= u < |g| && 0 <= v < |g| ==> Reaches(g, layer, u, v)
  }

  // ---- structural invariant ----

  ghost predicate NoRepeats(s: seq<nat>) {
    forall i, j :: 0 <= i < j < |s| ==> s[i] != s[j]
  }

  /** One adjacency list: capped, duplicate-free, no self-loop, joining nodes that live at the layer. */
  ghost predicate GoodList(g: Adjacency, u: nat, layer: nat, list: seq<nat>) {
    && |list| <= M_MAX
    && NoRepeats(list)
    && forall v :: v in list ==> v < |g| && v != u && layer < |g[v]|
  }

  ghost predicate GoodLists(g: Adjacency) {
    forall u, layer :: 0 <= u < |g| && 0 <= layer < |g[u]| ==> GoodList(g, u, layer, g[u][layer])
  }

  /** At the base layer every node is linked to every other. */
  ghost predicate CompleteBase(g: Adjacency) {
    forall u, v :: 0 <= u < |g| && 0 <= v < |g| && u != v ==> v in Links(g, u, 0)
  }

  lemma LoneNode(g: Adjacency)
    requires |g| == 1
    ensures CompleteBase(g)
  {
  }

  lemma CompleteIsConnected(g: Adjacency)
    requires CompleteBase(g)
    ensures Connected(g, 0)
  {
    forall u, v | 0 <= u < |g| && 0 <= v < |g| ensures Reaches(g, 0, u, v) {
      ReachesItself(g, 0, u);
      if u != v { ReachesStep(g, 0, u, u, v); }
    }
  }

  // ---- updating one list ----

  function SetList(g: Adjacency, u: nat, layer: nat, list: seq<nat>): (h: Adjacency)
    requires u < |g| && layer < |g[u]|
    ensures |h| == |g|
    ensures forall w :: 0 <= w < |g| ==> |h[w]| == |g[w]|
    ensures forall w, l :: 0 <= w < |g| && 0 <= l < |g[w]| ==>
                           h[w][l] == if w == u && l == layer then list else g[w][l]
  {
    g[u := g[u][layer := list]]
  }

  lemma SetListKeepsGood(g: Adjacency, u: nat, layer: nat, list: seq<nat>)
    requires GoodLists(g) && u < |g| && layer < |g[u]| && GoodList(g, u, layer, list)
    ensures GoodLists(SetList(g, u, layer, list))
  {
    var h := SetList(g, u, layer, list);
    forall w, l | 0 <= w < |h| && 0 <= l < |h[w]| ensures GoodList(h, w, l, h[w][l]) {
      assert GoodList(g, w, l, h[w][l]);
    }
  }

  lemma SetListTwice(g: Adjacency, u: nat, layer: nat, a: seq<nat>, b: seq<nat>)
    requires u < |g| && layer < |g[u]|
    ensures SetList(SetList(g, u, layer, a), u, layer, b) == SetList(g, u, layer, b)
  {
    assert g[u][layer := a][layer := b] == g[u][layer := b];
    assert g[u := g[u][layer := a]][u := g[u][layer := b]] == g[u := g[u][layer := b]];
  }

  lemma GoodListAt(g: Adjacency, u: nat, layer: nat)
    requires GoodLists(g) && u < |g| && layer < |g[u]|
    ensures GoodList(g, u, layer, g[u][layer])
  {
  }

  lemma GoodListsInRange(g: Adjacency)
    requires GoodLists(g)
    ensures InRange(g)
  {
    forall u: nat, layer: nat, v | u < |g| && v in Links(g, u, layer) ensures v < |g| {
      assert GoodList(g, u, layer, g[u][layer]);
    }
  }

  lemma PushKeepsRange(g: Adjacency, u: nat, layer: nat, v: nat)
    requires GoodLists(g) && u < |g| && v < |g| && layer < |g[u]|
    ensures InRange(SetList(g, u, layer, g[u][layer] + [v]))
  {
    GoodListsInRange(g);
    var h := SetList(g, u, layer, g[u][layer] + [v]);
    forall w: nat, l: nat, x | w < |h| && x in Links(h, w, l) ensures x < |h| {
      if x != v {
        assert x in Links(g, w, l);
      }
    }
  }
}
