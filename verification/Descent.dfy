/** Greedy descent: the walk to ever closer neighbours inside one layer, and from layer to layer. */
module Descent {
  import opened HnswGraph

  /** `v` is the first of the list's nearest nodes. */
  ghost predicate FirstNearest(ds: seq<real>, list: seq<nat>, v: nat) {
    exists j :: 0 <= j < |list| && list[j] == v && IsFirst(ds, list, j)
  }

  ghost predicate IsFirst(ds: seq<real>, list: seq<nat>, j: nat)
    requires j < |list|
  {
    && (forall i :: 0 <= i < |list| ==> list[i] < |ds|)
    && (forall i :: 0 <= i < |list| ==> ds[list[j]] <= ds[list[i]])
    && forall i :: 0 <= i < j ==> ds[list[j]] < ds[list[i]]
  }

  /** Every step goes to the first nearest of the links, and strictly closer. */
  ghost predicate Downhill(g: Adjacency, ds: seq<real>, layer: nat, p: seq<nat>) {
    && p != [] && |ds| == |g|
    && (forall i :: 0 <= i < |p| ==> p[i] < |g|)
    && forall i :: 0 < i < |p| ==> ds[p[i]] < ds[p[i - 1]] && FirstNearest(ds, Links(g, p[i - 1], layer), p[i])
  }

  /** No link of `v` is closer. */
  ghost predicate Bottom(g: Adjacency, ds: seq<real>, layer: nat, v: nat) {
    v < |g| == |ds| && forall n :: n in Links(g, v, layer) ==> n < |ds| && ds[v] <= ds[n]
  }

  /** The walk that starts at `u` ends at `v`. */
  ghost predicate Descends(g: Adjacency, ds: seq<real>, layer: nat, u: nat, v: nat) {
    Bottom(g, ds, layer, v) && exists p :: Downhill(g, ds, layer, p) && p[0] == u && p[|p| - 1] == v
  }

  lemma DownhillBegins(g: Adjacency, ds: seq<real>, layer: nat, u: nat)
    requires u < |g| == |ds|
    ensures Downhill(g, ds, layer, [u])
  {
  }

  lemma DownhillGoesOn(g: Adjacency, ds: seq<real>, layer: nat, p: seq<nat>, j: nat)
    requires Downhill(g, ds, layer, p)
    requires var list := Links(g, p[|p| - 1], layer); j < |list| && IsFirst(ds, list, j) && ds[list[j]] < ds[p[|p| - 1]]
    ensures Downhill(g, ds, layer, p + [Links(g, p[|p| - 1], layer)[j]])
  {
  }

  lemma WalkEnds(g: Adjacency, ds: seq<real>, layer: nat, p: seq<nat>, u: nat, v: nat)
    requires Downhill(g, ds, layer, p) && p[0] == u && p[|p| - 1] == v && Bottom(g, ds, layer, v)
    ensures Descends(g, ds, layer, u, v)
  {
    hide Downhill, Bottom;
  }

  lemma {:induction false} DownhillReaches(g: Adjacency, ds: seq<real>, layer: nat, p: seq<nat>)
    requires Downhill(g, ds, layer, p)
    ensures Reaches(g, layer, p[0], p[|p| - 1]) && ds[p[|p| - 1]] <= ds[p[0]]
    decreases |p|
  {
    hide Reaches;
    var n := |p| - 1;
    if n == 0 {
      ReachesItself(g, layer, p[0]);
    } else {
      DownhillReaches(g, ds, layer, p[..n]);
      ReachesStep(g, layer, p[0], p[n - 1], p[n]);
    }
  }

  lemma DescentReaches(g: Adjacency, ds: seq<real>, layer: nat, u: nat, v: nat)
    requires Descends(g, ds, layer, u, v)
    ensures u < |g| && v < |g| && Reaches(g, layer, u, v) && ds[v] <= ds[u]
  {
    var p :| Downhill(g, ds, layer, p) && p[0] == u && p[|p| - 1] == v;
    DownhillReaches(g, ds, layer, p);
  }

  lemma FirstIsUnique(ds: seq<real>, list: seq<nat>, v: nat, w: nat)
    requires FirstNearest(ds, list, v) && FirstNearest(ds, list, w)
    ensures v == w
  {
    var i :| 0 <= i < |list| && list[i] == v && IsFirst(ds, list, i);
    var j :| 0 <= j < |list| && list[j] == w && IsFirst(ds, list, j);
  }

  lemma {:induction false} PathsAgree(g: Adjacency, ds: seq<real>, layer: nat, p: seq<nat>, q: seq<nat>, i: nat)
    requires Downhill(g, ds, layer, p) && Downhill(g, ds, layer, q) && p[0] == q[0] && i < |p| && i < |q|
    ensures p[i] == q[i]
  {
    if i == 0 {
    } else {
      hide FirstNearest;
      PathsAgree(g, ds, layer, p, q, i - 1);
      FirstIsUnique(ds, Links(g, p[i - 1], layer), p[i], q[i]);
    }
  }

  lemma BottomIsLast(g: Adjacency, ds: seq<real>, layer: nat, p: seq<nat>, i: nat)
    requires Downhill(g, ds, layer, p) && i < |p| - 1
    ensures !Bottom(g, ds, layer, p[i])
  {
    assert ds[p[i + 1]] < ds[p[i]] && FirstNearest(ds, Links(g, p[i], layer), p[i + 1]);
    assert p[i + 1] in Links(g, p[i], layer);
  }

  /** The walk is determined by where it starts. */
  lemma DescentIsDetermined(g: Adjacency, ds: seq<real>, layer: nat, u: nat, v: nat, w: nat)
    requires Descends(g, ds, layer, u, v) && Descends(g, ds, layer, u, w)
    ensures v == w
  {
    hide FirstNearest, Bottom;
    var p :| Downhill(g, ds, layer, p) && p[0] == u && p[|p| - 1] == v;
    var q :| Downhill(g, ds, layer, q) && q[0] == u && q[|q| - 1] == w;
    if |p| <= |q| {
      PathsAgree(g, ds, layer, p, q, |p| - 1);
      if |p| < |q| { BottomIsLast(g, ds, layer, q, |p| - 1); }
    } else {
      PathsAgree(g, ds, layer, q, p, |q| - 1);
      BottomIsLast(g, ds, layer, p, |q| - 1);
    }
  }

  // ---- from layer to layer ----

  /** One walk in each layer from `top` down to `bottom`, each starting where the one before ended. */
  ghost predicate Chain(g: Adjacency, ds: seq<real>, top: nat, bottom: nat, chain: seq<nat>) {
    && |chain| == 1 + (if bottom <= top then top + 1 - bottom else 0)
    && forall i :: 0 < i < |chain| ==> Descends(g, ds, top + 1 - i, chain[i - 1], chain[i])
  }

  /** The walks that start at `entry` end at `v`. */
  ghost predicate DescendsTo(g: Adjacency, ds: seq<real>, entry: nat, top: nat, bottom: nat, v: nat) {
    exists chain :: Chain(g, ds, top, bottom, chain) && chain[0] == entry && chain[|chain| - 1] == v
  }

  /** Part of the way: the walks in the layers above `lc` are done. */
  ghost predicate Underway(g: Adjacency, ds: seq<real>, entry: nat, top: nat, lc: nat, chain: seq<nat>, v: nat) {
    && lc <= top && |chain| == top + 1 - lc && chain[0] == entry && chain[|chain| - 1] == v
    && forall i :: 0 < i < |chain| ==> Descends(g, ds, top + 1 - i, chain[i - 1], chain[i])
  }

  lemma ChainBegins(g: Adjacency, ds: seq<real>, entry: nat, top: nat)
    ensures Underway(g, ds, entry, top, top, [entry], entry)
  {
  }

  lemma ChainGoesOn(g: Adjacency, ds: seq<real>, entry: nat, top: nat, lc: nat, chain: seq<nat>, v: nat, w: nat)
    requires Underway(g, ds, entry, top, lc, chain, v) && 0 < lc && Descends(g, ds, lc, v, w)
    ensures Underway(g, ds, entry, top, lc - 1, chain + [w], w)
  {
    hide Descends;
  }

  lemma ChainEnds(g: Adjacency, ds: seq<real>, entry: nat, top: nat, bottom: nat, chain: seq<nat>, v: nat)
    requires 0 < bottom && Underway(g, ds, entry, top, if bottom <= top then bottom - 1 else top, chain, v)
    ensures DescendsTo(g, ds, entry, top, bottom, v)
  {
    hide Descends;
    assert Chain(g, ds, top, bottom, chain);
  }

  lemma {:induction false} ChainsAgree(g: Adjacency, ds: seq<real>, top: nat, bottom: nat, a: seq<nat>, b: seq<nat>,
                                       i: nat)
    requires Chain(g, ds, top, bottom, a) && Chain(g, ds, top, bottom, b) && a[0] == b[0] && i < |a|
    ensures a[i] == b[i]
  {
    hide Descends;
    if i == 0 {
    } else {
      ChainsAgree(g, ds, top, bottom, a, b, i - 1);
      DescentIsDetermined(g, ds, top + 1 - i, a[i - 1], a[i], b[i]);
    }
  }

  /** So is the whole descent. */
  lemma DescentEndIsDetermined(g: Adjacency, ds: seq<real>, entry: nat, top: nat, bottom: nat, v: nat, w: nat)
    requires DescendsTo(g, ds, entry, top, bottom, v) && DescendsTo(g, ds, entry, top, bottom, w)
    ensures v == w
  {
    hide Descends;
    var a :| Chain(g, ds, top, bottom, a) && a[0] == entry && a[|a| - 1] == v;
    var b :| Chain(g, ds, top, bottom, b) && b[0] == entry && b[|b| - 1] == w;
    ChainsAgree(g, ds, top, bottom, a, b, |a| - 1);
  }

  lemma {:induction false} ChainIsCloser(g: Adjacency, ds: seq<real>, top: nat, bottom: nat, chain: seq<nat>, i: nat)
    requires Chain(g, ds, top, bottom, chain) && i < |chain| && chain[0] < |g| == |ds|
    ensures chain[i] < |g| && ds[chain[i]] <= ds[chain[0]]
  {
    hide Descends;
    if i == 0 {
    } else {
      ChainIsCloser(g, ds, top, bottom, chain, i - 1);
      DescentReaches(g, ds, top + 1 - i, chain[i - 1], chain[i]);
    }
  }

  /** The descent ends no farther from the query than it starts. */
  lemma DescentEndIsCloser(g: Adjacency, ds: seq<real>, entry: nat, top: nat, bottom: nat, v: nat)
    requires DescendsTo(g, ds, entry, top, bottom, v) && entry < |g| == |ds|
    ensures v < |g| && ds[v] <= ds[entry]
  {
    hide Descends;
    var chain :| Chain(g, ds, top, bottom, chain) && chain[0] == entry && chain[|chain| - 1] == v;
    ChainIsCloser(g, ds, top, bottom, chain, |chain| - 1);
  }
}
