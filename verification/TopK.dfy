/** The k nearest of a pool of scored items, as a relation.

    Every search path of the engine ends in "sort by distance, truncate to k", with an unstable sort,
    so the order of equally distant items is left open.  The relation below fixes everything else, and
    the lemmas show that it fixes the sequence of distances completely and that it can be merged. */
module TopK {

  /** A pair (identifier, distance), as handed around by every search in the engine. */
  datatype Scored = Scored(key: nat, dist: real)

  function Min(a: nat, b: nat): nat {
    if a < b then a else b
  }

  ghost predicate SortedByDist(s: seq<Scored>) {
    forall i, j :: 0 <= i < j < |s| ==> s[i].dist <= s[j].dist
  }

  /** `r` lists min(k, |pool|) items of `pool`, nearest first, and nothing left behind is nearer. */
  ghost predicate IsTopK(r: seq<Scored>, pool: multiset<Scored>, k: nat) {
    && SortedByDist(r)
    && multiset(r) <= pool
    && |r| == Min(k, |pool|)
    && forall x, y :: x in r && y in pool - multiset(r) ==> x.dist <= y.dist
  }

  /** The number of items of a sorted list that are not farther than `d`. */
  function Slot(s: seq<Scored>, d: real): (i: nat)
    requires SortedByDist(s)
    ensures i <= |s|
    ensures forall j :: 0 <= j < i ==> s[j].dist <= d
    ensures forall j :: i <= j < |s| ==> d < s[j].dist
  {
    if s == [] then 0
    else if s[|s| - 1].dist <= d then |s|
    else Slot(s[..|s| - 1], d)
  }

  lemma OneMoreCounts(s: seq<Scored>, i: nat, x: Scored)
    requires i <= |s|
    ensures multiset(s[..i] + [x] + s[i..]) == multiset(s) + multiset{x}
  {
    assert s == s[..i] + s[i..];
  }

  lemma OneMoreSorted(s: seq<Scored>, i: nat, x: Scored)
    requires SortedByDist(s) && i <= |s|
    requires (forall j :: 0 <= j < i ==> s[j].dist <= x.dist) && forall j :: i <= j < |s| ==> x.dist < s[j].dist
    ensures SortedByDist(s[..i] + [x] + s[i..])
  {
  }

  /** Insert one item after every item that is not farther away. */
  function Place(s: seq<Scored>, x: Scored): (r: seq<Scored>)
    requires SortedByDist(s)
    ensures SortedByDist(r)
    ensures multiset(r) == multiset(s) + multiset{x}
  {
    hide Slot;
    var i := Slot(s, x.dist);
    OneMoreCounts(s, i, x);
    OneMoreSorted(s, i, x);
    s[..i] + [x] + s[i..]
  }

  /** Sort by distance alone; callers may rely on nothing about the order of ties. */
  method SortByDistance(s: seq<Scored>) returns (r: seq<Scored>)
    ensures SortedByDist(r)
    ensures multiset(r) == multiset(s)
  {
    hide Place;
    r := [];
    for n := 0 to |s|
      invariant SortedByDist(r)
      invariant multiset(r) == multiset(s[..n])
    {
      assert s[..n + 1] == s[..n] + [s[n]];
      r := Place(r, s[n]);
    }
    assert s[..|s|] == s;
  }

  lemma SplitCounts<T>(s: seq<T>, n: nat)
    requires n <= |s|
    ensures multiset(s) == multiset(s[..n]) + multiset(s[n..])
  {
    assert s == s[..n] + s[n..];
  }

  lemma HeadNotFarther(sorted: seq<Scored>, n: nat, x: Scored, y: Scored)
    requires SortedByDist(sorted) && n <= |sorted| && x in sorted[..n] && y in sorted[n..]
    ensures x.dist <= y.dist
  {
    var i :| 0 <= i < n && sorted[i] == x;
    var j :| n <= j < |sorted| && sorted[j] == y;
  }

  /** Sorting the pool and truncating it yields its k nearest items. */
  lemma TruncatedSortIsTopK(sorted: seq<Scored>, pool: multiset<Scored>, k: nat)
    requires SortedByDist(sorted) && multiset(sorted) == pool
    ensures IsTopK(sorted[..Min(k, |sorted|)], pool, k)
  {
    var n := Min(k, |sorted|);
    SplitCounts(sorted, n);
    assert pool - multiset(sorted[..n]) == multiset(sorted[n..]);
    forall x, y | x in sorted[..n] && y in pool - multiset(sorted[..n]) ensures x.dist <= y.dist {
      HeadNotFarther(sorted, n, x, y);
    }
  }

  lemma SubsetCardinality<T>(a: multiset<T>, b: multiset<T>)
    requires a <= b
    ensures |a| <= |b|
  {
    assert b == a + (b - a);
  }

  /** What is nearer than the item at position i of an answer occurs, with multiplicity, before it. */
  lemma NearerComesBefore(t: seq<Scored>, pool: multiset<Scored>, k: nat, i: nat, x: Scored)
    requires IsTopK(t, pool, k) && i < |t| && x.dist < t[i].dist
    ensures pool[x] <= multiset(t[..i])[x]
  {
    SplitCounts(t, i);
    assert x !in t[i..];
    assert t[i] in t;
    assert x !in pool - multiset(t);
  }

  lemma CountInHead<T>(s: seq<T>, n: nat, m: multiset<T>, x: T)
    requires n <= |s| && multiset(s) <= m
    ensures multiset(s[..n])[x] <= m[x]
  {
    SplitCounts(s, n);
    assert multiset(s)[x] <= m[x];
  }

  lemma HeadDist(s: seq<Scored>, i: nat, x: Scored)
    requires SortedByDist(s) && i < |s| && x in s[..i + 1]
    ensures x.dist <= s[i].dist
  {
    var j :| 0 <= j < i + 1 && s[j] == x;
  }

  lemma SubMultiset<T>(s: seq<T>, m: multiset<T>)
    requires forall x :: x in s ==> multiset(s)[x] <= m[x]
    ensures multiset(s) <= m
  {
  }

  lemma PrefixNotNearer(r: seq<Scored>, t: seq<Scored>, pool: multiset<Scored>, k: nat, i: nat)
    requires IsTopK(r, pool, k) && IsTopK(t, pool, k) && i < |r|
    ensures i < |t| && t[i].dist <= r[i].dist
  {
    if r[i].dist < t[i].dist {
      forall x | x in r[..i + 1] ensures multiset(r[..i + 1])[x] <= multiset(t[..i])[x] {
        HeadDist(r, i, x);
        CountInHead(r, i + 1, pool, x);
        NearerComesBefore(t, pool, k, i, x);
      }
      SubMultiset(r[..i + 1], multiset(t[..i]));
      SubsetCardinality(multiset(r[..i + 1]), multiset(t[..i]));
      assert false;
    }
  }

  /** Two answers to the same query may order ties differently but show the same distances. */
  lemma TopKDistancesUnique(r: seq<Scored>, t: seq<Scored>, pool: multiset<Scored>, k: nat)
    requires IsTopK(r, pool, k) && IsTopK(t, pool, k)
    ensures |r| == |t|
    ensures forall i :: 0 <= i < |r| ==> r[i].dist == t[i].dist
  {
    forall i | 0 <= i < |r| ensures r[i].dist == t[i].dist {
      PrefixNotNearer(r, t, pool, k, i);
      PrefixNotNearer(t, r, pool, k, i);
    }
  }

  /** An item lost by one shard's own answer cannot be nearer than anything in the merged answer. */
  lemma SomeLeftOut(own: seq<Scored>, pool: multiset<Scored>, k: nat, y: Scored)
    requires IsTopK(own, pool, k) && y in pool - multiset(own)
    ensures |own| == k && forall z :: z in own ==> z.dist <= y.dist
  {
    assert |pool - multiset(own)| > 0;
    assert |pool| == |own| + |pool - multiset(own)|;
  }

  /** Every copy of an item nearer than some item of the answer is in the answer. */
  lemma NearerIsTaken(r: seq<Scored>, pool: multiset<Scored>, k: nat, z: Scored, x: Scored)
    requires IsTopK(r, pool, k) && x in r && z.dist < x.dist
    ensures pool[z] <= multiset(r)[z]
  {
    assert z !in pool - multiset(r);
  }

  lemma LostItemIsFar(r: seq<Scored>, own: seq<Scored>, others: multiset<Scored>, pool: multiset<Scored>,
                      k: nat, x: Scored, y: Scored)
    requires IsTopK(own, pool, k) && IsTopK(r, multiset(own) + others, k)
    requires x in r && y in pool - multiset(own)
    ensures x.dist <= y.dist
  {
    if y.dist < x.dist {
      SomeLeftOut(own, pool, k, y);
      forall z: Scored ensures (multiset(own) + multiset{x})[z] <= multiset(r)[z] {
        if z in own {
          NearerIsTaken(r, multiset(own) + others, k, z, x);
        }
      }
      SubsetCardinality(multiset(own) + multiset{x}, multiset(r));
      assert false;
    }
  }

  /** In a merge, one shard's own answer may stand for its whole pool. */
  lemma AbsorbPool(r: seq<Scored>, own: seq<Scored>, pool: multiset<Scored>, others: multiset<Scored>, k: nat)
    requires IsTopK(own, pool, k) && IsTopK(r, multiset(own) + others, k)
    ensures IsTopK(r, pool + others, k)
  {
    forall x, y | x in r && y in (pool + others) - multiset(r) ensures x.dist <= y.dist {
      if y !in (multiset(own) + others) - multiset(r) {
        assert y in pool - multiset(own);
        LostItemIsFar(r, own, others, pool, k, x, y);
      }
    }
  }

  /** Whatever else is merged in, answering from `part` answers from `pool`. */
  ghost predicate StandsFor(part: multiset<Scored>, pool: multiset<Scored>, k: nat) {
    forall r, others :: IsTopK(r, part + others, k) ==> IsTopK(r, pool + others, k)
  }

  lemma AnswerStandsForPool(own: seq<Scored>, pool: multiset<Scored>, k: nat)
    requires IsTopK(own, pool, k)
    ensures StandsFor(multiset(own), pool, k)
  {
    forall r, others | IsTopK(r, multiset(own) + others, k) ensures IsTopK(r, pool + others, k) {
      AbsorbPool(r, own, pool, others, k);
    }
  }

  lemma StandForUnion(a: multiset<Scored>, b: multiset<Scored>, poolA: multiset<Scored>, poolB: multiset<Scored>,
                      k: nat)
    requires StandsFor(a, poolA, k) && StandsFor(b, poolB, k)
    ensures StandsFor(a + b, poolA + poolB, k)
  {
    forall r, others | IsTopK(r, (a + b) + others, k) ensures IsTopK(r, (poolA + poolB) + others, k) {
      assert (a + b) + others == a + (b + others);
      assert poolA + (b + others) == b + (poolA + others);
      assert poolB + (poolA + others) == (poolA + poolB) + others;
    }
  }

  /** Merging: the k nearest of all shards' k nearest are the k nearest of everything. */
  lemma MergedAnswer(r: seq<Scored>, part: multiset<Scored>, pool: multiset<Scored>, k: nat)
    requires StandsFor(part, pool, k) && IsTopK(r, part, k)
    ensures IsTopK(r, pool, k)
  {
    assert part + multiset{} == part && pool + multiset{} == pool;
  }
}
