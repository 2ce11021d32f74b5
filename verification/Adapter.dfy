/** The vector index behind the memory store: the plain map that specifies it, and the adapter that keeps
    string ids over the graph engine, with tombstones and an overfetching search. */
module Adapter {
  import opened Options
  import opened TopK
  import opened Pools
  import opened VivyIndex
  import opened Hnsw

  datatype Hit = Hit(id: string, dist: real)

  type Vectors = map<string, seq<real>>

  /** `InMemoryTestIndex`: what an index of embeddings means. */
  class InMemoryIndex {
    const dims: nat
    var vectors: Vectors

    constructor (dims: nat)
      ensures this.dims == dims && vectors == map[]
    {
      this.dims, vectors := dims, map[];
    }

    method Upsert(id: string, vector: seq<real>) returns (r: Result<()>)
      modifies this
      ensures r == if |vector| != dims then DimensionMismatch else Ok(())
      ensures vectors == if r.Ok? then old(vectors)[id := vector] else old(vectors)
    {
      if |vector| != dims {
        return DimensionMismatch;
      }
      vectors := vectors[id := vector];
      return Ok(());
    }

    /** The default batch: upsert one by one, giving up at the first failure. */
    method UpsertBatch(items: seq<(string, seq<real>)>) returns (r: Result<()>)
      modifies this
      ensures vectors == StoppingBatch(old(vectors), items, dims)
      ensures r.Ok? <==> RightDims(items, dims)
    {
      for i := 0 to |items|
        invariant StoppingBatch(vectors, items[i..], dims) == StoppingBatch(old(vectors), items, dims)
        invariant RightDims(items[..i], dims)
      {
        var one := Upsert(items[i].0, items[i].1);
        if one.DimensionMismatch? {
          return DimensionMismatch;
        }
        assert items[i..][1..] == items[i + 1..];
      }
      return Ok(());
    }

    method Remove(id: string)
      modifies this
      ensures vectors == old(vectors) - {id}
    {
      vectors := vectors - {id};
    }

    /** Entries of the wrong dimension are skipped; of entries with one id the last wins. */
    method Rebuild(records: seq<(string, seq<real>)>)
      modifies this
      ensures vectors == Rebuilt(records, dims)
    {
      var fresh_: Vectors := map[];
      for i := 0 to |records|
        invariant fresh_ == Rebuilt(records[..i], dims)
      {
        if |records[i].1| == dims {
          fresh_ := fresh_[records[i].0 := records[i].1];
        }
        assert records[..i + 1][..i] == records[..i];
      }
      assert records[..|records|] == records;
      vectors := fresh_;
    }
  }

  function Rebuilt(records: seq<(string, seq<real>)>, dims: nat): Vectors {
    if records == [] then map[]
    else
      var rest := Rebuilt(records[..|records| - 1], dims);
      var last := records[|records| - 1];
      if |last.1| == dims then rest[last.0 := last.1] else rest
  }

  // ---- the filtering loop of the adapter's search ----

  /** First occurrences of live ids, in order. */
  function FirstLive(raw: seq<Scored>, names: map<nat, string>, dead: set<string>): seq<Hit> {
    if raw == [] then []
    else
      var before := FirstLive(raw[..|raw| - 1], names, dead);
      var x := raw[|raw| - 1];
      if x.key in names && names[x.key] !in dead && (forall h :: h in before ==> h.id != names[x.key])
      then before + [Hit(names[x.key], x.dist)] else before
  }

  /** What the search returns: it stops after pushing hit number `limit`, so zero never stops it. */
  function Filtered(raw: seq<Scored>, names: map<nat, string>, dead: set<string>, limit: nat): seq<Hit> {
    var all := FirstLive(raw, names, dead);
    if 1 <= limit < |all| then all[..limit] else all
  }

  ghost predicate Live(names: map<nat, string>, dead: set<string>, key: nat) {
    key in names && names[key] !in dead
  }

  /** The hit reports a listed version of a live id. */
  ghost predicate Reports(raw: seq<Scored>, names: map<nat, string>, dead: set<string>, h: Hit) {
    exists x :: x in raw && Live(names, dead, x.key) && names[x.key] == h.id && x.dist == h.dist
  }

  /** Some hit reports the item's id at no greater distance. */
  ghost predicate Covered(all: seq<Hit>, names: map<nat, string>, x: Scored) {
    x.key in names && exists h :: h in all && h.id == names[x.key] && h.dist <= x.dist
  }

  lemma {:induction false} HitsReport(raw: seq<Scored>, names: map<nat, string>, dead: set<string>, h: Hit)
    requires h in FirstLive(raw, names, dead)
    ensures Reports(raw, names, dead, h)
  {
    var init, x := raw[..|raw| - 1], raw[|raw| - 1];
    assert raw == init + [x];
    if h in FirstLive(init, names, dead) {
      HitsReport(init, names, dead, h);
      var y :| y in init && Live(names, dead, y.key) && names[y.key] == h.id && y.dist == h.dist;
      assert y in raw;
    }
  }

  ghost predicate HitsOrdered(all: seq<Hit>) {
    forall i, j :: 0 <= i < j < |all| ==> all[i].id != all[j].id && all[i].dist <= all[j].dist
  }

  lemma {:induction false} HitsAreOrdered(raw: seq<Scored>, names: map<nat, string>, dead: set<string>)
    requires SortedByDist(raw)
    ensures HitsOrdered(FirstLive(raw, names, dead))
  {
    if raw == [] {
    } else {
      var init, x := raw[..|raw| - 1], raw[|raw| - 1];
      HitsAreOrdered(init, names, dead);
      var before := FirstLive(init, names, dead);
      forall i | 0 <= i < |before| ensures before[i].dist <= x.dist {
        HitsReport(init, names, dead, before[i]);
        var y :| y in init && Live(names, dead, y.key) && names[y.key] == before[i].id && y.dist == before[i].dist;
        var j :| 0 <= j < |init| && init[j] == y;
      }
    }
  }

  /** One more item of the list keeps the hits there are, and leaves a live item with some hit of its id. */
  lemma LastIsCovered(raw: seq<Scored>, names: map<nat, string>, dead: set<string>)
    requires raw != []
    ensures forall h :: h in FirstLive(raw[..|raw| - 1], names, dead) ==> h in FirstLive(raw, names, dead)
    ensures var x := raw[|raw| - 1];
            var before := FirstLive(raw[..|raw| - 1], names, dead);
            Live(names, dead, x.key) && !(exists h :: h in before && h.id == names[x.key]) ==>
              Hit(names[x.key], x.dist) in FirstLive(raw, names, dead)
  {
  }

  lemma {:induction false} LiveIsCovered(raw: seq<Scored>, names: map<nat, string>, dead: set<string>, y: Scored)
    requires SortedByDist(raw) && y in raw && Live(names, dead, y.key)
    ensures Covered(FirstLive(raw, names, dead), names, y)
  {
    hide FirstLive;
    var init, x := raw[..|raw| - 1], raw[|raw| - 1];
    assert raw == init + [x];
    var before := FirstLive(init, names, dead);
    LastIsCovered(raw, names, dead);
    if y in init {
      LiveIsCovered(init, names, dead, y);
    } else if h :| h in before && h.id == names[x.key] {
      HitsReport(init, names, dead, h);
      var z :| z in init && Live(names, dead, z.key) && names[z.key] == h.id && z.dist == h.dist;
      var j :| 0 <= j < |init| && init[j] == z;
    } else {
      assert Hit(names[x.key], x.dist) in FirstLive(raw, names, dead);
    }
  }

  // ---- the overfetch bound ----

  ghost predicate Stored(pool: multiset<Scored>, names: map<nat, string>, id: string) {
    exists x :: x in pool && x.key in names && names[x.key] == id
  }

  /** Ids with a stored item each are no more than the items. */
  lemma {:induction false} NoMoreIdsThanItems(pool: multiset<Scored>, names: map<nat, string>, ids: set<string>)
    requires forall id :: id in ids ==> Stored(pool, names, id)
    ensures |ids| <= |pool|
    decreases ids
  {
    if id :| id in ids {
      var x :| x in pool && x.key in names && names[x.key] == id;
      var rest := pool - multiset{x};
      forall other | other in ids - {id} ensures Stored(rest, names, other) {
        var y :| y in pool && y.key in names && names[y.key] == other;
        assert y in rest;
      }
      NoMoreIdsThanItems(rest, names, ids - {id});
      assert pool == rest + multiset{x};
    }
  }

  ghost function IdsOf(hits: seq<Hit>): set<string> {
    set h | h in hits :: h.id
  }

  lemma {:induction false} DistinctIdsCount(hits: seq<Hit>)
    requires HitsOrdered(hits)
    ensures |IdsOf(hits)| == |hits|
  {
    if hits == [] {
      assert IdsOf(hits) == {};
    } else {
      var n := |hits| - 1;
      assert hits == hits[..n] + [hits[n]];
      DistinctIdsCount(hits[..n]);
      assert IdsOf(hits) == IdsOf(hits[..n]) + {hits[n].id};
      assert hits[n].id !in IdsOf(hits[..n]);
    }
  }

  /** `live` is the set of ids that are stored and not tombstoned. */
  ghost predicate LiveIds(pool: multiset<Scored>, names: map<nat, string>, dead: set<string>, live: set<string>) {
    && (forall id :: id in live ==> id !in dead && Stored(pool, names, id))
    && forall x :: x in pool && Live(names, dead, x.key) ==> names[x.key] in live
  }

  lemma HitIdsAreLive(raw: seq<Scored>, pool: multiset<Scored>, names: map<nat, string>, dead: set<string>,
                      live: set<string>)
    requires multiset(raw) <= pool && LiveIds(pool, names, dead, live)
    ensures IdsOf(FirstLive(raw, names, dead)) <= live
  {
    forall id | id in IdsOf(FirstLive(raw, names, dead)) ensures id in live {
      var h :| h in FirstLive(raw, names, dead) && h.id == id;
      HitsReport(raw, names, dead, h);
      var x :| x in raw && Live(names, dead, x.key) && names[x.key] == h.id && x.dist == h.dist;
      assert x in multiset(raw);
    }
  }

  /** A live id that the fetched list misses has an item outside the list. */
  lemma MissedIdsAreOutside(raw: seq<Scored>, pool: multiset<Scored>, names: map<nat, string>, dead: set<string>,
                            live: set<string>)
    requires SortedByDist(raw) && multiset(raw) <= pool && LiveIds(pool, names, dead, live)
    ensures |live - IdsOf(FirstLive(raw, names, dead))| <= |pool| - |raw|
  {
    var missed := live - IdsOf(FirstLive(raw, names, dead));
    var outside := pool - multiset(raw);
    forall id | id in missed ensures Stored(outside, names, id) {
      var x :| x in pool && x.key in names && names[x.key] == id;
      if x in raw {
        LiveIsCovered(raw, names, dead, x);
        assert false;
      }
      assert x in outside;
    }
    NoMoreIdsThanItems(outside, names, missed);
    assert pool == outside + multiset(raw);
  }

  function Fetch(limit: nat): nat {
    limit * 3 + 10
  }

  /** Enough distinct live ids are fetched, if at most 2 * limit + 10 stored items are wasted. */
  lemma EnoughFetched(raw: seq<Scored>, pool: multiset<Scored>, names: map<nat, string>, dead: set<string>,
                      live: set<string>, limit: nat)
    requires IsTopK(raw, pool, Fetch(limit)) && LiveIds(pool, names, dead, live)
    requires |pool| <= |live| + 2 * limit + 10
    ensures var all := FirstLive(raw, names, dead);
            |all| <= |live| && (|all| >= limit || |all| == |live|)
    ensures |raw| == |pool| ==> |FirstLive(raw, names, dead)| == |live|
  {
    var all := FirstLive(raw, names, dead);
    HitsAreOrdered(raw, names, dead);
    DistinctIdsCount(all);
    HitIdsAreLive(raw, pool, names, dead, live);
    MissedIdsAreOutside(raw, pool, names, dead, live);
    assert live == IdsOf(all) + (live - IdsOf(all));
  }

  /** The hit is the nearest stored version of its id. */
  ghost predicate Best(pool: multiset<Scored>, names: map<nat, string>, h: Hit) {
    && (exists x :: x in pool && x.key in names && names[x.key] == h.id && x.dist == h.dist)
    && forall x :: x in pool && x.key in names && names[x.key] == h.id ==> h.dist <= x.dist
  }

  lemma HitIsBest(raw: seq<Scored>, pool: multiset<Scored>, k: nat, names: map<nat, string>, dead: set<string>, h: Hit)
    requires IsTopK(raw, pool, k) && h in FirstLive(raw, names, dead)
    ensures Best(pool, names, h)
  {
    HitsReport(raw, names, dead, h);
    var own :| own in raw && Live(names, dead, own.key) && names[own.key] == h.id && own.dist == h.dist;
    assert own in multiset(raw);
    HitsAreOrdered(raw, names, dead);
    forall x | x in pool && x.key in names && names[x.key] == h.id ensures h.dist <= x.dist {
      if x in raw {
        LiveIsCovered(raw, names, dead, x);
        var g :| g in FirstLive(raw, names, dead) && g.id == names[x.key] && g.dist <= x.dist;
        assert g == h;
      } else {
        assert x in pool - multiset(raw);
      }
    }
  }

  /** The adapter's answer: at most `limit` distinct live ids at their best stored distance, nearest first. */
  ghost predicate NearestLive(r: seq<Hit>, pool: multiset<Scored>, names: map<nat, string>, dead: set<string>,
                              live: set<string>, limit: nat) {
    && HitsOrdered(r) && |r| == Min(limit, |live|) && IdsOf(r) <= live
    && (forall h :: h in r ==> Best(pool, names, h))
    && forall x, h :: x in pool && Live(names, dead, x.key) && names[x.key] !in IdsOf(r) && h in r ==> h.dist <= x.dist
  }

  lemma PrefixIds(all: seq<Hit>, n: nat)
    requires n <= |all|
    ensures IdsOf(all[..n]) <= IdsOf(all) && forall h :: h in all[..n] ==> h in all
    ensures HitsOrdered(all) ==> HitsOrdered(all[..n])
  {
    assert forall h :: h in all[..n] ==> h in all;
  }

  /** The overfetch bound. */
  lemma OverfetchSuffices(raw: seq<Scored>, pool: multiset<Scored>, names: map<nat, string>, dead: set<string>,
                          live: set<string>, limit: nat)
    requires IsTopK(raw, pool, Fetch(limit)) && LiveIds(pool, names, dead, live) && limit >= 1
    requires |pool| <= |live| + 2 * limit + 10
    ensures NearestLive(Filtered(raw, names, dead, limit), pool, names, dead, live, limit)
  {
    var all, r := FirstLive(raw, names, dead), Filtered(raw, names, dead, limit);
    EnoughFetched(raw, pool, names, dead, live, limit);
    HitsAreOrdered(raw, names, dead);
    HitIdsAreLive(raw, pool, names, dead, live);
    PrefixIds(all, |r|);
    hide FirstLive, IsTopK, LiveIds, Live, Best;
    forall h | h in r ensures Best(pool, names, h) {
      HitIsBest(raw, pool, Fetch(limit), names, dead, h);
    }
    forall x, h | x in pool && Live(names, dead, x.key) && names[x.key] !in IdsOf(r) && h in r
      ensures h.dist <= x.dist
    {
      LeftOutIsFarther(raw, pool, names, dead, limit, x, h);
    }
  }

  lemma LeftOutIsFarther(raw: seq<Scored>, pool: multiset<Scored>, names: map<nat, string>, dead: set<string>,
                         limit: nat, x: Scored, h: Hit)
    requires IsTopK(raw, pool, Fetch(limit)) && limit >= 1
    requires x in pool && Live(names, dead, x.key)
    requires var r := Filtered(raw, names, dead, limit); names[x.key] !in IdsOf(r) && h in r
    ensures h.dist <= x.dist
  {
    var all, r := FirstLive(raw, names, dead), Filtered(raw, names, dead, limit);
    HitsAreOrdered(raw, names, dead);
    var j :| 0 <= j < |r| && r[j] == h;
    assert all[j] == h;
    if x in raw {
      LiveIsCovered(raw, names, dead, x);
      var g :| g in all && g.id == names[x.key] && g.dist <= x.dist;
      var i :| 0 <= i < |all| && all[i] == g;
      assert forall m :: 0 <= m < |r| ==> r[m] == all[m] && r[m].id in IdsOf(r);
    } else {
      HitsReport(raw, names, dead, h);
      var own :| own in raw && Live(names, dead, own.key) && names[own.key] == h.id && own.dist == h.dist;
      assert x in pool - multiset(raw);
    }
  }

  /** The answer keeps to the limit exactly if that is at least one, or nothing live was fetched: with a
      limit of zero nothing stops the loop and every live id fetched is reported. */
  lemma LimitHolds(raw: seq<Scored>, names: map<nat, string>, dead: set<string>, limit: nat)
    ensures |Filtered(raw, names, dead, limit)| <= limit <==> limit >= 1 || FirstLive(raw, names, dead) == []
    ensures limit == 0 ==> Filtered(raw, names, dead, limit) == FirstLive(raw, names, dead)
  {
  }

  /** What a limit of zero gives with an exact engine: of the ten versions fetched all but the wasted ones are
      hits.  So if everything stored was fetched every live id is reported, and if at most nine versions are
      wasted the limit is kept exactly when there is no live id. */
  lemma ZeroLimitIsNoLimit(raw: seq<Scored>, pool: multiset<Scored>, names: map<nat, string>, dead: set<string>,
                           live: set<string>)
    requires IsTopK(raw, pool, Fetch(0)) && LiveIds(pool, names, dead, live)
    ensures var r := Filtered(raw, names, dead, 0);
            && |live| + |raw| - |pool| <= |r| <= |live|
            && (|pool| <= 10 ==> |r| == |live|)
            && (|pool| <= |live| + 9 ==> (|r| <= 0 <==> live == {}))
  {
    var all := FirstLive(raw, names, dead);
    LimitHolds(raw, names, dead, 0);
    HitsAreOrdered(raw, names, dead);
    DistinctIdsCount(all);
    HitIdsAreLive(raw, pool, names, dead, live);
    MissedIdsAreOutside(raw, pool, names, dead, live);
    assert live == IdsOf(all) + (live - IdsOf(all));
  }

  lemma {:induction false} DeadShowNothing(raw: seq<Scored>, names: map<nat, string>, dead: set<string>)
    requires forall x :: x in raw ==> !Live(names, dead, x.key)
    ensures FirstLive(raw, names, dead) == []
  {
    if raw == [] {
    } else {
      assert raw[|raw| - 1] in raw;
      DeadShowNothing(raw[..|raw| - 1], names, dead);
    }
  }

  function TenVersions(): (raw: seq<Scored>)
    ensures |raw| == 10 && forall x :: x in raw ==> x == Scored(1, 0.0)
  {
    seq(10, _ => Scored(1, 0.0))
  }

  lemma TenAreTheNearest(raw: seq<Scored>, far: Scored)
    requires raw == TenVersions() && far.dist >= 0.0
    ensures IsTopK(raw, multiset(raw) + multiset{far}, Fetch(0)) && |multiset(raw) + multiset{far}| == 11
  {
    assert multiset(raw) + multiset{far} - multiset(raw) == multiset{far};
    assert SortedByDist(raw) by {
      forall i | 0 <= i < |raw| ensures raw[i] == Scored(1, 0.0) {
        assert raw[i] in raw;
      }
    }
  }

  /** Nine is the exact bound: ten versions of a removed id, all nearer, hide the only live id. */
  lemma TenWastedHideALiveId()
    ensures var raw, names, dead := TenVersions(), map[1 := "removed", 2 := "kept"], {"removed"};
            var pool := multiset(raw) + multiset{Scored(2, 1.0)};
            && IsTopK(raw, pool, Fetch(0)) && LiveIds(pool, names, dead, {"kept"}) && |pool| == 1 + 10
            && Filtered(raw, names, dead, 0) == []
  {
    hide TenVersions, FirstLive, IsTopK;
    var raw, far, names := TenVersions(), Scored(2, 1.0), map[1 := "removed", 2 := "kept"];
    var pool := multiset(raw) + multiset{far};
    DeadShowNothing(raw, names, {"removed"});
    TenAreTheNearest(raw, far);
    assert far in pool;
    forall x | x in pool ensures x == Scored(1, 0.0) || x == far {
      assert x in raw || x == far;
    }
    assert LiveIds(pool, names, {"removed"}, {"kept"});
  }

  // ---- the adapter ----

  type Draws = nat -> nat

  /** The two id maps are mutually inverse and use numbers from 1 up to the counter. */
  ghost predicate MapsInverse(numbers: map<string, nat>, names: map<nat, string>, next: nat) {
    && (forall id :: id in numbers ==> numbers[id] in names && names[numbers[id]] == id && 1 <= numbers[id] < next)
    && forall u :: u in names ==> names[u] in numbers && numbers[names[u]] == u
  }

  /** An id's number, a new one if it has none. */
  function Assign(numbers: map<string, nat>, next: nat, id: string): nat {
    if id in numbers then numbers[id] else next
  }

  lemma AssignKeepsInverse(numbers: map<string, nat>, names: map<nat, string>, next: nat, id: string)
    requires MapsInverse(numbers, names, next) && 1 <= next
    ensures var u := Assign(numbers, next, id);
            u <= next && MapsInverse(numbers[id := u], names[u := id], if id in numbers then next else next + 1)
  {
  }

  /** What the specification index holds, in terms of the adapter's own state: exactly the mapped and not
      tombstoned ids, each with its current vector among the stored versions. */
  ghost predicate Tracks(model: Vectors, numbers: map<string, nat>, dead: set<string>, contents: seq<Entry>) {
    && model.Keys == numbers.Keys - dead
    && forall id :: id in model ==> Entry(numbers[id], model[id]) in contents
  }

  ghost predicate KeysNamed(contents: seq<Entry>, names: map<nat, string>) {
    forall e :: e in contents ==> e.id in names
  }

  lemma UpsertTracks(model: Vectors, numbers: map<string, nat>, names: map<nat, string>, next: nat, dead: set<string>,
                     before: seq<Entry>, after: seq<Entry>, id: string, vector: seq<real>)
    requires MapsInverse(numbers, names, next) && Tracks(model, numbers, dead, before) && KeysNamed(before, names)
    requires multiset(after) == multiset(before) + multiset{Entry(Assign(numbers, next, id), vector)}
    ensures var u := Assign(numbers, next, id);
            Tracks(model[id := vector], numbers[id := u], dead - {id}, after) && KeysNamed(after, names[u := id])
  {
    var u := Assign(numbers, next, id);
    forall e ensures e in after <==> e in before || e == Entry(u, vector) {
      assert e in after <==> e in multiset(after);
    }
  }

  function IdsIn(items: seq<(string, seq<real>)>): set<string> {
    set i | 0 <= i < |items| :: items[i].0
  }

  lemma IdsInAppend(items: seq<(string, seq<real>)>, item: (string, seq<real>))
    ensures IdsIn(items + [item]) == IdsIn(items) + {item.0}
  {
    var all := items + [item];
    forall id | id in IdsIn(items) + {item.0} ensures id in IdsIn(all) {
      if id == item.0 {
        assert all[|items|] == item;
      } else {
        var i :| 0 <= i < |items| && items[i].0 == id;
        assert all[i].0 == id;
      }
    }
  }

  predicate RightDims(items: seq<(string, seq<real>)>, dims: nat) {
    forall i :: 0 <= i < |items| ==> |items[i].1| == dims
  }

  function UpsertAll(model: Vectors, items: seq<(string, seq<real>)>): Vectors {
    if items == [] then model
    else UpsertAll(model, items[..|items| - 1])[items[|items| - 1].0 := items[|items| - 1].1]
  }

  lemma {:induction false} UpsertAllKeys(model: Vectors, items: seq<(string, seq<real>)>)
    ensures UpsertAll(model, items).Keys == model.Keys + IdsIn(items)
  {
    if items == [] {
    } else {
      var init, last := items[..|items| - 1], items[|items| - 1];
      assert items == init + [last];
      UpsertAllKeys(model, init);
      IdsInAppend(init, last);
    }
  }

  /** Each id's current vector is among the stored versions. */
  ghost predicate VersionsStored(model: Vectors, numbers: map<string, nat>, contents: seq<Entry>) {
    forall id :: id in model ==> id in numbers && Entry(numbers[id], model[id]) in contents
  }

  /** The maps have grown by the ids of the items, whose numbers are listed. */
  ghost predicate Numbered(numbers: map<string, nat>, names: map<nat, string>, items: seq<(string, seq<real>)>,
                           grown: map<string, nat>, grownNames: map<nat, string>, us: seq<nat>) {
    && grown.Keys == numbers.Keys + IdsIn(items)
    && (forall id :: id in numbers ==> grown[id] == numbers[id])
    && (forall u :: u in names ==> u in grownNames)
    && |us| == |items|
    && forall i :: 0 <= i < |items| ==> items[i].0 in grown && us[i] <= U64_MAX && us[i] == grown[items[i].0]
  }

  lemma NothingNumbered(numbers: map<string, nat>, names: map<nat, string>, items: seq<(string, seq<real>)>)
    ensures Numbered(numbers, names, items[..0], numbers, names, [])
  {
    assert IdsIn(items[..0]) == {};
  }

  lemma NumberedStep(numbers: map<string, nat>, names: map<nat, string>, items: seq<(string, seq<real>)>, i: nat,
                     grown: map<string, nat>, grownNames: map<nat, string>, next: nat, us: seq<nat>)
    requires i < |items| && Numbered(numbers, names, items[..i], grown, grownNames, us)
    requires MapsInverse(grown, grownNames, next) && next <= U64_MAX
    ensures var u := Assign(grown, next, items[i].0);
            Numbered(numbers, names, items[..i + 1], grown[items[i].0 := u], grownNames[u := items[i].0], us + [u])
  {
    var u, id := Assign(grown, next, items[i].0), items[i].0;
    assert items[..i + 1] == items[..i] + [items[i]];
    IdsInAppend(items[..i], items[i]);
    hide IdsIn;
    forall j | 0 <= j <= i
      ensures items[..i + 1][j].0 in grown[id := u]
      ensures (us + [u])[j] <= U64_MAX && (us + [u])[j] == grown[id := u][items[..i + 1][j].0]
    {
      if j < i { assert items[..i + 1][j] == items[..i][j]; }
    }
  }

  lemma BatchBegins(model: Vectors, numbers: map<string, nat>, names: map<nat, string>, dead: set<string>,
                    contents: seq<Entry>, grown: map<string, nat>, grownNames: map<nat, string>)
    requires Tracks(model, numbers, dead, contents) && KeysNamed(contents, names)
    requires forall id :: id in numbers ==> id in grown && grown[id] == numbers[id]
    requires forall u :: u in names ==> u in grownNames
    ensures VersionsStored(model, grown, contents) && KeysNamed(contents, grownNames)
  {
  }

  lemma BatchStep(model: Vectors, items: seq<(string, seq<real>)>, i: nat, numbers: map<string, nat>,
                  names: map<nat, string>, next: nat, before: seq<Entry>, after: seq<Entry>)
    requires i < |items| && items[i].0 in numbers && MapsInverse(numbers, names, next)
    requires VersionsStored(UpsertAll(model, items[..i]), numbers, before) && KeysNamed(before, names)
    requires multiset(after) == multiset(before) + multiset{Entry(numbers[items[i].0], items[i].1)}
    ensures VersionsStored(UpsertAll(model, items[..i + 1]), numbers, after) && KeysNamed(after, names)
  {
    assert items[..i + 1][..i] == items[..i];
    forall e ensures e in after <==> e in before || e == Entry(numbers[items[i].0], items[i].1) {
      assert e in after <==> e in multiset(after);
    }
  }

  lemma BatchEnds(model: Vectors, items: seq<(string, seq<real>)>, numbers: map<string, nat>, dead: set<string>,
                  before: seq<Entry>, grown: map<string, nat>, after: seq<Entry>)
    requires Tracks(model, numbers, dead, before) && grown.Keys == numbers.Keys + IdsIn(items)
    requires VersionsStored(UpsertAll(model, items), grown, after)
    ensures Tracks(UpsertAll(model, items), grown, dead - IdsIn(items), after)
  {
    UpsertAllKeys(model, items);
  }

  lemma NothingTracked(contents: seq<Entry>)
    requires contents == []
    ensures MapsInverse(map[], map[], 1) && KeysNamed(contents, map[]) && Tracks(map[], map[], {}, contents)
  {
  }

  // ---- the two indexes compared on batches ----

  /** The batch of the specification index: one upsert after the other, stopping at the first failure. */
  function StoppingBatch(model: Vectors, items: seq<(string, seq<real>)>, dims: nat): Vectors
    decreases |items|
  {
    if items == [] || |items[0].1| != dims then model
    else StoppingBatch(model[items[0].0 := items[0].1], items[1..], dims)
  }

  /** The batch of the adapter: all or nothing. */
  function AtomicBatch(model: Vectors, items: seq<(string, seq<real>)>, dims: nat): Vectors {
    if RightDims(items, dims) then UpsertAll(model, items) else model
  }

  lemma {:induction false} UpsertAllFront(model: Vectors, items: seq<(string, seq<real>)>)
    requires items != []
    ensures UpsertAll(model, items) == UpsertAll(model[items[0].0 := items[0].1], items[1..])
  {
    if |items| > 1 {
      UpsertAllFront(model, items[..|items| - 1]);
      assert items[1..][..|items| - 2] == items[..|items| - 1][1..];
    }
  }

  /** How many items come before the first of a wrong dimension. */
  function GoodPrefix(items: seq<(string, seq<real>)>, dims: nat): (n: nat)
    ensures n <= |items|
  {
    if items == [] || |items[0].1| != dims then 0 else 1 + GoodPrefix(items[1..], dims)
  }

  lemma {:induction false} StoppingBatchKeepsPrefix(model: Vectors, items: seq<(string, seq<real>)>, dims: nat)
    ensures StoppingBatch(model, items, dims) == UpsertAll(model, items[..GoodPrefix(items, dims)])
    ensures GoodPrefix(items, dims) == |items| <==> RightDims(items, dims)
    decreases |items|
  {
    if items != [] && |items[0].1| == dims {
      var n := GoodPrefix(items, dims);
      StoppingBatchKeepsPrefix(model[items[0].0 := items[0].1], items[1..], dims);
      UpsertAllFront(model, items[..n]);
      assert items[..n][1..] == items[1..][..n - 1];
      assert RightDims(items, dims) <==> RightDims(items[1..], dims) by {
        assert items == [items[0]] + items[1..];
      }
    }
  }

  /** The two indexes agree on a batch exactly when every dimension is right, or when what comes before the
      first wrong one changes nothing. */
  lemma BatchesAgree(model: Vectors, items: seq<(string, seq<real>)>, dims: nat)
    ensures StoppingBatch(model, items, dims) == AtomicBatch(model, items, dims) <==>
            RightDims(items, dims) || UpsertAll(model, items[..GoodPrefix(items, dims)]) == model
  {
    StoppingBatchKeepsPrefix(model, items, dims);
    if RightDims(items, dims) {
      assert items[..|items|] == items;
    }
  }

  /** A batch on which they differ. */
  lemma BatchesDiffer()
    ensures StoppingBatch(map[], [("a", [1.0]), ("b", [])], 1) != AtomicBatch(map[], [("a", [1.0]), ("b", [])], 1)
  {
    var items: seq<(string, seq<real>)> := [("a", [1.0]), ("b", [])];
    assert items[1..][0] == ("b", []);
    assert StoppingBatch(map[], items, 1) == StoppingBatch(map["a" := [1.0]], items[1..], 1) == map["a" := [1.0]];
    assert !RightDims(items, 1) by { assert |items[1].1| != 1; }
    assert AtomicBatch(map[], items, 1) == map[];
    assert "a" in StoppingBatch(map[], items, 1);
  }

  class VivyVectorIndex {
    const dims: nat
    const metric: Metric
    const shardOf: nat -> nat
    var inner: VivyIndex
    var numbers: map<string, nat>
    var names: map<nat, string>
    var tombstones: set<string>
    var nextNumber: nat
    /** The state of the specification index after the same calls. */
    ghost var model: Vectors

    ghost predicate Valid()
      reads this, inner, inner.shards
    {
      && inner.Valid() && inner.ValidShards() && inner.dims == dims && inner.metric == metric
      && 1 <= nextNumber
      && MapsInverse(numbers, names, nextNumber)
      && KeysNamed(inner.Contents(), names)
      && Tracks(model, numbers, tombstones, inner.Contents())
    }

    constructor (dims: nat, metric: Metric, shardOf: nat -> nat)
      ensures Valid() && model == map[] && this.dims == dims
    {
      hide HnswIndex.Valid, VivyIndex.Valid, VivyIndex.ValidShards, VivyIndex.Contents, VivyIndex.HighWater,
           MapsInverse, Tracks, KeysNamed;
      this.dims, this.metric, this.shardOf := dims, metric, shardOf;
      inner := new VivyIndex(dims, metric, shardOf);
      numbers, names, tombstones, nextNumber := map[], map[], {}, 1;
      model := map[];
      new;
      NothingTracked(inner.Contents());
    }

    /** Give the id a number if it has none. */
    method Number(id: string) returns (u: nat)
      requires MapsInverse(numbers, names, nextNumber) && 1 <= nextNumber
      modifies this`numbers, this`names, this`nextNumber
      ensures u == Assign(old(numbers), old(nextNumber), id) <= old(nextNumber)
      ensures numbers == old(numbers)[id := u] && names == old(names)[u := id]
      ensures MapsInverse(numbers, names, nextNumber)
      ensures nextNumber == if id in old(numbers) then old(nextNumber) else old(nextNumber) + 1
    {
      AssignKeepsInverse(numbers, names, nextNumber, id);
      u := Assign(numbers, nextNumber, id);
      if id !in numbers {
        nextNumber := nextNumber + 1;
      }
      numbers, names := numbers[id := u], names[u := id];
    }

    /** The engine stores one more version. */
    method AddVersion(u: nat, vector: seq<real>, level: nat)
      requires inner.Valid() && inner.dims == |vector| && u <= U64_MAX
      modifies inner`nextId, inner.shards
      ensures inner.Valid()
      ensures multiset(inner.Contents()) == multiset(old(inner.Contents())) + multiset{Entry(u, vector)}
    {
      hide HnswIndex.Valid, VivyIndex.ValidShards, VivyIndex.Contents, VivyIndex.HighWater;
      var ok := inner.InsertWithId(u, vector, level);
    }

    method Store(id: string, vector: seq<real>, level: nat)
      requires Valid() && nextNumber < U64_MAX && |vector| == dims
      modifies this`numbers, this`names, this`tombstones, this`nextNumber, this`model, inner`nextId, inner.shards
      ensures Valid() && nextNumber <= old(nextNumber) + 1
      ensures model == old(model)[id := vector] && tombstones == old(tombstones) - {id}
    {
      hide VivyIndex.Valid, VivyIndex.ValidShards, VivyIndex.Contents, MapsInverse, Tracks, KeysNamed, Assign;
      ghost var before, n0, m0, k0, d0 := inner.Contents(), numbers, names, nextNumber, tombstones;
      var u := Number(id);
      tombstones := tombstones - {id};
      AddVersion(u, vector, level);
      UpsertTracks(model, n0, m0, k0, d0, before, inner.Contents(), id, vector);
      model := model[id := vector];
    }

    /** `upsert`: the maps grow if the id is new, its tombstone is cleared, a version is added. */
    method Upsert(id: string, vector: seq<real>, level: nat) returns (r: Result<()>)
      requires Valid() && nextNumber < U64_MAX
      modifies this`numbers, this`names, this`tombstones, this`nextNumber, this`model, inner`nextId, inner.shards
      ensures Valid() && nextNumber <= old(nextNumber) + 1
      ensures r == if |vector| != dims then DimensionMismatch else Ok(())
      ensures model == if r.Ok? then old(model)[id := vector] else old(model)
    {
      hide Valid;
      if |vector| != dims {
        return DimensionMismatch;
      }
      Store(id, vector, level);
      return Ok(());
    }

    /** `remove`: only a tombstone is set, even for an id that was never mapped. */
    method Remove(id: string)
      requires Valid()
      modifies this`tombstones, this`model
      ensures Valid() && model == old(model) - {id}
    {
      hide VivyIndex.Valid, VivyIndex.ValidShards, VivyIndex.Contents, MapsInverse, KeysNamed;
      tombstones := tombstones + {id};
      model := model - {id};
    }

    /** The first loop of a batch: numbers for all ids. */
    method MapAll(items: seq<(string, seq<real>)>) returns (us: seq<nat>)
      requires MapsInverse(numbers, names, nextNumber) && 1 <= nextNumber && nextNumber + |items| <= U64_MAX
      modifies this`numbers, this`names, this`nextNumber
      ensures MapsInverse(numbers, names, nextNumber) && old(nextNumber) <= nextNumber <= old(nextNumber) + |items|
      ensures Numbered(old(numbers), old(names), items, numbers, names, us)
    {
      NothingNumbered(numbers, names, items);
      hide MapsInverse, Numbered;
      us := [];
      for i := 0 to |items|
        invariant MapsInverse(numbers, names, nextNumber) && old(nextNumber) <= nextNumber <= old(nextNumber) + i
        invariant Numbered(old(numbers), old(names), items[..i], numbers, names, us)
      {
        NumberedStep(old(numbers), old(names), items, i, numbers, names, nextNumber, us);
        var u := Number(items[i].0);
        us := us + [u];
      }
      assert items[..|items|] == items;
    }

    /** `upsert_batch`: nothing happens if any vector has the wrong dimension; otherwise numbers, tombstones
        and versions are dealt with in three loops. */
    method UpsertBatch(items: seq<(string, seq<real>)>, draw: Draws) returns (r: Result<()>)
      requires Valid() && nextNumber + |items| <= U64_MAX
      modifies this`numbers, this`names, this`tombstones, this`nextNumber, this`model, inner`nextId, inner.shards
      ensures Valid()
      ensures r == if RightDims(items, dims) then Ok(()) else DimensionMismatch
      ensures model == if r.Ok? then UpsertAll(old(model), items) else old(model)
    {
      hide Valid;
      for i := 0 to |items|
        invariant RightDims(items[..i], dims)
      {
        if |items[i].1| != dims {
          return DimensionMismatch;
        }
      }
      StoreAll(items, draw);
      return Ok(());
    }

    method StoreAll(items: seq<(string, seq<real>)>, draw: Draws)
      requires Valid() && nextNumber + |items| <= U64_MAX && RightDims(items, dims)
      modifies this`numbers, this`names, this`tombstones, this`nextNumber, this`model, inner`nextId, inner.shards
      ensures Valid()
      ensures model == UpsertAll(old(model), items)
    {
      hide VivyIndex.Valid, VivyIndex.ValidShards, VivyIndex.Contents, MapsInverse, Tracks, KeysNamed, VersionsStored,
           UpsertAll, IdsIn;
      ghost var before, n0, d0, names0 := inner.Contents(), numbers, tombstones, names;
      var us := MapAll(items);
      tombstones := tombstones - IdsIn(items);
      BatchBegins(model, n0, names0, d0, before, numbers, names);
      AddVersions(items, us, draw);
      BatchEnds(model, items, n0, d0, before, numbers, inner.Contents());
      model := UpsertAll(model, items);
    }

    /** The last loop of a batch: the engine stores every new version. */
    method AddVersions(items: seq<(string, seq<real>)>, us: seq<nat>, draw: Draws)
      requires inner.Valid() && inner.ValidShards() && inner.dims == dims && RightDims(items, dims)
      requires MapsInverse(numbers, names, nextNumber) && KeysNamed(inner.Contents(), names)
      requires VersionsStored(model, numbers, inner.Contents())
      requires |us| == |items| && forall i :: 0 <= i < |items| ==>
                 items[i].0 in numbers && us[i] <= U64_MAX && us[i] == numbers[items[i].0]
      modifies inner`nextId, inner.shards
      ensures inner.Valid() && inner.ValidShards()
      ensures KeysNamed(inner.Contents(), names)
      ensures VersionsStored(UpsertAll(model, items), numbers, inner.Contents())
    {
      hide VivyIndex.Valid, VivyIndex.ValidShards, VivyIndex.Contents, MapsInverse, KeysNamed, VersionsStored;
      assert items[..0] == [];
      for i := 0 to |items|
        invariant inner.Valid() && inner.ValidShards()
        invariant KeysNamed(inner.Contents(), names)
        invariant VersionsStored(UpsertAll(model, items[..i]), numbers, inner.Contents())
      {
        ghost var contents := inner.Contents();
        AddVersion(us[i], items[i].1, draw(i));
        BatchStep(model, items, i, numbers, names, nextNumber, contents, inner.Contents());
      }
      assert items[..|items|] == items;
    }

    /** A new engine, new maps, the counter back at one and no tombstones. */
    method Reset()
      modifies this`inner, this`numbers, this`names, this`tombstones, this`nextNumber, this`model
      ensures Valid() && fresh(inner) && fresh(inner.shards)
      ensures tombstones == {} && nextNumber == 1 && numbers == map[] && model == map[]
    {
      hide HnswIndex.Valid, VivyIndex.Valid, VivyIndex.ValidShards, VivyIndex.Contents, VivyIndex.HighWater,
           MapsInverse, Tracks, KeysNamed;
      numbers, names, tombstones, nextNumber, model := map[], map[], {}, 1, map[];
      inner := new VivyIndex(dims, metric, shardOf);
      NothingTracked(inner.Contents());
    }

    /** `rebuild`, from records with distinct ids: records of the wrong dimension are skipped. */
    method Rebuild(records: seq<(string, seq<real>)>, draw: Draws)
      requires |records| < U64_MAX
      requires forall i, j :: 0 <= i < j < |records| ==> records[i].0 != records[j].0
      modifies this`inner, this`numbers, this`names, this`tombstones, this`nextNumber, this`model
      ensures Valid() && fresh(inner) && fresh(inner.shards) && tombstones == {}
      ensures model == Rebuilt(records, dims)
    {
      hide Valid;
      Reset();
      for i := 0 to |records|
        modifies this`numbers, this`names, this`nextNumber, this`tombstones, this`model, inner`nextId, inner.shards
        invariant Valid() && tombstones == {} && nextNumber <= i + 1
        invariant model == Rebuilt(records[..i], dims)
      {
        assert records[..i + 1][..i] == records[..i];
        if |records[i].1| == dims {
          Store(records[i].0, records[i].1, draw(i));
        }
      }
      assert records[..|records|] == records;
    }

    /** The hits are the first versions of live ids, up to the limit, in an answer of the engine to 3 * limit + 10. */
    ghost predicate Serves(query: seq<real>, limit: nat, hits: seq<Hit>)
      requires inner.ValidShards()
      reads this, inner, inner.shards
    {
      exists raw: seq<Scored> ::
        inner.Merges(query, Fetch(limit), None, raw) && hits == Filtered(raw, names, tombstones, limit)
    }

    /** `search`: overfetch, then keep first versions of live ids.  The answer reports live ids only; if the
        engine's search is exact and at most 2 * limit + 10 stored versions are wasted, it is the nearest. */
    method Search(query: seq<real>, limit: nat) returns (r: Result<seq<Hit>>)
      requires Valid()
      ensures r.DimensionMismatch? <==> |query| != dims
      ensures r.Ok? ==> Serves(query, limit, r.value)
      ensures r.Ok? ==> HitsOrdered(r.value) && IdsOf(r.value) <= model.Keys
      ensures r.Ok? ==> (|r.value| <= limit <==> limit >= 1 || r.value == [])
      ensures r.Ok? && limit == 0 && inner.AllExact(Fetch(0)) && |inner.Contents()| <= 10 ==> |r.value| == |model|
      ensures r.Ok? && inner.AllExact(Fetch(limit)) && |inner.Contents()| <= |model| + 9 ==>
                (|r.value| <= limit <==> limit >= 1 || model == map[])
      ensures r.Ok? && limit >= 1 && inner.AllExact(Fetch(limit)) && |inner.Contents()| <= |model| + 2 * limit + 10 ==>
                NearestLive(r.value, Pool(metric, inner.Contents(), query, None), names, tombstones, model.Keys, limit)
    {
      hide IsTopK, Pool, HnswIndex.ExactFor, HnswIndex.Valid, VivyIndex.ValidShards, VivyIndex.Contents, MapsInverse,
           Tracks, KeysNamed, NearestLive, Filtered, FirstLive, VivyIndex.Merges;
      var found := inner.Search(query, Fetch(limit));
      if found.DimensionMismatch? {
        return DimensionMismatch;
      }
      var raw := found.value;
      ghost var pool := Pool(metric, inner.Contents(), query, None);
      ModelIsLive(model, numbers, names, nextNumber, tombstones, inner.Contents(), metric, query);
      var hits := FilterLoop(raw, limit);
      HitsAreOrdered(raw, names, tombstones);
      HitIdsAreLive(raw, pool, names, tombstones, model.Keys);
      FilteredFacts(raw, names, tombstones, limit);
      if limit >= 1 && inner.AllExact(Fetch(limit)) && |inner.Contents()| <= |model| + 2 * limit + 10 {
        OverfetchSuffices(raw, pool, names, tombstones, model.Keys, limit);
      }
      LimitHolds(raw, names, tombstones, limit);
      if limit == 0 && inner.AllExact(Fetch(0)) {
        ZeroLimitIsNoLimit(raw, pool, names, tombstones, model.Keys);
      }
      return Ok(hits);
    }

    /** The loop over the engine's hits. */
    method FilterLoop(raw: seq<Scored>, limit: nat) returns (hits: seq<Hit>)
      ensures hits == Filtered(raw, names, tombstones, limit)
    {
      hits := [];
      for i := 0 to |raw|
        invariant hits == FirstLive(raw[..i], names, tombstones)
        invariant limit >= 1 ==> |hits| < limit
      {
        assert raw[..i + 1][..i] == raw[..i];
        var x := raw[i];
        if x.key in names && names[x.key] !in tombstones && (forall h :: h in hits ==> h.id != names[x.key]) {
          hits := hits + [Hit(names[x.key], x.dist)];
          if |hits| == limit {
            FirstLiveGrows(raw, names, tombstones, i + 1);
            return;
          }
        }
      }
      assert raw[..|raw|] == raw;
    }
  }

  lemma {:induction false} FirstLiveGrows(raw: seq<Scored>, names: map<nat, string>, dead: set<string>, i: nat)
    requires i <= |raw|
    ensures FirstLive(raw[..i], names, dead) <= FirstLive(raw, names, dead)
  {
    if i == |raw| {
      assert raw[..i] == raw;
    } else {
      assert raw[..|raw| - 1][..i] == raw[..i];
      FirstLiveGrows(raw[..|raw| - 1], names, dead, i);
    }
  }

  lemma FilteredFacts(raw: seq<Scored>, names: map<nat, string>, dead: set<string>, limit: nat)
    requires HitsOrdered(FirstLive(raw, names, dead))
    ensures var r := Filtered(raw, names, dead, limit);
            HitsOrdered(r) && IdsOf(r) <= IdsOf(FirstLive(raw, names, dead)) && (limit >= 1 ==> |r| <= limit)
  {
    var r, all := Filtered(raw, names, dead, limit), FirstLive(raw, names, dead);
    assert forall h :: h in r ==> h in all;
  }

  /** The keys of the specification index are the live ids of the pool that the engine searches. */
  lemma ModelIsLive(model: Vectors, numbers: map<string, nat>, names: map<nat, string>, next: nat, dead: set<string>,
                    contents: seq<Entry>, metric: Metric, query: seq<real>)
    requires MapsInverse(numbers, names, next) && KeysNamed(contents, names) && Tracks(model, numbers, dead, contents)
    ensures LiveIds(Pool(metric, contents, query, None), names, dead, model.Keys)
    ensures |Pool(metric, contents, query, None)| == |contents|
  {
    hide Retain;
    var s := ScoreAll(metric, contents, query);
    RetainAll(s);
    forall id | id in model ensures id !in dead && Stored(multiset(s), names, id) {
      var i :| 0 <= i < |contents| && contents[i] == Entry(numbers[id], model[id]);
      assert s[i] in multiset(s);
    }
    forall x | x in multiset(s) && Live(names, dead, x.key) ensures names[x.key] in model {
      assert names[x.key] in numbers;
    }
  }
}
