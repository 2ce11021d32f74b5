/** Stored entries, and the pool of scored items that a query draws its answer from. */
module Pools {
  import opened Options
  import opened TopK

  datatype Entry = Entry(id: nat, vector: seq<real>)

  type Metric = (seq<real>, seq<real>) -> real

  function ScoreAll(metric: Metric, entries: seq<Entry>, query: seq<real>): (s: seq<Scored>)
    ensures |s| == |entries|
    ensures forall i :: 0 <= i < |s| ==> s[i] == Scored(entries[i].id, metric(query, entries[i].vector))
  {
    seq(|entries|, i requires 0 <= i < |entries| => Scored(entries[i].id, metric(query, entries[i].vector)))
  }

  /** An absent filter lets everything pass. */
  predicate Passes(filter: Option<set<nat>>, id: nat) {
    match filter
    case None => true
    case Some(ids) => id in ids
  }

  /** `Vec::retain` by identifier. */
  function Retain(s: seq<Scored>, filter: Option<set<nat>>): seq<Scored> {
    if s == [] then []
    else (if Passes(filter, s[0].key) then [s[0]] else []) + Retain(s[1..], filter)
  }

  /** Everything stored that passes the filter, scored against the query. */
  function Pool(metric: Metric, entries: seq<Entry>, query: seq<real>, filter: Option<set<nat>>): multiset<Scored> {
    multiset(Retain(ScoreAll(metric, entries, query), filter))
  }

  lemma {:induction false} RetainCounts(s: seq<Scored>, filter: Option<set<nat>>, x: Scored)
    ensures multiset(Retain(s, filter))[x] == if Passes(filter, x.key) then multiset(s)[x] else 0
  {
    if s == [] {
    } else {
      assert s == [s[0]] + s[1..];
      RetainCounts(s[1..], filter, x);
    }
  }

  /** Retaining respects permutation. */
  lemma RetainPermutes(s: seq<Scored>, t: seq<Scored>, filter: Option<set<nat>>)
    requires multiset(s) <= multiset(t)
    ensures multiset(Retain(s, filter)) <= multiset(Retain(t, filter))
    ensures multiset(s) == multiset(t) ==> multiset(Retain(s, filter)) == multiset(Retain(t, filter))
  {
    forall x: Scored ensures multiset(Retain(s, filter))[x] <= multiset(Retain(t, filter))[x] {
      RetainCounts(s, filter, x);
      RetainCounts(t, filter, x);
    }
    if multiset(s) == multiset(t) {
      forall x: Scored ensures multiset(Retain(s, filter))[x] == multiset(Retain(t, filter))[x] {
        RetainCounts(s, filter, x);
        RetainCounts(t, filter, x);
      }
    }
  }

  lemma {:induction false} RetainMembers(s: seq<Scored>, filter: Option<set<nat>>, x: Scored)
    requires x in Retain(s, filter)
    ensures x in s
  {
    if s != [] && x in Retain(s[1..], filter) {
      RetainMembers(s[1..], filter, x);
    }
  }

  lemma {:induction false} RetainSorted(s: seq<Scored>, filter: Option<set<nat>>)
    requires SortedByDist(s)
    ensures SortedByDist(Retain(s, filter))
  {
    if s == [] {
    } else {
      var rest := Retain(s[1..], filter);
      RetainSorted(s[1..], filter);
      forall i | 0 <= i < |rest| ensures s[0].dist <= rest[i].dist {
        RetainMembers(s[1..], filter, rest[i]);
        var j :| 0 <= j < |s[1..]| && s[1..][j] == rest[i];
        assert s[j + 1] == rest[i];
      }
    }
  }

  lemma {:induction false} RetainAppend(s: seq<Scored>, t: seq<Scored>, filter: Option<set<nat>>)
    ensures Retain(s + t, filter) == Retain(s, filter) + Retain(t, filter)
  {
    if s == [] {
      assert s + t == t;
    } else {
      assert (s + t)[1..] == s[1..] + t;
      RetainAppend(s[1..], t, filter);
      var head := if Passes(filter, s[0].key) then [s[0]] else [];
      assert Retain(s, filter) == head + Retain(s[1..], filter);
      assert Retain(s + t, filter) == head + Retain(s[1..] + t, filter);
      hide Retain;
      assert head + (Retain(s[1..], filter) + Retain(t, filter)) == (head + Retain(s[1..], filter)) + Retain(t, filter);
    }
  }

  /** The pool of a union of stores is the union of their pools. */
  lemma PoolAppend(metric: Metric, a: seq<Entry>, b: seq<Entry>, query: seq<real>, filter: Option<set<nat>>)
    ensures Pool(metric, a + b, query, filter) == Pool(metric, a, query, filter) + Pool(metric, b, query, filter)
  {
    assert ScoreAll(metric, a + b, query) == ScoreAll(metric, a, query) + ScoreAll(metric, b, query);
    RetainAppend(ScoreAll(metric, a, query), ScoreAll(metric, b, query), filter);
  }

  lemma {:induction false} RetainAll(s: seq<Scored>)
    ensures Retain(s, None) == s
  {
    if s == [] {
    } else {
      RetainAll(s[1..]);
    }
  }

  // ---- picking stored items by position ----

  /** The items of `all` at the positions below n that are in `keys`. */
  ghost function Chosen(all: seq<Scored>, keys: set<nat>, n: nat): multiset<Scored>
    requires n <= |all|
  {
    if n == 0 then multiset{}
    else Chosen(all, keys, n - 1) + if n - 1 in keys then multiset{all[n - 1]} else multiset{}
  }

  lemma ChosenZero(all: seq<Scored>, keys: set<nat>)
    ensures Chosen(all, keys, 0) == multiset{}
  {
  }

  lemma ChosenNext(all: seq<Scored>, keys: set<nat>, n: nat)
    requires 0 < n <= |all|
    ensures Chosen(all, keys, n) ==
            Chosen(all, keys, n - 1) + if n - 1 in keys then multiset{all[n - 1]} else multiset{}
  {
  }

  lemma ChosenStep(all: seq<Scored>, keys: set<nat>, n: nat, x: Scored)
    requires 0 < n <= |all|
    ensures Chosen(all, keys, n)[x] == Chosen(all, keys, n - 1)[x] + if n - 1 in keys && all[n - 1] == x then 1 else 0
  {
  }

  lemma {:induction false} ChosenSplit(all: seq<Scored>, keys: set<nat>, n: nat, k: nat, x: Scored)
    requires n <= |all| && k in keys && k < |all|
    ensures Chosen(all, keys, n)[x] == Chosen(all, keys - {k}, n)[x] + if k < n && all[k] == x then 1 else 0
  {
    hide Chosen;
    if n > 0 {
      ChosenSplit(all, keys, n - 1, k, x);
      ChosenStep(all, keys, n, x);
      ChosenStep(all, keys - {k}, n, x);
    } else {
      ChosenZero(all, keys);
      ChosenZero(all, keys - {k});
    }
  }

  lemma {:induction false} ChosenWithin(all: seq<Scored>, keys: set<nat>, n: nat)
    requires n <= |all|
    ensures Chosen(all, keys, n) <= multiset(all[..n])
    ensures (forall i :: 0 <= i < n ==> i in keys) ==> Chosen(all, keys, n) == multiset(all[..n])
  {
    hide Chosen;
    if n == 0 {
      ChosenZero(all, keys);
    } else {
      ChosenWithin(all, keys, n - 1);
      ChosenNext(all, keys, n);
      assert all[..n] == all[..n - 1] + [all[n - 1]];
    }
  }

  /** The entries at the positions in `keys`, in their order. */
  ghost function Among(entries: seq<Entry>, keys: set<nat>): seq<Entry>
    decreases |entries|
  {
    if entries == [] then []
    else
      var n := |entries| - 1;
      Among(entries[..n], keys) + if n in keys then [entries[n]] else []
  }

  lemma {:induction false} AllAmong(entries: seq<Entry>, keys: set<nat>)
    requires forall i :: 0 <= i < |entries| ==> i in keys
    ensures Among(entries, keys) == entries
    decreases |entries|
  {
    if entries == [] {
    } else {
      AllAmong(entries[..|entries| - 1], keys);
    }
  }

  lemma {:induction false} ChosenOfPrefix(all: seq<Scored>, keys: set<nat>, m: nat, n: nat)
    requires n <= m <= |all|
    ensures Chosen(all[..m], keys, n) == Chosen(all, keys, n)
    decreases n
  {
    hide Chosen;
    if n == 0 {
      ChosenZero(all, keys);
      ChosenZero(all[..m], keys);
    } else {
      ChosenOfPrefix(all, keys, m, n - 1);
      ChosenNext(all, keys, n);
      ChosenNext(all[..m], keys, n);
    }
  }

  /** Scoring the entries at some positions chooses the scores at these positions. */
  lemma {:induction false} ScoresAmong(metric: Metric, entries: seq<Entry>, query: seq<real>, keys: set<nat>)
    ensures multiset(ScoreAll(metric, Among(entries, keys), query)) ==
            Chosen(ScoreAll(metric, entries, query), keys, |entries|)
    decreases |entries|
  {
    hide Chosen;
    var all := ScoreAll(metric, entries, query);
    if entries == [] {
      ChosenZero(all, keys);
    } else {
      var n := |entries| - 1;
      var init := entries[..n];
      ScoresAmong(metric, init, query, keys);
      assert ScoreAll(metric, init, query) == all[..n];
      ChosenOfPrefix(all, keys, n, n);
      ChosenNext(all, keys, n + 1);
      var last := if n in keys then [entries[n]] else [];
      assert ScoreAll(metric, Among(init, keys) + last, query)
          == ScoreAll(metric, Among(init, keys), query) + ScoreAll(metric, last, query);
    }
  }

  lemma {:induction false} ChosenNone(all: seq<Scored>, n: nat)
    requires n <= |all|
    ensures Chosen(all, {}, n) == multiset{}
  {
    if n == 0 {
    } else {
      ChosenNone(all, n - 1);
    }
  }

  /** A list drawn from `all` at distinct positions is a part of it, and all of it if every position occurs. */
  lemma {:induction false} PickedByPosition(all: seq<Scored>, s: seq<Scored>, at: seq<nat>, keys: set<nat>)
    requires |s| == |at| && forall j :: 0 <= j < |s| ==> at[j] < |all| && s[j] == all[at[j]]
    requires forall i, j :: 0 <= i < j < |at| ==> at[i] != at[j]
    requires forall v :: v in keys <==> v in at
    ensures multiset(s) == Chosen(all, keys, |all|)
  {
    if s == [] {
      assert keys == {};
      ChosenNone(all, |all|);
    } else {
      var n := |s| - 1;
      assert s == s[..n] + [s[n]];
      forall v ensures v in keys - {at[n]} <==> v in at[..n] {
      }
      PickedByPosition(all, s[..n], at[..n], keys - {at[n]});
      forall x: Scored ensures multiset(s)[x] == Chosen(all, keys, |all|)[x] {
        ChosenSplit(all, keys, |all|, at[n], x);
      }
    }
  }
}
