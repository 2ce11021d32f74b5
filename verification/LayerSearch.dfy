/** What the layer search keeps, stated over the list `ds` of distances from the query to each node. */
module LayerSearch {
  import opened TopK
  import opened CandidateHeap
  import opened HnswGraph

  /** Every candidate names a visited node and carries its distance to the query. */
  ghost predicate Genuine(ds: seq<real>, visited: set<nat>, h: seq<Scored>) {
    forall c :: c in h ==> c.key in visited && c.key < |ds| && c.dist == ds[c.key]
  }

  /** `v` is among the results, or there are already ef results none of which is farther. */
  ghost predicate Accounted(ds: seq<real>, results: seq<Scored>, ef: nat, v: nat)
    requires v < |ds|
  {
    Scored(v, ds[v]) in results || (|results| == ef && forall c :: c in results ==> c.dist <= ds[v])
  }

  /** `results` holds the ef nearest of the visited nodes. */
  ghost predicate KeepsNearest(ds: seq<real>, visited: set<nat>, results: seq<Scored>, ef: nat) {
    && results != [] && |results| <= ef && Ordered(results)
    && Genuine(ds, visited, results)
    && forall v :: v in visited ==> v < |ds| && Accounted(ds, results, ef, v)
  }

  /** While at most ef nodes can be reached at all, nothing visited is ever dropped. */
  lemma NothingDropped(ds: seq<real>, visited: set<nat>, results: seq<Scored>, ef: nat, reach: set<nat>)
    requires KeepsNearest(ds, visited, results, ef)
    requires visited <= reach && |reach| <= ef
    ensures Keys(results) == visited
  {
    KeysCount(results);
    if v :| v in visited && v !in Keys(results) {
      assert Accounted(ds, results, ef, v);
      SubsetCount(Keys(results) + {v}, reach);
      assert false;
    }
  }

  /** The results after meeting a node for the first time. */
  function Admit(results: seq<Scored>, ef: nat, c: Scored): seq<Scored>
    requires Ordered(results) && results != [] && c !in results
  {
    if c.dist < Peek(results).dist || |results| < ef then
      var grown := Push(results, c);
      if |grown| > ef then Pop(grown) else grown
    else
      results
  }

  lemma AdmitAccounts(ds: seq<real>, visited: set<nat>, results: seq<Scored>, ef: nat, n: nat, v: nat)
    requires KeepsNearest(ds, visited, results, ef) && n < |ds| && n !in visited
    requires v in visited || v == n
    ensures Scored(n, ds[n]) !in results
    ensures Accounted(ds, Admit(results, ef, Scored(n, ds[n])), ef, v)
  {
    var c := Scored(n, ds[n]);
    var top := Peek(results);
    var x := Scored(v, ds[v]);
    if c.dist < top.dist || |results| < ef {
      var grown := Push(results, c);
      if v != n { assert Accounted(ds, results, ef, v); }
      if |grown| > ef {
        assert Peek(grown) == top;
        if x !in Pop(grown) {
          assert x == top || x !in grown;
          assert top.dist <= ds[v];
        }
      }
    }
  }

  lemma AdmitKeepsNearest(ds: seq<real>, visited: set<nat>, results: seq<Scored>, ef: nat, n: nat)
    requires KeepsNearest(ds, visited, results, ef) && n < |ds| && n !in visited
    ensures Scored(n, ds[n]) !in results
    ensures KeepsNearest(ds, visited + {n}, Admit(results, ef, Scored(n, ds[n])), ef)
  {
    var kept := Admit(results, ef, Scored(n, ds[n]));
    forall v | v in visited + {n} ensures v < |ds| && Accounted(ds, kept, ef, v) {
      AdmitAccounts(ds, visited, results, ef, n, v);
    }
  }

  /** The node is not needed any more: there are ef results, none of them farther. */
  ghost predicate Dropped(ds: seq<real>, results: seq<Scored>, ef: nat, v: nat)
    requires v < |ds|
  {
    |results| == ef && forall c :: c in results ==> c.dist <= ds[v]
  }

  /** The loop state: what was seen is reachable, results are still queued or already expanded, and so is every
      other node seen, unless it was dropped. */
  ghost predicate Searching(g: Adjacency, ds: seq<real>, layer: nat, start: nat, ef: nat, seen: set<nat>,
                            candidates: seq<Scored>, results: seq<Scored>, done: set<nat>) {
    && start in seen && seen <= ReachSet(g, layer, start)
    && KeepsNearest(ds, seen, results, ef)
    && Ordered(candidates) && Genuine(ds, seen, candidates)
    && done <= seen
    && Keys(results) <= Keys(candidates) + done && Keys(candidates) !! done
    && forall v :: v in seen ==> v in done || v in Keys(candidates) || (v < |ds| && Dropped(ds, results, ef, v))
  }

  /** Expanded nodes have no unseen links. */
  ghost predicate Expanded(g: Adjacency, layer: nat, seen: set<nat>, done: set<nat>) {
    forall v, w :: v in done && v < |g| && w in Links(g, v, layer) ==> w in seen
  }

  // ---- the search as a sequence of states ----

  datatype Frontier = Frontier(seen: set<nat>, queue: seq<Scored>, kept: seq<Scored>)

  ghost predicate Sane(ds: seq<real>, s: Frontier) {
    && Ordered(s.queue) && Genuine(ds, s.seen, s.queue)
    && Ordered(s.kept) && s.kept != [] && Genuine(ds, s.seen, s.kept)
  }

  /** A neighbour that is met. */
  ghost function Offered(ds: seq<real>, ef: nat, s: Frontier, n: nat): (t: Frontier)
    requires Sane(ds, s) && n < |ds| && 1 <= ef
    ensures Sane(ds, t)
  {
    if n in s.seen then s
    else
      var c := Scored(n, ds[n]);
      Frontier(s.seen + {n}, Enqueue(s.queue, s.kept, ef, c), Admit(s.kept, ef, c))
  }

  /** The neighbours that are met one after the other. */
  ghost function OfferedAll(ds: seq<real>, ef: nat, s: Frontier, links: seq<nat>): (t: Frontier)
    requires Sane(ds, s) && 1 <= ef && forall i :: 0 <= i < |links| ==> links[i] < |ds|
    ensures Sane(ds, t)
    decreases |links|
  {
    if links == [] then s else OfferedAll(ds, ef, Offered(ds, ef, s, links[0]), links[1..])
  }

  lemma OfferOne(ds: seq<real>, ef: nat, s: Frontier, links: seq<nat>)
    requires Sane(ds, s) && 1 <= ef && links != [] && forall i :: 0 <= i < |links| ==> links[i] < |ds|
    ensures OfferedAll(ds, ef, s, links) == OfferedAll(ds, ef, Offered(ds, ef, s, links[0]), links[1..])
  {
  }

  lemma OfferNone(ds: seq<real>, ef: nat, s: Frontier, links: seq<nat>)
    requires Sane(ds, s) && 1 <= ef && links == []
    ensures OfferedAll(ds, ef, s, links) == s
  {
  }

  /** The farthest candidate, no farther than the farthest result, is taken and all its links are offered. */
  ghost predicate Expands(g: Adjacency, ds: seq<real>, layer: nat, ef: nat, s: Frontier, t: Frontier) {
    && Sane(ds, s) && s.queue != [] && 1 <= ef
    && var c := Peek(s.queue);
       && c.dist <= Peek(s.kept).dist && c.key < |g|
       && var links := Links(g, c.key, layer);
       && (forall i :: 0 <= i < |links| ==> links[i] < |ds|)
       && t == OfferedAll(ds, ef, s.(queue := Pop(s.queue)), links)
  }

  /** No candidate is left, or the farthest is farther than every result. */
  ghost predicate Stops(ds: seq<real>, s: Frontier) {
    Sane(ds, s) && (s.queue == [] || Peek(s.kept).dist < Peek(s.queue).dist)
  }

  ghost predicate Run(g: Adjacency, ds: seq<real>, layer: nat, start: nat, ef: nat, states: seq<Frontier>) {
    && states != [] && start < |ds|
    && states[0] == Frontier({start}, [Scored(start, ds[start])], [Scored(start, ds[start])])
    && forall i :: 0 < i < |states| ==> Expands(g, ds, layer, ef, states[i - 1], states[i])
  }

  lemma RunBegins(g: Adjacency, ds: seq<real>, layer: nat, start: nat, ef: nat)
    requires start < |ds|
    ensures Run(g, ds, layer, start, ef, [Frontier({start}, [Scored(start, ds[start])], [Scored(start, ds[start])])])
  {
  }

  lemma RunGoesOn(g: Adjacency, ds: seq<real>, layer: nat, start: nat, ef: nat, states: seq<Frontier>, t: Frontier)
    requires Run(g, ds, layer, start, ef, states) && Expands(g, ds, layer, ef, states[|states| - 1], t)
    ensures Run(g, ds, layer, start, ef, states + [t])
  {
    hide Expands;
  }

  lemma RunExpands(g: Adjacency, ds: seq<real>, layer: nat, start: nat, ef: nat, states: seq<Frontier>, s: Frontier,
                   t: Frontier)
    requires Run(g, ds, layer, start, ef, states) && states[|states| - 1] == s && Sane(ds, s) && 1 <= ef
    requires s.queue != [] && Peek(s.queue).dist <= Peek(s.kept).dist && Peek(s.queue).key < |g|
    requires var links, taken := Links(g, Peek(s.queue).key, layer), s.(queue := Pop(s.queue));
             && (forall i :: 0 <= i < |links| ==> links[i] < |ds|)
             && Sane(ds, taken) && t == OfferedAll(ds, ef, taken, links)
    ensures Run(g, ds, layer, start, ef, states + [t])
  {
    hide OfferedAll, Run;
    RunGoesOn(g, ds, layer, start, ef, states, t);
  }

  /** A run that stops has visited and kept exactly these. */
  ghost predicate Explored(g: Adjacency, ds: seq<real>, layer: nat, start: nat, ef: nat, visited: set<nat>,
                           hits: seq<Scored>) {
    exists states: seq<Frontier> :: Run(g, ds, layer, start, ef, states) && EndsWith(ds, states, visited, hits)
  }

  ghost predicate EndsWith(ds: seq<real>, states: seq<Frontier>, visited: set<nat>, hits: seq<Scored>) {
    states != [] && var last := states[|states| - 1]; Stops(ds, last) && last.seen == visited && last.kept == hits
  }

  /** The search is determined: it visits and keeps the same, whatever computes it. */
  lemma ExplorationIsDetermined(g: Adjacency, ds: seq<real>, layer: nat, start: nat, ef: nat,
                                v: set<nat>, hits: seq<Scored>, v': set<nat>, hits': seq<Scored>)
    requires Explored(g, ds, layer, start, ef, v, hits) && Explored(g, ds, layer, start, ef, v', hits')
    ensures v == v' && hits == hits'
  {
    hide Run, Stops;
    var a: seq<Frontier> :| Run(g, ds, layer, start, ef, a) && EndsWith(ds, a, v, hits);
    var b: seq<Frontier> :| Run(g, ds, layer, start, ef, b) && EndsWith(ds, b, v', hits');
    if |a| <= |b| {
      RunsAgree(g, ds, layer, start, ef, a, b, |a| - 1);
      StopsThere(g, ds, layer, start, ef, a, b);
    } else {
      RunsAgree(g, ds, layer, start, ef, b, a, |b| - 1);
      StopsThere(g, ds, layer, start, ef, b, a);
    }
  }

  lemma StopsThere(g: Adjacency, ds: seq<real>, layer: nat, start: nat, ef: nat, a: seq<Frontier>, b: seq<Frontier>)
    requires Run(g, ds, layer, start, ef, a) && Run(g, ds, layer, start, ef, b) && |a| <= |b|
    requires a[|a| - 1] == b[|a| - 1] && Stops(ds, a[|a| - 1])
    ensures |a| == |b|
  {
    if |a| < |b| {
      hide Stops, Expands;
      StopsForGood(g, ds, layer, ef, b[|a| - 1], b[|a|]);
      assert false;
    }
  }

  lemma StopsForGood(g: Adjacency, ds: seq<real>, layer: nat, ef: nat, s: Frontier, t: Frontier)
    requires Stops(ds, s)
    ensures !Expands(g, ds, layer, ef, s, t)
  {
  }

  lemma {:induction false} RunsAgree(g: Adjacency, ds: seq<real>, layer: nat, start: nat, ef: nat,
                                     a: seq<Frontier>, b: seq<Frontier>, i: nat)
    requires Run(g, ds, layer, start, ef, a) && Run(g, ds, layer, start, ef, b) && i < |a| && i < |b|
    ensures a[i] == b[i]
  {
    if i == 0 {
    } else {
      RunsAgree(g, ds, layer, start, ef, a, b, i - 1);
      assert Expands(g, ds, layer, ef, a[i - 1], a[i]) && Expands(g, ds, layer, ef, b[i - 1], b[i]);
    }
  }

  /** Only the searched layer matters. */
  lemma ExploredReadsLayer(g: Adjacency, h: Adjacency, ds: seq<real>, layer: nat, start: nat, ef: nat,
                           visited: set<nat>, hits: seq<Scored>)
    requires |g| == |h| && forall u :: 0 <= u < |g| ==> Links(g, u, layer) == Links(h, u, layer)
    requires Explored(g, ds, layer, start, ef, visited, hits)
    ensures Explored(h, ds, layer, start, ef, visited, hits)
  {
    var a: seq<Frontier> :| Run(g, ds, layer, start, ef, a) && EndsWith(ds, a, visited, hits);
    hide EndsWith, Sane;
    forall i | 0 < i < |a| ensures Expands(h, ds, layer, ef, a[i - 1], a[i]) {
      assert Expands(g, ds, layer, ef, a[i - 1], a[i]);
    }
    assert Run(h, ds, layer, start, ef, a);
  }

  /** The state before the loop: only the start node is seen, queued and kept. */
  lemma Begin(g: Adjacency, ds: seq<real>, layer: nat, start: nat, ef: nat)
    requires start < |g| == |ds| && 1 <= ef
    ensures var first := [Scored(start, ds[start])];
            Searching(g, ds, layer, start, ef, {start}, first, first, {})
    ensures Expanded(g, layer, {start}, {})
  {
    ReachesItself(g, layer, start);
  }

  /** The facts about the two heaps that the loop itself needs. */
  lemma HeapFacts(g: Adjacency, ds: seq<real>, layer: nat, start: nat, ef: nat, seen: set<nat>,
                  candidates: seq<Scored>, results: seq<Scored>, done: set<nat>)
    requires Searching(g, ds, layer, start, ef, seen, candidates, results, done)
    ensures Ordered(candidates) && Ordered(results) && results != [] && 1 <= ef
    ensures Sane(ds, Frontier(seen, candidates, results))
    ensures seen <= Below(|g|)
    ensures forall c :: c in candidates ==> c.key in seen && c.key < |ds|
  {
  }

  lemma GrowExpanded(g: Adjacency, layer: nat, seen: set<nat>, grown: set<nat>, done: set<nat>, v: nat)
    requires Expanded(g, layer, seen, done) && seen <= grown && v < |g|
    requires forall w :: w in Links(g, v, layer) ==> w in grown
    ensures Expanded(g, layer, grown, done + {v})
  {
  }

  function Enqueue(candidates: seq<Scored>, results: seq<Scored>, ef: nat, c: Scored): seq<Scored>
    requires Ordered(candidates) && c !in candidates
    requires Ordered(results) && results != []
  {
    if c.dist < Peek(results).dist || |results| < ef then Push(candidates, c) else candidates
  }

  /** Meeting an unseen neighbour `n` of the node `v` being expanded. */
  lemma Meet(g: Adjacency, ds: seq<real>, layer: nat, start: nat, ef: nat, seen: set<nat>,
             candidates: seq<Scored>, results: seq<Scored>, done: set<nat>, v: nat, n: nat)
    requires Searching(g, ds, layer, start, ef, seen, candidates, results, done)
    requires v in seen && v < |g| == |ds| && n < |g| && n in Links(g, v, layer) && n !in seen
    ensures Scored(n, ds[n]) !in candidates && Scored(n, ds[n]) !in results
    ensures var c := Scored(n, ds[n]);
            Searching(g, ds, layer, start, ef, seen + {n},
                      Enqueue(candidates, results, ef, c), Admit(results, ef, c), done)
  {
    var c := Scored(n, ds[n]);
    ReachesStep(g, layer, start, v, n);
    AdmitKeepsNearest(ds, seen, results, ef, n);
    var queue, kept := Enqueue(candidates, results, ef, c), Admit(results, ef, c);
    forall k | k in Keys(kept) ensures k in Keys(queue) + done {
      var x :| x in kept && x.key == k;
      if x != c {
        assert x in results;
        assert k in Keys(candidates) + done;
        if k in Keys(candidates) {
          var y :| y in candidates && y.key == k;
          assert y in queue;
        }
      } else {
        assert c in queue;
      }
    }
  }

  /** Taking the greatest candidate off the queue in order to expand it. */
  lemma Take(g: Adjacency, ds: seq<real>, layer: nat, start: nat, ef: nat, seen: set<nat>,
             candidates: seq<Scored>, results: seq<Scored>, done: set<nat>)
    requires Searching(g, ds, layer, start, ef, seen, candidates, results, done) && candidates != []
    ensures Searching(g, ds, layer, start, ef, seen, Pop(candidates), results, done + {Peek(candidates).key})
  {
    var c := Peek(candidates);
    forall k | k in Keys(candidates) && k != c.key ensures k in Keys(Pop(candidates)) {
      var x :| x in candidates && x.key == k;
      assert x in Pop(candidates);
    }
  }

  /** What a finished layer search has found, given the nodes it visited. */
  ghost predicate Found(g: Adjacency, ds: seq<real>, layer: nat, start: nat, ef: nat,
                        visited: set<nat>, hits: seq<Scored>) {
    && start in visited && visited <= ReachSet(g, layer, start)
    && KeepsNearest(ds, visited, hits, ef)
    && (|ReachSet(g, layer, start)| <= ef ==> Keys(hits) == visited == ReachSet(g, layer, start))
    && Finished(g, ds, layer, ef, visited, hits)
    && Explored(g, ds, layer, start, ef, visited, hits)
  }

  /** When the search may stop: every hit was expanded, its links visited, and every other node visited was either
      expanded too or dropped; or some node still queued is farther than every hit. */
  ghost predicate Finished(g: Adjacency, ds: seq<real>, layer: nat, ef: nat, visited: set<nat>, hits: seq<Scored>) {
    exists done: set<nat> ::
      && done <= visited && Expanded(g, layer, visited, done)
      && ((Keys(hits) <= done && forall v :: v in visited - done ==> v < |ds| && Dropped(ds, hits, ef, v))
          || exists v :: v in visited - done && v < |ds| && forall c :: c in hits ==> c.dist < ds[v])
  }

  /** What the hits say by themselves. */
  lemma FoundHits(g: Adjacency, ds: seq<real>, layer: nat, start: nat, ef: nat, visited: set<nat>, hits: seq<Scored>)
    requires Found(g, ds, layer, start, ef, visited, hits)
    ensures 1 <= |hits| <= ef && Ordered(hits) && Keys(hits) <= ReachSet(g, layer, start)
    ensures |ReachSet(g, layer, start)| <= ef ==> Keys(hits) == ReachSet(g, layer, start)
  {
    hide ReachSet;
  }

  lemma ExhaustedIsFinished(g: Adjacency, ds: seq<real>, layer: nat, start: nat, ef: nat, seen: set<nat>,
                            hits: seq<Scored>, done: set<nat>)
    requires Searching(g, ds, layer, start, ef, seen, [], hits, done) && Expanded(g, layer, seen, done)
    ensures Finished(g, ds, layer, ef, seen, hits) && Keys(hits) <= done <= seen
  {
    assert Keys([]) == {};
  }

  lemma StoppedIsFinished(g: Adjacency, ds: seq<real>, layer: nat, start: nat, ef: nat, seen: set<nat>,
                          candidates: seq<Scored>, hits: seq<Scored>, done: set<nat>)
    requires Searching(g, ds, layer, start, ef, seen, candidates, hits, done) && Expanded(g, layer, seen, done)
    requires candidates != [] && Peek(hits).dist < Peek(candidates).dist
    ensures Finished(g, ds, layer, ef, seen, hits)
    ensures Peek(candidates).key in seen && Peek(candidates).key !in Keys(hits)
  {
    var c := Peek(candidates);
    assert forall x :: x in hits ==> x.dist <= Peek(hits).dist;
    assert c.key in Keys(candidates) && c.key in seen - done;
    assert c.key !in Keys(hits);
  }

  /** An empty worklist means that everything reachable was seen, if at most ef nodes are reachable. */
  lemma Exhausted(g: Adjacency, ds: seq<real>, layer: nat, start: nat, ef: nat,
                  seen: set<nat>, hits: seq<Scored>, done: set<nat>, states: seq<Frontier>)
    requires Searching(g, ds, layer, start, ef, seen, [], hits, done) && Expanded(g, layer, seen, done)
    requires Run(g, ds, layer, start, ef, states) && states[|states| - 1] == Frontier(seen, [], hits)
    ensures Found(g, ds, layer, start, ef, seen, hits)
  {
    assert EndsWith(ds, states, seen, hits);
    hide Run, EndsWith;
    ExhaustedIsFinished(g, ds, layer, start, ef, seen, hits, done);
    hide Finished, Expanded;
    if |ReachSet(g, layer, start)| <= ef {
      NothingDropped(ds, seen, hits, ef, ReachSet(g, layer, start));
      assert done == seen;
      ClosedHoldsReach(g, layer, seen, start);
    }
  }

  /** Stopping early, on a candidate farther than every result, cannot happen in that case. */
  lemma StoppedEarly(g: Adjacency, ds: seq<real>, layer: nat, start: nat, ef: nat, seen: set<nat>,
                     candidates: seq<Scored>, hits: seq<Scored>, done: set<nat>, states: seq<Frontier>)
    requires Searching(g, ds, layer, start, ef, seen, candidates, hits, done) && Expanded(g, layer, seen, done)
    requires Run(g, ds, layer, start, ef, states) && states[|states| - 1] == Frontier(seen, candidates, hits)
    requires candidates != [] && Peek(hits).dist < Peek(candidates).dist
    ensures Found(g, ds, layer, start, ef, seen, hits)
  {
    assert EndsWith(ds, states, seen, hits);
    hide Run, EndsWith;
    StoppedIsFinished(g, ds, layer, start, ef, seen, candidates, hits, done);
    hide Finished, Expanded;
    if |ReachSet(g, layer, start)| <= ef {
      NothingDropped(ds, seen, hits, ef, ReachSet(g, layer, start));
      assert false;
    }
  }
}
