/** The priority queue of the layer search: a `BinaryHeap` of candidates, kept here as the ascending
    sequence that `into_sorted_vec` would return.  Candidates are ordered by distance and then by node
    index, and the heap hands out its GREATEST element. */
module CandidateHeap {
  import opened TopK

  predicate Before(a: Scored, b: Scored) {
    a.dist < b.dist || (a.dist == b.dist && a.key < b.key)
  }

  ghost predicate Ordered(h: seq<Scored>) {
    forall i, j :: 0 <= i < j < |h| ==> Before(h[i], h[j])
  }

  ghost function Keys(h: seq<Scored>): set<nat> {
    set c | c in h :: c.key
  }

  /** The number of elements of the heap that come before `c`. */
  function Rank(h: seq<Scored>, c: Scored): (r: nat)
    requires Ordered(h) && c !in h
    ensures r <= |h|
    ensures forall j :: 0 <= j < r ==> Before(h[j], c)
    ensures forall j :: r <= j < |h| ==> Before(c, h[j])
  {
    if h == [] then 0
    else if Before(h[|h| - 1], c) then |h|
    else Rank(h[..|h| - 1], c)
  }

  /** `BinaryHeap::push`. */
  function Push(h: seq<Scored>, c: Scored): (r: seq<Scored>)
    requires Ordered(h) && c !in h
    ensures Ordered(r) && |r| == |h| + 1
    ensures forall x :: x in r <==> x in h || x == c
  {
    var i := Rank(h, c);
    h[..i] + [c] + h[i..]
  }

  /** `BinaryHeap::peek`: the greatest element. */
  function Peek(h: seq<Scored>): (c: Scored)
    requires Ordered(h) && h != []
    ensures c in h && forall x :: x in h ==> x == c || Before(x, c)
  {
    h[|h| - 1]
  }

  /** `BinaryHeap::pop`: the heap without its greatest element. */
  function Pop(h: seq<Scored>): (r: seq<Scored>)
    requires Ordered(h) && h != []
    ensures Ordered(r) && |r| == |h| - 1
    ensures forall x :: x in r <==> x in h && x != Peek(h)
  {
    h[..|h| - 1]
  }

  ghost predicate OnePerKey(h: seq<Scored>) {
    forall x, y :: x in h && y in h && x.key == y.key ==> x == y
  }

  lemma {:induction false} KeysCount(h: seq<Scored>)
    requires Ordered(h) && OnePerKey(h)
    ensures |Keys(h)| == |h|
  {
    if h == [] {
      assert Keys(h) == {};
    } else {
      KeysCount(Pop(h));
      assert Keys(h) == Keys(Pop(h)) + {Peek(h).key};
    }
  }
}
