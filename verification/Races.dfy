/** Insertions and the compactor at once, over sets of pairs: what a log reset takes away from insertions that
    overlap with it.  What a step does to the bytes on disk is the subject of `Crash`. */
module Races {
  type Pair = (nat, seq<real>)

  datatype Compactor =
    | Resting
    | Draining(drained: nat, entries: set<Pair>)
    | Recorded(entries: set<Pair>)
    | LogReset(entries: set<Pair>)

  /** The flushed log, the pairs of the listed segment files, the shards, the opened segments, what is committed
      but not yet in its shard, and the pairs ever committed. */
  datatype State = State(log: set<Pair>, listed: set<Pair>, shards: seq<set<Pair>>, sealed: set<Pair>,
                         pending: multiset<Pair>, compactor: Compactor, committed: set<Pair>)

  /** A commit is atomic, as the log's lock makes it; publication follows later, pair by pair. */
  datatype Step =
    | Commit(batch: multiset<Pair>)
    | Publish(pair: Pair, shard: nat)
    | BeginCompaction
    | DrainOne
    | EndEmpty
    | Seal
    | ResetLog
    | OpenSealed
    | Restart(layout: seq<set<Pair>>)

  const NUM_SHARDS: nat := 8

  ghost function AllIn(shards: seq<set<Pair>>): set<Pair> {
    set i, e | 0 <= i < |shards| && e in shards[i] :: e
  }

  ghost function Elems(m: multiset<Pair>): set<Pair> {
    set e | e in m
  }

  function Entries(c: Compactor): set<Pair> {
    match c
    case Resting => {}
    case Draining(_, entries) => entries
    case Recorded(entries) => entries
    case LogReset(entries) => entries
  }

  /** What an open would show after a crash now. */
  function Stored(s: State): set<Pair> {
    s.log + s.listed
  }

  /** What a search can show. */
  ghost function Visible(s: State): set<Pair> {
    AllIn(s.shards) + s.sealed
  }

  ghost predicate Next(s: State, step: Step, t: State) {
    match step
    case Commit(batch) =>
      t == s.(log := s.log + Elems(batch), pending := s.pending + batch, committed := s.committed + Elems(batch))
    case Publish(e, k) =>
      e in s.pending && k < |s.shards| &&
      t == s.(pending := s.pending - multiset{e}, shards := s.shards[k := s.shards[k] + {e}])
    case BeginCompaction =>
      s.compactor == Resting && t == s.(compactor := Draining(0, {}))
    case DrainOne =>
      s.compactor.Draining? && s.compactor.drained < |s.shards| &&
      var k := s.compactor.drained;
      t == s.(shards := s.shards[k := {}], compactor := Draining(k + 1, s.compactor.entries + s.shards[k]))
    case EndEmpty =>
      s.compactor == Draining(|s.shards|, {}) && t == s.(compactor := Resting)
    case Seal =>
      s.compactor.Draining? && s.compactor.drained == |s.shards| && s.compactor.entries != {} &&
      t == s.(listed := s.listed + s.compactor.entries, compactor := Recorded(s.compactor.entries))
    case ResetLog =>
      s.compactor.Recorded? && t == s.(log := {}, compactor := LogReset(s.compactor.entries))
    case OpenSealed =>
      s.compactor.LogReset? && t == s.(sealed := s.sealed + s.compactor.entries, compactor := Resting)
    case Restart(layout) =>
      |layout| == NUM_SHARDS && AllIn(layout) == s.log &&
      t == s.(shards := layout, sealed := s.listed, pending := multiset{}, compactor := Resting)
  }

  ghost predicate Initial(s: State) {
    s == State({}, {}, NoShards(), {}, multiset{}, Resting, {})
  }

  function NoShards(): seq<set<Pair>> {
    seq(NUM_SHARDS, _ => {})
  }

  // ---- the invariant ----

  /** Everything on disk is in memory, or on its way; what the compactor sealed is in a listed file. */
  ghost predicate Inv(s: State) {
    && Stored(s) <= Visible(s) + Entries(s.compactor) + Elems(s.pending)
    && s.sealed <= s.listed
    && (s.compactor.Recorded? || s.compactor.LogReset? ==> s.compactor.entries <= s.listed)
  }

  lemma AllInGrows(shards: seq<set<Pair>>, k: nat, e: Pair)
    requires k < |shards|
    ensures AllIn(shards[k := shards[k] + {e}]) == AllIn(shards) + {e}
  {
    var grown := shards[k := shards[k] + {e}];
    forall x | x in AllIn(shards) + {e} ensures x in AllIn(grown) {
      if x == e {
        assert e in grown[k];
      } else {
        var i :| 0 <= i < |shards| && x in shards[i];
        assert x in grown[i];
      }
    }
  }

  lemma AllInDrains(shards: seq<set<Pair>>, k: nat)
    requires k < |shards|
    ensures AllIn(shards) == AllIn(shards[k := {}]) + shards[k]
  {
    var left := shards[k := {}];
    forall x | x in AllIn(shards) ensures x in AllIn(left) + shards[k] {
      var i :| 0 <= i < |shards| && x in shards[i];
      if i != k { assert x in left[i]; }
    }
  }

  lemma AllInNothing()
    ensures AllIn(NoShards()) == {}
  {
  }

  lemma InvKept(s: State, step: Step, t: State)
    requires Inv(s) && Next(s, step, t)
    ensures Inv(t)
  {
    hide AllIn, Elems;
    match step {
      case Publish(e, k) => PublishKeeps(s, e, k, t);
      case DrainOne => AllInDrains(s.shards, s.compactor.drained);
      case Commit(batch) => PendingGrows(s.pending, batch);
      case _ =>
    }
  }

  lemma PublishKeeps(s: State, e: Pair, k: nat, t: State)
    requires Inv(s) && Next(s, Publish(e, k), t)
    ensures Inv(t)
  {
    hide AllIn, Elems;
    AllInGrows(s.shards, k, e);
    PendingShrinks(s.pending, e);
  }

  lemma PendingShrinks(m: multiset<Pair>, e: Pair)
    ensures Elems(m) <= Elems(m - multiset{e}) + {e}
  {
  }

  lemma PendingGrows(m: multiset<Pair>, batch: multiset<Pair>)
    ensures Elems(m + batch) == Elems(m) + Elems(batch)
  {
  }

  ghost predicate IsRun(states: seq<State>, steps: seq<Step>) {
    && |states| == |steps| + 1 && Initial(states[0])
    && forall i :: 0 <= i < |steps| ==> Next(states[i], steps[i], states[i + 1])
  }

  lemma {:induction false} InvAt(states: seq<State>, steps: seq<Step>, n: nat)
    requires IsRun(states, steps) && n <= |steps|
    ensures Inv(states[n])
  {
    if n == 0 {
      AllInNothing();
    } else {
      hide Next, Inv;
      InvAt(states, steps, n - 1);
      InvKept(states[n - 1], steps[n - 1], states[n]);
    }
  }

  // ---- what a log reset exposes ----

  /** The pair is in a shard, or on its way into one, and in no listed file. */
  ghost predicate Unsealed(s: State, e: Pair) {
    (e in AllIn(s.shards) || e in s.pending) && e !in s.listed
  }

  /** A step takes a stored pair off the disk exactly if it is a log reset, and the pair an unsealed one: it was
      published after its shard was drained, or is not published yet. */
  lemma ResetExposes(s: State, step: Step, t: State, e: Pair)
    requires Inv(s) && Next(s, step, t) && e in Stored(s)
    ensures e !in Stored(t) <==> step.ResetLog? && Unsealed(s, e)
  {
    hide AllIn;
  }

  /** Every commit is stored at first. */
  lemma CommitStores(s: State, step: Step, t: State, e: Pair)
    requires Next(s, step, t) && e in t.committed && e !in s.committed
    ensures e in Stored(t)
  {
    hide AllIn;
  }

  ghost predicate NotStored(states: seq<State>, k: nat, n: nat, e: Pair)
    requires n < |states|
  {
    forall j :: k <= j <= n ==> e !in Stored(states[j])
  }

  /** Some log reset exposed the pair, and nothing has stored it since. */
  ghost predicate Exposed(states: seq<State>, steps: seq<Step>, n: nat, e: Pair)
    requires n <= |steps| < |states|
  {
    exists k :: 0 <= k < n && steps[k].ResetLog? && e in states[k].committed && Unsealed(states[k], e) &&
                NotStored(states, k + 1, n, e)
  }

  /** In every run of insertions, compactions and restarts that interleave in any way, a committed pair is off the
      disk exactly if a log reset exposed it and no later compaction, or commit, has stored it since. */
  lemma {:induction false} CommittedUnlessExposed(states: seq<State>, steps: seq<Step>, n: nat, e: Pair)
    requires IsRun(states, steps) && n <= |steps| && e in states[n].committed
    ensures e !in Stored(states[n]) <==> Exposed(states, steps, n, e)
    decreases n
  {
    if n > 0 && e !in Stored(states[n]) {
      var s, step, t := states[n - 1], steps[n - 1], states[n];
      hide Unsealed, Stored, Inv;
      InvAt(states, steps, n - 1);
      if e !in s.committed {
        CommitStores(s, step, t, e);
      } else {
        hide Next;
        CommittedUnlessExposed(states, steps, n - 1, e);
        if e in Stored(s) {
          ResetExposes(s, step, t, e);
          assert NotStored(states, n, n, e);
        } else {
          var k :| 0 <= k < n - 1 && steps[k].ResetLog? && e in states[k].committed && Unsealed(states[k], e) &&
                   NotStored(states, k + 1, n - 1, e);
          assert NotStored(states, k + 1, n, e);
        }
      }
    }
  }

  /** A restart shows what is stored, and that alone. */
  lemma RestartShowsStored(s: State, layout: seq<set<Pair>>, t: State)
    requires Next(s, Restart(layout), t)
    ensures Visible(t) == Stored(s)
  {
  }

  // ---- compactions that nothing overlaps with ----

  /** Since the compaction began no pair was committed or on its way; the drained shards are empty. */
  ghost predicate Undisturbed(s: State) {
    && s.pending == multiset{}
    && (s.compactor.Draining? ==>
          s.compactor.drained <= |s.shards| && forall i :: 0 <= i < s.compactor.drained ==> s.shards[i] == {})
    && (s.compactor.Recorded? ==> AllIn(s.shards) == {})
  }

  lemma UndisturbedKept(s: State, step: Step, t: State)
    requires Undisturbed(s) && Next(s, step, t) && !step.Commit?
    ensures Undisturbed(t)
  {
  }

  /** If nothing is on its way when a compaction begins, and nothing is committed until its log reset, the reset
      takes nothing off the disk. */
  lemma {:induction false} UndisturbedCompactionExposesNothing(states: seq<State>, steps: seq<Step>, m: nat, n: nat,
                                                              e: Pair)
    requires IsRun(states, steps) && m <= n < |steps|
    requires steps[m].BeginCompaction? && states[m].pending == multiset{} && steps[n].ResetLog?
    requires forall k :: m <= k < n ==> !steps[k].Commit?
    ensures !Unsealed(states[n], e)
  {
    hide Next;
    StaysUndisturbed(states, steps, m, n);
    assert Next(states[n], steps[n], states[n + 1]);
    ResetIsRecorded(states[n], steps[n], states[n + 1]);
  }

  lemma ResetIsRecorded(s: State, step: Step, t: State)
    requires Next(s, step, t) && step.ResetLog?
    ensures s.compactor.Recorded?
  {
  }

  lemma BeginsUndisturbed(s: State, step: Step, t: State)
    requires Next(s, step, t) && step.BeginCompaction? && s.pending == multiset{}
    ensures Undisturbed(s)
  {
  }

  lemma {:induction false} StaysUndisturbed(states: seq<State>, steps: seq<Step>, m: nat, n: nat)
    requires IsRun(states, steps) && m <= n < |steps|
    requires steps[m].BeginCompaction? && states[m].pending == multiset{}
    requires forall k :: m <= k < n ==> !steps[k].Commit?
    ensures Undisturbed(states[n])
    decreases n
  {
    hide Next, Undisturbed;
    if n == m {
      BeginsUndisturbed(states[m], steps[m], states[m + 1]);
    } else {
      StaysUndisturbed(states, steps, m, n - 1);
      UndisturbedKept(states[n - 1], steps[n - 1], states[n]);
    }
  }

  // ---- a run that loses a pair ----

  const FIRST: Pair := (1, [])
  const SECOND: Pair := (2, [])

  lemma Extend(states: seq<State>, steps: seq<Step>, step: Step, t: State) returns (ss: seq<State>, tt: seq<Step>)
    requires IsRun(states, steps) && Next(states[|steps|], step, t)
    ensures IsRun(ss, tt) && |ss| == |tt| + 1 && ss[|tt|] == t
  {
    hide Next, Initial;
    ss, tt := states + [t], steps + [step];
  }

  function With(e: Pair): seq<set<Pair>> {
    NoShards()[0 := {e}]
  }

  /** One pair is committed and published to the first shard. */
  lemma InsertOne(states: seq<State>, steps: seq<Step>, e: Pair) returns (ss: seq<State>, tt: seq<Step>)
    requires IsRun(states, steps) && states[|steps|].shards == NoShards() && states[|steps|].pending == multiset{}
    ensures IsRun(ss, tt) && |ss| == |tt| + 1
    ensures var s := states[|steps|];
            ss[|tt|] == s.(log := s.log + {e}, shards := With(e), committed := s.committed + {e})
  {
    var s := states[|steps|];
    hide IsRun;
    assert Elems(multiset{e}) == {e};
    hide Elems;
    var t := s.(log := s.log + {e}, pending := multiset{e}, committed := s.committed + {e});
    ss, tt := Extend(states, steps, Commit(multiset{e}), t);
    assert NoShards()[0] + {e} == {e};
    ss, tt := Extend(ss, tt, Publish(e, 0), t.(pending := multiset{}, shards := With(e)));
  }

  lemma DrainAll(states: seq<State>, steps: seq<Step>, e: Pair) returns (ss: seq<State>, tt: seq<Step>)
    requires IsRun(states, steps) && states[|steps|].compactor == Resting && states[|steps|].shards == With(e)
    ensures IsRun(ss, tt) && |ss| == |tt| + 1
    ensures ss[|tt|] == states[|steps|].(shards := NoShards(), compactor := Draining(NUM_SHARDS, {e}))
  {
    var s := states[|steps|];
    hide IsRun;
    ss, tt := Extend(states, steps, BeginCompaction, s.(compactor := Draining(0, {})));
    assert With(e)[0 := {}] == NoShards() && {} + With(e)[0] == {e};
    ss, tt := Extend(ss, tt, DrainOne, s.(shards := NoShards(), compactor := Draining(1, {e})));
    var k: nat := 1;
    while k < NUM_SHARDS
      invariant 1 <= k <= NUM_SHARDS && IsRun(ss, tt) && |ss| == |tt| + 1
      invariant ss[|tt|] == s.(shards := NoShards(), compactor := Draining(k, {e}))
    {
      assert NoShards()[k := {}] == NoShards() && {e} + {} == {e};
      ss, tt := Extend(ss, tt, DrainOne, s.(shards := NoShards(), compactor := Draining(k + 1, {e})));
      k := k + 1;
    }
  }

  /** A pair committed and published while a compaction writes its file: the reset takes it off the disk, and a
      crash before the next compaction out of the index. */
  lemma InsertionDuringCompactionIsLost() returns (states: seq<State>, steps: seq<Step>)
    ensures IsRun(states, steps) && |states| == |steps| + 1
    ensures SECOND in states[|steps|].committed && SECOND !in Visible(states[|steps|])
  {
    AllInNothing();
    states, steps := [State({}, {}, NoShards(), {}, multiset{}, Resting, {})], [];
    assert IsRun(states, steps);
    hide IsRun, AllIn;
    states, steps := InsertOne(states, steps, FIRST);
    states, steps := DrainAll(states, steps, FIRST);
    states, steps := InsertOne(states, steps, SECOND);
    var s := states[|steps|].(listed := {FIRST}, compactor := Recorded({FIRST}));
    states, steps := Extend(states, steps, Seal, s);
    var t := s.(log := {}, compactor := LogReset({FIRST}));
    states, steps := Extend(states, steps, ResetLog, t);
    var u := t.(shards := NoShards(), sealed := {FIRST}, compactor := Resting);
    states, steps := Extend(states, steps, Restart(NoShards()), u);
  }
}
