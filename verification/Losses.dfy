/** A run of the index in which a failed compaction, followed by one that succeeds, loses a committed pair. */
module Losses {
  import opened Options
  import opened Bytes
  import opened Wal
  import opened Crash
  import opened Durability
  import Segments
  import Manifest

  const FIRST: Pair := WalEntry(1, [])
  const SECOND: Pair := WalEntry(2, [])
  const NAME: string := "s"

  /** One more step at the end of a run. */
  lemma Extend(states: seq<State>, steps: seq<Step>, step: Step, t: State) returns (ss: seq<State>, tt: seq<Step>)
    requires IsRun(0, states, steps) && Next(0, states[|steps|], step, t)
    ensures IsRun(0, ss, tt) && |ss| == |tt| + 1 && ss[|tt|] == t
  {
    hide Next, Initial;
    ss, tt := states + [t], steps + [step];
  }

  /** The state after inserting one pair under an automatic id, published to the first shard. */
  ghost function Inserted(s: State, e: Pair): State
    requires |s.shards| == NUM_SHARDS
  {
    s.(disk := s.disk.(wal := s.disk.wal + (s.buffer + Encode(e))), buffer := [],
       shards := s.shards[0 := s.shards[0] + [e]], nextId := s.nextId + 1, log := s.log + [e],
       durable := |s.log| + 1, committed := s.committed + Elems(s.log + [e]), appended := s.appended + {e},
       dropped := s.dropped - {e})
  }

  lemma InsertOne(states: seq<State>, steps: seq<Step>) returns (ss: seq<State>, tt: seq<Step>)
    requires IsRun(0, states, steps)
    requires var s := states[|steps|]; s.phase == Idle && s.nextId < 10 && |s.shards| == NUM_SHARDS
    ensures IsRun(0, ss, tt) && |ss| == |tt| + 1
    ensures ss[|tt|] == Inserted(states[|steps|], WalEntry(states[|steps|].nextId, []))
  {
    RunHasStates(0, states, steps);
    hide IsRun, Encode, Elems;
    var s := states[|steps|];
    var e := WalEntry(s.nextId, []);
    var a := s.(phase := Logging([e], 0), nextId := s.nextId + 1);
    assert Numbered([[]], s.nextId) == [e];
    ss, tt := Extend(states, steps, BeginAuto([[]]), a);
    var b := a.(buffer := a.buffer + Encode(e), log := a.log + [e], appended := a.appended + {e},
                phase := Logging([e], 1));
    ss, tt := Extend(ss, tt, LogOne, b);
    var c := b.(disk := b.disk.(wal := b.disk.wal + b.buffer), buffer := [], durable := |b.log|,
                committed := b.committed + Elems(b.log), phase := Publishing([e], 0));
    ss, tt := Extend(ss, tt, CommitLog, c);
    var d := c.(shards := c.shards[0 := c.shards[0] + [e]], dropped := c.dropped - {e}, phase := Publishing([e], 1));
    ss, tt := Extend(ss, tt, PublishOne(0), d);
    ss, tt := Extend(ss, tt, PublishOne(0), d.(phase := Idle));
  }

  ghost function Empty(): seq<seq<Pair>> {
    seq(NUM_SHARDS, _ => [])
  }

  lemma DrainAll(states: seq<State>, steps: seq<Step>, e: Pair) returns (ss: seq<State>, tt: seq<Step>)
    requires IsRun(0, states, steps)
    requires var s := states[|steps|]; s.phase == Idle && s.shards == Empty()[0 := [e]]
    ensures IsRun(0, ss, tt) && |ss| == |tt| + 1
    ensures ss[|tt|] == states[|steps|].(shards := Empty(), phase := Draining(NUM_SHARDS, [e]))
  {
    RunHasStates(0, states, steps);
    hide IsRun;
    var s := states[|steps|];
    ss, tt := Extend(states, steps, BeginCompaction, s.(phase := Draining(0, [])));
    var t := s.(shards := Empty(), phase := Draining(1, [e]));
    assert s.shards[0 := []] == Empty() && [] + [e] == [e];
    ss, tt := Extend(ss, tt, DrainOne, t);
    var k: nat := 1;
    while k < NUM_SHARDS
      invariant 1 <= k <= NUM_SHARDS && IsRun(0, ss, tt) && |ss| == |tt| + 1
      invariant ss[|tt|] == s.(shards := Empty(), phase := Draining(k, [e]))
    {
      assert Empty()[k := []] == Empty() && [e] + [] == [e];
      ss, tt := Extend(ss, tt, DrainOne, s.(shards := Empty(), phase := Draining(k + 1, [e])));
      k := k + 1;
    }
  }

  lemma OneIsStorable(e: Pair)
    requires e.vector == []
    ensures Segments.Storable(0, NodesOf([e])) && 0 < |FirstPass(0, [e])|
  {
    var ns := NodesOf([e]);
    assert ns == [Segments.Node(e.id, 0, [[]], [])];
    assert ns[..0] == [];
    hide LE, Segments.Header;
    assert Segments.EncodeLayers([[]][1..]) == [];
    assert |Segments.EncodeNode(ns[0])| == 16;
    assert |Segments.Body(ns)| == 16;
  }

  lemma NameIsPlain()
    ensures Manifest.Plain(NAME)
  {
  }

  /** The first pass over the segment file of a compaction of one pair. */
  lemma WriteOne(states: seq<State>, steps: seq<Step>, e: Pair) returns (ss: seq<State>, tt: seq<Step>)
    requires IsRun(0, states, steps)
    requires var s := states[|steps|];
             s.phase == Draining(NUM_SHARDS, [e]) && |s.shards| == NUM_SHARDS && e.vector == [] && s.disk.files == map[]
    ensures IsRun(0, ss, tt) && |ss| == |tt| + 1
    ensures ss[|tt|] == WithFile(states[|steps|], NAME, FirstPass(0, [e]), FirstPassed(NAME, [e], 0))
  {
    hide IsRun, FirstPass, SecondPass, Segments.Storable, Manifest.Plain;
    RunHasStates(0, states, steps);
    OneIsStorable(e);
    NameIsPlain();
    var s, whole := states[|steps|], FirstPass(0, [e]);
    ss, tt := Extend(states, steps, CreateFile(NAME), WithFile(s, NAME, [], Created(NAME, [e], 0)));
    assert whole[..|whole|] == whole;
    ss, tt := Extend(ss, tt, WriteUpTo(|whole|), WithFile(s, NAME, whole, FirstPassed(NAME, [e], 0)));
  }

  /** The second pass. */
  lemma PatchOne(states: seq<State>, steps: seq<Step>, s: State, e: Pair) returns (ss: seq<State>, tt: seq<Step>)
    requires IsRun(0, states, steps) && e.vector == []
    requires states[|steps|] == WithFile(s, NAME, FirstPass(0, [e]), FirstPassed(NAME, [e], 0))
    ensures IsRun(0, ss, tt) && |ss| == |tt| + 1
    ensures ss[|tt|] == WithFile(s, NAME, SecondPass(0, [e], 1), Patched(NAME, [e]))
  {
    hide IsRun, FirstPass, SecondPass, Segments.Storable;
    RunHasStates(0, states, steps);
    OneIsStorable(e);
    ss, tt := Extend(states, steps, PatchUpTo(1), WithFile(s, NAME, SecondPass(0, [e], 1), Patched(NAME, [e])));
  }

  /** The first manifest is saved. */
  lemma SaveOne(states: seq<State>, steps: seq<Step>, e: Pair) returns (ss: seq<State>, tt: seq<Step>)
    requires IsRun(0, states, steps)
    requires var s := states[|steps|]; s.phase == Patched(NAME, [e]) && s.disk.manifest == None
    ensures IsRun(0, ss, tt) && |ss| == |tt| + 1
    ensures var s, t := states[|steps|], ss[|tt|];
            t == s.(disk := t.disk, phase := Recorded(NAME, [e])) && Listed(t.disk) == {NAME}
  {
    hide IsRun, Manifest.Save;
    RunHasStates(0, states, steps);
    SavedNames([NAME]);
    assert [] + [NAME] == [NAME];
    var s := states[|steps|];
    assert LoadedNames(None) == None;
    hide LoadedNames;
    var t := s.(disk := s.disk.(manifest := Some(Manifest.Save([NAME]))), phase := Recorded(NAME, [e]));
    ss, tt := Extend(states, steps, SaveManifest, t);
  }

  /** The one file that the next open reads holds only what the compaction wrote. */
  lemma OnlyTheEntries(s: State, e: Pair)
    requires Inv(0, s) && s.phase == Recorded(NAME, [e]) && Listed(s.disk) == {NAME}
    ensures DiskPairs(s.disk) <= {e}
  {
    hide LogOk, FlushedOk, OnlyAppended, ManifestOk, InMemory, OnDisk, BatchOk, FilePairs, Listed;
    assert Elems([e]) == {e};
  }

  ghost function Start(): State {
    State(Disk([], map[], None), [], Empty(), [], 1, Idle, [], 0, {}, {}, {})
  }

  lemma StartIsRun()
    ensures IsRun(0, [Start()], [])
  {
  }

  /** A pair is inserted, and the compaction that drained it fails. */
  lemma InsertAndFail() returns (states: seq<State>, steps: seq<Step>)
    ensures IsRun(0, states, steps) && |states| == |steps| + 1
    ensures var s := states[|steps|];
            && s.phase == Idle && s.nextId == 2 && s.shards == Empty() && s.disk.files == map[]
            && s.disk.manifest == None && FIRST in s.committed && FIRST in s.dropped
  {
    hide IsRun, Encode;
    StartIsRun();
    states, steps := InsertOne([Start()], []);
    var s := states[|steps|];
    assert [] + [FIRST] == [FIRST] && FIRST in Elems([FIRST]);
    hide Elems;
    assert s.shards == Empty()[0 := [FIRST]];
    states, steps := DrainAll(states, steps, FIRST);
    NothingVisible(states[|steps|], FIRST);
    hide Visible, InFlight, MayFail;
    states, steps := Extend(states, steps, AbortCompaction, s.(shards := Empty(), phase := Idle, dropped := {FIRST}));
  }

  /** Another pair is inserted, and sealed by a compaction, up to its last step but two. */
  lemma InsertAndSeal(states: seq<State>, steps: seq<Step>) returns (ss: seq<State>, tt: seq<Step>)
    requires IsRun(0, states, steps)
    requires var s := states[|steps|];
             && s.phase == Idle && s.nextId == 2 && s.shards == Empty() && s.disk.files == map[]
             && s.disk.manifest == None && FIRST in s.committed && FIRST in s.dropped
    ensures IsRun(0, ss, tt) && |ss| == |tt| + 1
    ensures var t := ss[|tt|];
            && t.phase == Recorded(NAME, [SECOND]) && Listed(t.disk) == {NAME}
            && FIRST in t.committed && FIRST in t.dropped
  {
    hide IsRun, Encode, Elems, Listed, FirstPass, SecondPass;
    RunHasStates(0, states, steps);
    ss, tt := InsertOne(states, steps);
    assert [] + [SECOND] == [SECOND];
    assert ss[|tt|].shards == Empty()[0 := [SECOND]];
    ss, tt := DrainAll(ss, tt, SECOND);
    var drained := ss[|tt|];
    ss, tt := WriteOne(ss, tt, SECOND);
    ss, tt := PatchOne(ss, tt, drained, SECOND);
    ss, tt := SaveOne(ss, tt, SECOND);
  }

  /** Insert a pair; let a compaction fail once its shards are drained; insert another; let a compaction succeed.
      The log reset wipes the first pair: it is committed, and no open will show it. */
  lemma FailedCompactionLosesAPair() returns (states: seq<State>, steps: seq<Step>)
    ensures IsRun(0, states, steps) && |states| == |steps| + 1
    ensures FIRST in states[|steps|].committed && FIRST !in Stored(states[|steps|])
  {
    hide IsRun, Inv, DiskPairs, Flushed, Listed, Stored;
    states, steps := InsertAndFail();
    states, steps := InsertAndSeal(states, steps);
    var s := states[|steps|];
    InvAt(0, states, steps, |steps|);
    OnlyTheEntries(s, SECOND);
    var t := s.(disk := s.disk.(wal := []), buffer := [], log := [], durable := 0, phase := LogReset(NAME, [SECOND]));
    states, steps := Extend(states, steps, ResetLog, t);
    if FIRST in Stored(s) {
      StoredStays(0, s, ResetLog, t, FIRST);
    } else {
      LostStays(0, s, ResetLog, t, FIRST);
      NothingFlushed(t);
    }
  }

  lemma NothingFlushed(s: State)
    requires s.log == []
    ensures Flushed(s) == {}
  {
  }

  lemma NothingVisible(s: State, e: Pair)
    requires s.shards == Empty() && s.sealed == [] && s.phase == Draining(NUM_SHARDS, [e]) && s.dropped == {}
    ensures s.dropped + (InFlight(s.phase) - Visible(s)) == {e} && MayFail(s)
  {
    AllInNothing(s.shards);
    NoSealed();
    assert Elems([e]) == {e};
  }
}
