/** What every run of the machine keeps: which committed pairs survive a crash, and which are searchable. */
module Durability {
  import opened Options
  import opened Bytes
  import opened Wal
  import opened Crash
  import opened Mirror

  /** Every step keeps the invariant. */
  lemma InvKept(dims: nat, s: State, step: Step, t: State)
    requires Inv(dims, s) && Next(dims, s, step, t)
    ensures Inv(dims, t)
  {
    hide Next, LogOk, FlushedOk, OnlyAppended, ManifestOk, FileOk, InMemory, OnDisk, BatchOk;
    BatchKept(dims, s, step, t);
    FlushedKept(dims, s, step, t);
    LogKept(dims, s, step, t);
    ManifestKept(dims, s, step, t);
    FileKept(dims, s, step, t);
    OnlyAppendedKept(dims, s, step, t);
    MemoryKept(dims, s, step, t);
    OnDiskKept(dims, s, step, t);
  }

  /** A run from the empty index. */
  ghost predicate IsRun(dims: nat, states: seq<State>, steps: seq<Step>) {
    && |states| == |steps| + 1 && Initial(states[0])
    && forall i :: 0 <= i < |steps| ==> Next(dims, states[i], steps[i], states[i + 1])
  }

  lemma {:induction false} RunsKeepInv(dims: nat, states: seq<State>, steps: seq<Step>)
    requires dims < 0x1_0000_0000 && IsRun(dims, states, steps)
    ensures Inv(dims, states[|steps|])
  {
    hide Next, Inv, Initial;
    if steps == [] {
      InitialInv(dims, states[0]);
    } else {
      var n := |steps| - 1;
      RunsKeepInv(dims, states[..n + 1], steps[..n]);
      InvKept(dims, states[n], steps[n], states[n + 1]);
    }
  }

  // ---- what is lost ----

  /** The log reset wipes a committed pair that a failed compaction dropped and no listed file holds. */
  ghost predicate Wipes(s: State, step: Step, e: Pair) {
    step.ResetLog? && e in s.committed && e in s.dropped && e !in DiskPairs(s.disk)
  }

  /** A reset among the first n steps wiped the pair, and it never reached the flushed log again. */
  ghost predicate Wiped(states: seq<State>, steps: seq<Step>, n: nat, e: Pair)
    requires n <= |steps| < |states|
  {
    exists k :: 0 <= k < n && Wipes(states[k], steps[k], e) && NotFlushed(states, k + 1, n, e)
  }

  ghost predicate NotFlushed(states: seq<State>, k: nat, n: nat, e: Pair)
    requires n < |states|
  {
    forall j :: k <= j <= n ==> e !in Flushed(states[j])
  }

  /** A stored pair stays stored, unless it is wiped. */
  lemma StoredStays(dims: nat, s: State, step: Step, t: State, e: Pair)
    requires Inv(dims, s) && Next(dims, s, step, t) && e in s.committed && e in Stored(s)
    ensures e in Stored(t) <==> !Wipes(s, step, e)
  {
    FlushedStep(dims, s, step, t);
    DiskStep(dims, s, step, t);
    UpHasNoReopen(dims, s, step, t);
    if step.ResetLog? {
      OnDiskByReset(dims, s, t);
    }
    hide Next, LogOk, FlushedOk, OnlyAppended, FileOk, BatchOk, AllIn, SealedPairs, InFlight, Flushed, DiskPairs, Elems,
         SavedManifest, Manifest.Plain;
  }

  /** What is lost stays lost until it is logged again. */
  lemma LostStays(dims: nat, s: State, step: Step, t: State, e: Pair)
    requires Inv(dims, s) && Next(dims, s, step, t) && e in s.committed && e !in Stored(s)
    ensures e in Stored(t) <==> e in Flushed(t)
  {
    DiskStep(dims, s, step, t);
    hide Next, LogOk, FlushedOk, OnlyAppended, ManifestOk, FileOk, BatchOk, InMemory, AllIn, SealedPairs, Flushed,
         DiskPairs, Elems;
  }

  lemma NewlyCommitted(dims: nat, s: State, step: Step, t: State, e: Pair)
    requires LogOk(s) && Next(dims, s, step, t) && e in t.committed && e !in s.committed
    ensures e in Flushed(t)
  {
    FlushedStep(dims, s, step, t);
  }

  lemma WipedOneMore(states: seq<State>, steps: seq<Step>, n: nat, e: Pair)
    requires n < |steps| < |states|
    ensures Wiped(states, steps, n + 1, e) <==>
            e !in Flushed(states[n + 1]) && (Wipes(states[n], steps[n], e) || Wiped(states, steps, n, e))
  {
    hide Wipes, Flushed;
    if k :| 0 <= k < n && Wipes(states[k], steps[k], e) && NotFlushed(states, k + 1, n, e) {
      assert e !in Flushed(states[n + 1]) ==> NotFlushed(states, k + 1, n + 1, e);
    }
    if Wipes(states[n], steps[n], e) && e !in Flushed(states[n + 1]) {
      assert NotFlushed(states, n + 1, n + 1, e);
    }
  }

  lemma RunPrefix(dims: nat, states: seq<State>, steps: seq<Step>, n: nat)
    requires IsRun(dims, states, steps) && n <= |steps|
    ensures IsRun(dims, states[..n + 1], steps[..n])
    ensures n < |steps| ==> Next(dims, states[n], steps[n], states[n + 1])
  {
    hide Next, Initial;
  }

  lemma InvAt(dims: nat, states: seq<State>, steps: seq<Step>, n: nat)
    requires dims < 0x1_0000_0000 && IsRun(dims, states, steps) && n <= |steps|
    ensures Inv(dims, states[n])
  {
    RunHasStates(dims, states, steps);
    hide IsRun, Inv;
    RunPrefix(dims, states, steps, n);
    RunsKeepInv(dims, states[..n + 1], steps[..n]);
  }

  /** A committed pair is on disk, in the flushed log or in a listed file, unless a log reset wiped it after a
      failed compaction, and it never came back. */
  lemma {:induction false} LostExactly(dims: nat, states: seq<State>, steps: seq<Step>, n: nat, e: Pair)
    requires dims < 0x1_0000_0000 && IsRun(dims, states, steps) && n <= |steps| && e in states[n].committed
    ensures e in Stored(states[n]) <==> !Wiped(states, steps, n, e)
    decreases n
  {
    hide Next, Inv, Initial, Wipes, Wiped, Flushed, DiskPairs;
    if n == 0 {
      NothingCommitted(states[0]);
    } else {
      var s, step, t := states[n - 1], steps[n - 1], states[n];
      InvAt(dims, states, steps, n - 1);
      RunPrefix(dims, states, steps, n - 1);
      WipedOneMore(states, steps, n - 1, e);
      if e !in s.committed {
        InvParts(dims, s);
        NewlyCommitted(dims, s, step, t, e);
      } else {
        LostExactly(dims, states, steps, n - 1, e);
        if e in Stored(s) {
          StoredStays(dims, s, step, t, e);
          if Wipes(s, step, e) { }
        } else {
          LostStays(dims, s, step, t, e);
        }
      }
    }
  }

  lemma NothingCommitted(s: State)
    requires Initial(s)
    ensures s.committed == {}
  {
  }

  lemma InvParts(dims: nat, s: State)
    requires Inv(dims, s)
    ensures LogOk(s) && ManifestOk(s)
  {
  }

  /** Durability: whatever happened before, if the process crashes now with the log cut at `cut`, the next open
      succeeds exactly when the cut is an entry boundary; it then shows the pairs of the log up to there and of
      the listed files, so every committed pair that was not wiped, and nothing that was never appended. */
  lemma CrashSafety(dims: nat, states: seq<State>, steps: seq<Step>, cut: nat, down: State)
    requires dims < 0x1_0000_0000 && IsRun(dims, states, steps)
    requires Next(dims, states[|steps|], CrashAt(cut), down)
    ensures Opens(down) <==> exists i :: 0 <= i <= |down.log| && cut == Boundary(down.log, i)
    ensures forall found, layout, up :: Next(dims, down, Reopen(found, layout), up) ==>
              var s := states[|steps|];
              && Flushed(s) <= Elems(up.log) <= Elems(s.log)
              && Visible(up) == Elems(up.log) + DiskPairs(s.disk) <= s.appended
              && forall e :: e in s.committed && !Wiped(states, steps, |steps|, e) ==> e in Visible(up)
  {
    hide Next, IsRun, Inv, Opens, Visible, Wiped, DiskPairs, Flushed, Elems, Boundary, LogOk, ManifestOk;
    RunHasStates(dims, states, steps);
    var s := states[|steps|];
    InvAt(dims, states, steps, |steps|);
    InvKept(dims, s, CrashAt(cut), down);
    InvParts(dims, down);
    CrashKeeps(dims, s, cut, down);
    OpensAtBoundary(down);
    forall e | e in s.committed && !Wiped(states, steps, |steps|, e) ensures e in Stored(s) {
      LostExactly(dims, states, steps, |steps|, e);
    }
    forall found, layout, up | Next(dims, down, Reopen(found, layout), up)
      ensures Flushed(s) <= Elems(up.log) <= Elems(s.log)
      ensures Visible(up) == Elems(up.log) + DiskPairs(s.disk) <= s.appended
    {
      OpenShowsStored(dims, down, found, layout, up);
    }
  }

  lemma CrashKeeps(dims: nat, s: State, cut: nat, t: State)
    requires Next(dims, s, CrashAt(cut), t)
    ensures t.phase == Down && |t.disk.wal| == cut
    ensures t.log == s.log && t.committed == s.committed && t.appended == s.appended
    ensures Flushed(t) == Flushed(s) && DiskPairs(t.disk) == DiskPairs(s.disk)
  {
    DiskPairsIgnoreLog(s.disk, t.disk);
    hide DiskPairs, Elems;
  }

  /** A stopped index opens if and only if its log ends on an entry boundary. */
  lemma OpensAtBoundary(s: State)
    requires LogOk(s) && s.phase == Down
    ensures Opens(s) <==> exists i :: 0 <= i <= |s.log| && |s.disk.wal| == Boundary(s.log, i)
  {
    hide Replay, Encode, Log;
    var n := |s.disk.wal|;
    var i := SomeBoundary(s.log, n);
    PrefixReplay(s.log, i, n);
    if j :| 0 <= j <= |s.log| && n == Boundary(s.log, j) {
      if j < i {
        BoundaryGrows(s.log, j, i);
      } else if i < j {
        BoundaryGrows(s.log, i + 1, j);
      }
    }
  }

  lemma OpenShowsStored(dims: nat, s: State, found: seq<string>, layout: seq<seq<Pair>>, t: State)
    requires Inv(dims, s) && Next(dims, s, Reopen(found, layout), t)
    ensures Flushed(s) <= Elems(t.log) <= Elems(s.log)
    ensures Visible(t) == Elems(t.log) + DiskPairs(s.disk) <= t.appended == s.appended
  {
    hide Next, LogOk, FlushedOk, ManifestOk, FileOk, BatchOk, IsNextId, DiskPairs, AllIn, SealedPairs, Elems, InMemory,
         OnDisk, Flushed, OpenAll, LoadedNames, Replay, Opens;
    var step := Reopen(found, layout);
    InvKept(dims, s, step, t);
    ReopenGives(dims, s, step, t);
    FlushedByReopen(dims, s, step, t);
    AllFlushed(t);
  }

  /** Between operations a committed pair is searchable unless a failed compaction dropped it, or it was wiped
      before the last opening; nothing but appended pairs is searchable. */
  lemma CommittedStaysVisible(dims: nat, states: seq<State>, steps: seq<Step>, e: Pair)
    requires dims < 0x1_0000_0000 && IsRun(dims, states, steps) && states[|steps|].phase == Idle
    ensures var s := states[|steps|];
            && Visible(s) <= s.appended
            && (e in s.committed && !Wiped(states, steps, |steps|, e) ==> (e in Visible(s) <==> e !in s.dropped))
  {
    hide IsRun, Wiped, Visible, Stored, Inv;
    RunHasStates(dims, states, steps);
    var n := |steps|;
    InvAt(dims, states, steps, n);
    if e in states[n].committed && !Wiped(states, steps, n, e) {
      LostExactly(dims, states, steps, n, e);
      IdleShows(dims, states[n], e);
    }
    IdleShowsAppended(dims, states[n]);
  }

  lemma RunHasStates(dims: nat, states: seq<State>, steps: seq<Step>)
    requires IsRun(dims, states, steps)
    ensures |states| == |steps| + 1
  {
    hide Next, Initial;
  }

  lemma IdleShows(dims: nat, s: State, e: Pair)
    requires Inv(dims, s) && s.phase == Idle && e in Stored(s)
    ensures e in Visible(s) <==> e !in s.dropped
  {
    ElemsPrefix(s.log, s.durable);
    hide LogOk, OnlyAppended, ManifestOk, FileOk, OnDisk, BatchOk, DiskPairs, Visible, Elems;
  }

  lemma IdleShowsAppended(dims: nat, s: State)
    requires Inv(dims, s)
    ensures Visible(s) <= s.appended
  {
    hide LogOk, FlushedOk, ManifestOk, FileOk, OnDisk, InMemory, BatchOk, AllIn, SealedPairs;
  }

  /** As long as no compaction failed, nothing is dropped, and so nothing is wiped. */
  lemma {:induction false} NothingDropped(dims: nat, states: seq<State>, steps: seq<Step>, n: nat)
    requires IsRun(dims, states, steps) && n <= |steps|
    requires forall k :: 0 <= k < n ==> !steps[k].AbortCompaction?
    ensures states[n].dropped == {}
  {
    hide Next, Initial;
    if n == 0 {
      InitiallyNothing(states[0]);
    } else {
      NothingDropped(dims, states, steps, n - 1);
      DropsNothing(dims, states[n - 1], steps[n - 1], states[n]);
    }
  }

  lemma InitiallyNothing(s: State)
    requires Initial(s)
    ensures s.dropped == {}
  {
  }

  lemma DropsNothing(dims: nat, s: State, step: Step, t: State)
    requires Next(dims, s, step, t) && !step.AbortCompaction?
    ensures t.dropped <= s.dropped
  {
    hide AllIn, SealedPairs, Elems, Encode, Visible, FirstPass, SecondPass;
  }

  /** Without a failed compaction every committed pair stays searchable between operations. */
  lemma NothingIsLost(dims: nat, states: seq<State>, steps: seq<Step>)
    requires dims < 0x1_0000_0000 && IsRun(dims, states, steps) && states[|steps|].phase == Idle
    requires forall k :: 0 <= k < |steps| ==> !steps[k].AbortCompaction?
    ensures states[|steps|].committed <= Visible(states[|steps|])
  {
    hide IsRun, Visible, Stored, DiskPairs, NotFlushed;
    RunHasStates(dims, states, steps);
    var n := |steps|;
    forall e | e in states[n].committed ensures e in Visible(states[n]) {
      if k :| 0 <= k < n && Wipes(states[k], steps[k], e) && NotFlushed(states, k + 1, n, e) {
        NothingDropped(dims, states, steps, k);
      }
      NothingDropped(dims, states, steps, n);
      CommittedStaysVisible(dims, states, steps, e);
    }
  }

  /** Fresh identifiers: in every run, an automatically drawn identifier differs from every identifier in a
      shard, in the log and in an opened segment. */
  lemma AutomaticIdsAreFresh(dims: nat, states: seq<State>, steps: seq<Step>, vectors: seq<seq<word>>, next: State,
                             e: Pair)
    requires dims < 0x1_0000_0000 && IsRun(dims, states, steps)
    requires Next(dims, states[|steps|], BeginAuto(vectors), next)
    requires e in Visible(states[|steps|]) || e in states[|steps|].log
    ensures next.phase == Logging(Numbered(vectors, states[|steps|].nextId), 0)
    ensures forall p :: p in next.phase.batch ==> p.id != e.id
  {
    RunsKeepInv(dims, states, steps);
  }
}
