/** Memory and disk of the machine keep up with each other: what every step does to what is held and to what the
    next open would show. */
module Mirror {
  import opened Options
  import opened Bytes
  import opened Wal
  import opened Crash
  import Segments
  import Manifest

  // ---- what the steps do to the files that the next open reads ----

  /** A step shows no more than the pairs that the compaction holds, and hides something only when the first
      manifest is saved. */
  ghost predicate DiskMoves(s: State, step: Step, t: State) {
    && DiskPairs(t.disk) <= DiskPairs(s.disk) + (if s.phase.Logging? then {} else InFlight(s.phase))
    && (DiskPairs(s.disk) <= DiskPairs(t.disk) || (step.SaveManifest? && s.disk.manifest == None))
    && (step.SaveManifest? ==> InFlight(s.phase) <= DiskPairs(t.disk))
  }

  lemma FileShowsEntries(disk: Disk, name: string, b: seq<byte>, entries: seq<Pair>)
    requires FilePairs(b) <= Elems(entries)
    ensures DiskPairs(disk.(files := disk.files[name := b])) <= DiskPairs(disk) + Elems(entries)
  {
    hide FilePairs, LoadedNames, Elems;
    var grown := disk.(files := disk.files[name := b]);
    forall e | e in DiskPairs(grown) ensures e in DiskPairs(disk) + Elems(entries) {
      var n :| n in Listed(grown) && n in grown.files && e in FilePairs(grown.files[n]);
      if n != name {
        assert n in Listed(disk) && n in disk.files;
      }
    }
  }

  lemma DiskByFileStep(dims: nat, s: State, step: Step, t: State)
    requires FileOk(dims, s) && Next(dims, s, step, t) && FileStep(step)
    ensures DiskMoves(s, step, t)
  {
    hide Manifest.Plain, FilePairs, Listed, DiskPairs, Elems, Segments.Storable, Segments.SegmentBytes, FirstPass,
         SecondPass;
    var entries := s.phase.entries;
    match step {
      case CreateFile(name) =>
        EmptyFile();
        FileGrows(s.disk, name, []);
        FileShowsEntries(s.disk, name, [], entries);
      case WriteUpTo(n) =>
        PartOfFirstPass(dims, entries, s.phase.written, n);
        FileGrows(s.disk, s.phase.name, FirstPass(dims, entries)[..n]);
        FileShowsEntries(s.disk, s.phase.name, FirstPass(dims, entries)[..n], entries);
      case PatchUpTo(n) =>
        PartOfSecondPass(dims, entries, s.phase.patched, n);
        FileGrows(s.disk, s.phase.name, SecondPass(dims, entries, n));
        FileShowsEntries(s.disk, s.phase.name, SecondPass(dims, entries, n), entries);
    }
  }

  lemma ListedShows(disk: Disk, name: string)
    requires name in Listed(disk) && name in disk.files
    ensures FilePairs(disk.files[name]) <= DiskPairs(disk)
  {
    hide FilePairs, Listed;
  }

  /** One more listed file. */
  lemma SaveLists(disk: Disk, names: seq<string>, name: string)
    requires name in disk.files && Manifest.Plain(name) && forall n :: n in names ==> Manifest.Plain(n)
    requires LoadedNames(disk.manifest) == Some(names) || (LoadedNames(disk.manifest) == None && names == [])
    ensures var saved := disk.(manifest := Some(Manifest.Save(names + [name])));
            && FilePairs(disk.files[name]) <= DiskPairs(saved) <= DiskPairs(disk) + FilePairs(disk.files[name])
            && (LoadedNames(disk.manifest).Some? ==> DiskPairs(disk) <= DiskPairs(saved))
  {
    var saved := disk.(manifest := Some(Manifest.Save(names + [name])));
    SavedNames(names + [name]);
    hide Manifest.Plain, Manifest.Save, FilePairs, LoadedNames;
    ListedShows(saved, name);
    forall e | e in DiskPairs(saved) ensures e in DiskPairs(disk) + FilePairs(disk.files[name]) {
      var n :| n in Listed(saved) && n in saved.files && e in FilePairs(saved.files[n]);
      if n != name { assert n in Listed(disk) && n in disk.files; }
    }
    if LoadedNames(disk.manifest).Some? {
      forall e | e in DiskPairs(disk) ensures e in DiskPairs(saved) {
        var n :| n in Listed(disk) && n in disk.files && e in FilePairs(disk.files[n]);
        assert n in Listed(saved) && n in saved.files;
      }
    }
  }

  lemma DiskBySave(dims: nat, s: State, t: State)
    requires ManifestOk(s) && FileOk(dims, s) && Next(dims, s, SaveManifest, t)
    ensures DiskMoves(s, SaveManifest, t)
  {
    hide Manifest.Plain, Manifest.Save, FilePairs, Elems, LoadedNames, DiskPairs, Listed, Flushed, FirstPass,
         SecondPass;
    var names := match LoadedNames(s.disk.manifest) case None => [] case Some(ns) => ns;
    SaveLists(s.disk, names, s.phase.name);
  }

  lemma DiskStep(dims: nat, s: State, step: Step, t: State)
    requires LogOk(s) && ManifestOk(s) && FileOk(dims, s) && Next(dims, s, step, t)
    ensures DiskMoves(s, step, t)
  {
    if FileStep(step) {
      DiskByFileStep(dims, s, step, t);
    } else if step.SaveManifest? {
      DiskBySave(dims, s, t);
    } else if step.Reopen? {
      ReopenGives(dims, s, step, t);
    } else {
      DiskOtherwise(dims, s, step, t);
    }
  }

  // ---- memory and disk keep up with each other ----

  /** A step of a running index neither loses nor gains a pair, except that logging brings one. */
  ghost predicate HeldMoves(s: State, step: Step, t: State) {
    && Held(t) == Held(s) + (if step.LogOne? then Elems(t.log) else {})
    && (s.dropped !! Visible(s) ==> t.dropped !! Visible(t))
    && s.nextId <= t.nextId
  }

  lemma HeldByLogging(dims: nat, s: State, t: State)
    requires Elems(s.log) <= Held(s) && Next(dims, s, LogOne, t)
    ensures HeldMoves(s, LogOne, t)
  {
    hide AllIn, SealedPairs, Encode;
    var n, e := s.phase.logged, s.phase.batch[s.phase.logged];
    assert s.phase.batch[..n + 1] == s.phase.batch[..n] + [e];
    ElemsAppend(s.log, [e]);
    ElemsAppend(s.phase.batch[..n], [e]);
    SingleElem(e);
    hide Elems;
    assert Visible(t) == Visible(s) && InFlight(t.phase) == InFlight(s.phase) + {e};
    hide Visible, InFlight;
  }

  lemma SingleElem(e: Pair)
    ensures Elems([e]) == {e}
  {
  }

  lemma HeldByPublishing(dims: nat, s: State, k: nat, t: State)
    requires Next(dims, s, PublishOne(k), t)
    ensures HeldMoves(s, PublishOne(k), t)
  {
    hide AllIn, SealedPairs, Elems;
    var batch, n := s.phase.batch, s.phase.published;
    if n < |batch| {
      AllInGrow(s.shards, k, batch[n]);
      assert batch[n..] == [batch[n]] + batch[n + 1..];
      ElemsAppend([batch[n]], batch[n + 1..]);
      SingleElem(batch[n]);
      assert Visible(t) == Visible(s) + {batch[n]} && InFlight(s.phase) == {batch[n]} + InFlight(t.phase);
    } else {
      assert batch[n..] == [];
      NoElems();
      assert Visible(t) == Visible(s) && InFlight(s.phase) == InFlight(t.phase) == {};
    }
    hide Visible, InFlight;
  }

  lemma HeldByDraining(dims: nat, s: State, t: State)
    requires Next(dims, s, DrainOne, t)
    ensures HeldMoves(s, DrainOne, t)
  {
    hide AllIn, SealedPairs, Elems;
    AllInDrain(s.shards, s.phase.drained);
    ElemsAppend(s.phase.entries, s.shards[s.phase.drained]);
  }

  lemma HeldByOpening(dims: nat, s: State, t: State)
    requires FileOk(dims, s) && Next(dims, s, OpenSealed, t)
    ensures HeldMoves(s, OpenSealed, t)
    ensures SealedPairs(t.sealed) == SealedPairs(s.sealed) + InFlight(s.phase)
  {
    hide Next, AllIn, SealedPairs, Elems, FilePairs, FileOk;
    OpeningChanges(dims, s, t);
    OpeningShowsEntries(dims, s);
    SealedAppend(s.sealed, s.disk.files[s.phase.name]);
    IdleHoldsNothing(t);
    hide InFlight;
    assert Visible(t) == Visible(s) + InFlight(s.phase);
  }

  lemma OpeningShowsEntries(dims: nat, s: State)
    requires FileOk(dims, s) && s.phase.LogReset?
    ensures s.phase.name in s.disk.files && FilePairs(s.disk.files[s.phase.name]) == InFlight(s.phase)
  {
    hide FilePairs, Elems;
  }

  lemma HeldByBeginning(dims: nat, s: State, step: Step, t: State)
    requires Next(dims, s, step, t) && (step.BeginAuto? || step.BeginExplicit?)
    ensures HeldMoves(s, step, t)
  {
    hide Next, AllIn, SealedPairs;
    BeginsKeeps(dims, s, step, t);
    NoElems();
    assert t.phase.batch[..0] == [];
    hide Elems;
  }

  lemma HeldByCommit(dims: nat, s: State, t: State)
    requires Next(dims, s, CommitLog, t)
    ensures HeldMoves(s, CommitLog, t)
  {
    hide AllIn, SealedPairs, Elems;
    assert s.phase.batch[..|s.phase.batch|] == s.phase.batch == s.phase.batch[0..];
  }

  lemma HeldOtherwise(dims: nat, s: State, step: Step, t: State)
    requires Next(dims, s, step, t)
    requires step.BeginCompaction? || step.EndEmpty? || step.SaveManifest? || step.ResetLog? || step.AbortCompaction?
    ensures HeldMoves(s, step, t)
  {
    hide AllIn, SealedPairs, LoadedNames, Manifest.Save;
    NoElems();
    hide Elems;
  }

  lemma HeldStep(dims: nat, s: State, step: Step, t: State)
    requires Inv(dims, s) && Next(dims, s, step, t) && s.phase != Down && !step.CrashAt?
    ensures HeldMoves(s, step, t)
  {
    hide LogOk, FlushedOk, OnlyAppended, ManifestOk, FileOk, OnDisk, BatchOk, Next, Held, HeldMoves;
    match step {
      case LogOne => HeldByLogging(dims, s, t);
      case PublishOne(k) => HeldByPublishing(dims, s, k, t);
      case DrainOne => HeldByDraining(dims, s, t);
      case OpenSealed => HeldByOpening(dims, s, t);
      case BeginAuto(_) => HeldByBeginning(dims, s, step, t);
      case BeginExplicit(_, _) => HeldByBeginning(dims, s, step, t);
      case CommitLog => HeldByCommit(dims, s, t);
      case Reopen(_, _) => UpHasNoReopen(dims, s, step, t);
      case _ => if FileStep(step) { HeldByFileStep(dims, s, step, t); } else { HeldOtherwise(dims, s, step, t); }
    }
  }

  lemma HeldByFileStep(dims: nat, s: State, step: Step, t: State)
    requires Next(dims, s, step, t) && FileStep(step)
    ensures HeldMoves(s, step, t)
  {
    FileStepChanges(dims, s, step, t);
    hide Next, AllIn, SealedPairs, InFlight;
  }

  lemma MemoryWhileUp(dims: nat, s: State, step: Step, t: State)
    requires Inv(dims, s) && Next(dims, s, step, t) && s.phase != Down && !step.CrashAt?
    ensures InMemory(t)
  {
    HeldStep(dims, s, step, t);
    DiskStep(dims, s, step, t);
    LogStep(dims, s, step, t);
    UpHasNoReopen(dims, s, step, t);
    CrashTakesDown(dims, s, step, t);
    LogIsHeld(dims, s, step, t);
    hide Next, DiskPairs, Visible, LogOk, FlushedOk, OnlyAppended, ManifestOk, FileOk, OnDisk, BatchOk, Elems, InFlight;
  }

  lemma LogIsHeld(dims: nat, s: State, step: Step, t: State)
    requires BatchOk(dims, s) && Next(dims, s, step, t) && !step.Reopen? && (s.phase != Down ==> Mirrored(s))
    requires s.phase != Down && HeldMoves(s, step, t)
    ensures Elems(t.log) <= Held(t) && forall e :: e in Held(t) ==> e.id < t.nextId
  {
    LogStep(dims, s, step, t);
    hide Next, Held, DiskPairs;
    NoElems();
    if step.LogOne? {
      var e := s.phase.batch[s.phase.logged];
      ElemsAppend(s.log, [e]);
      assert Elems([e]) == {e};
    }
    hide Elems;
  }

  lemma UpHasNoReopen(dims: nat, s: State, step: Step, t: State)
    requires Next(dims, s, step, t)
    ensures step.Reopen? <==> s.phase == Down
  {
    hide AllIn, SealedPairs, Elems, Encode, InFlight, Visible, OpenAll, Log, FirstPass, SecondPass;
    if step.BeginAuto? || step.BeginExplicit? {
      BeginsKeeps(dims, s, step, t);
      hide Next;
    }
  }

  lemma MemoryByReopen(dims: nat, s: State, step: Step, t: State)
    requires OnlyAppended(dims, s) && LogOk(s) && ManifestOk(s) && Next(dims, s, step, t) && step.Reopen?
    requires s.dropped == {}
    ensures InMemory(t) && OnDisk(t)
  {
    hide Next, LogOk, ManifestOk, DiskPairs, AllIn, SealedPairs, FilePairs, Elems, Opens, OpenAll, LoadedNames,
         IsNextId, InFlight;
    ReopenGives(dims, s, step, t);
    ReopenChanges(dims, s, step, t);
    IdleHoldsNothing(t);
    AllFlushed(t);
    AppendedIdsFit(dims, s, t);
  }

  /** After an open every identifier found lies below the counter. */
  lemma AppendedIdsFit(dims: nat, s: State, t: State)
    requires OnlyAppended(dims, s) && |t.log| <= |s.log| && t.log == s.log[..|t.log|]
    requires AllIn(t.shards) == Elems(t.log) && SealedPairs(t.sealed) == DiskPairs(s.disk)
    requires IsNextId(AllIn(t.shards) + SealedPairs(t.sealed), t.nextId)
    ensures forall e :: e in Visible(t) ==> e.id < t.nextId
  {
    hide AllIn, SealedPairs, DiskPairs, InFlight, FilePairs;
    ElemsPrefix(s.log, |t.log|);
    DiskOnlyFiles(s.disk, s.appended);
    hide Elems;
  }

  // what is in memory stays on disk

  lemma OnDiskByDraining(dims: nat, s: State, t: State)
    requires OnDisk(s) && Next(dims, s, DrainOne, t)
    ensures OnDisk(t)
  {
    DiskPairsIgnoreLog(s.disk, t.disk);
    AllInDrain(s.shards, s.phase.drained);
    ElemsAppend(s.phase.entries, s.shards[s.phase.drained]);
    hide AllIn, SealedPairs, Elems, DiskPairs;
  }

  lemma OnDiskByPublishing(dims: nat, s: State, k: nat, t: State)
    requires OnDisk(s) && Next(dims, s, PublishOne(k), t)
    ensures OnDisk(t)
  {
    DiskPairsIgnoreLog(s.disk, t.disk);
    hide AllIn, SealedPairs, DiskPairs;
    var batch, n := s.phase.batch, s.phase.published;
    NoElems();
    if n < |batch| {
      AllInGrow(s.shards, k, batch[n]);
      assert batch[n..] == [batch[n]] + batch[n + 1..];
      ElemsAppend([batch[n]], batch[n + 1..]);
      assert Elems([batch[n]]) == {batch[n]};
    }
    hide Elems;
    assert Flushed(t) == Flushed(s);
    hide Flushed;
  }

  lemma OnDiskByCommit(dims: nat, s: State, t: State)
    requires LogOk(s) && FlushedOk(s) && OnDisk(s) && Next(dims, s, CommitLog, t)
    ensures OnDisk(t)
  {
    FlushedStep(dims, s, CommitLog, t);
    DiskPairsIgnoreLog(s.disk, t.disk);
    var batch := s.phase.batch;
    assert batch[0..] == batch == batch[..|batch|];
    assert s.log == s.log[..s.durable] + batch;
    ElemsAppend(s.log[..s.durable], batch);
    hide AllIn, SealedPairs, DiskPairs, Elems, LogOk, Flushed;
  }

  lemma OnDiskByReset(dims: nat, s: State, t: State)
    requires OnDisk(s) && FileOk(dims, s) && Next(dims, s, ResetLog, t)
    ensures OnDisk(t)
    ensures AllIn(s.shards) == {} && InFlight(s.phase) <= DiskPairs(s.disk) == DiskPairs(t.disk)
  {
    DiskPairsIgnoreLog(s.disk, t.disk);
    AllInNothing(s.shards);
    ListedShows(s.disk, s.phase.name);
    hide AllIn, SealedPairs, DiskPairs, Elems, FilePairs, Listed;
  }

  lemma OnDiskBySave(dims: nat, s: State, t: State)
    requires OnDisk(s) && ManifestOk(s) && FileOk(dims, s) && LogOk(s) && Next(dims, s, SaveManifest, t)
    ensures OnDisk(t)
  {
    hide Next, AllIn, SealedPairs, DiskPairs, Elems, LogOk, FileOk, Flushed, SavedManifest, InFlight, ShardsEmpty,
         Manifest.Plain;
    DiskBySave(dims, s, t);
    FlushedStep(dims, s, SaveManifest, t);
    SaveChanges(dims, s, t);
    PatchedIsDrained(dims, s);
    NoSealed();
  }

  lemma PatchedIsDrained(dims: nat, s: State)
    requires FileOk(dims, s) && s.phase.Patched?
    ensures AllIn(s.shards) == {}
  {
    AllInNothing(s.shards);
  }

  lemma SaveChanges(dims: nat, s: State, t: State)
    requires Next(dims, s, SaveManifest, t)
    ensures s.phase.Patched? && t.phase == Recorded(s.phase.name, s.phase.entries)
    ensures InFlight(t.phase) == InFlight(s.phase) && t.shards == s.shards && t.sealed == s.sealed
  {
    hide Manifest.Save, LoadedNames, Elems;
  }

  lemma OnDiskByOpening(dims: nat, s: State, t: State)
    requires OnDisk(s) && LogOk(s) && FileOk(dims, s) && Next(dims, s, OpenSealed, t)
    ensures OnDisk(t)
  {
    hide Next, AllIn, SealedPairs, DiskPairs, FilePairs, LogOk, Elems, FileOk, Flushed, HeldMoves, InFlight;
    DiskOtherwise(dims, s, OpenSealed, t);
    HeldByOpening(dims, s, t);
    OpeningChanges(dims, s, t);
    IdleHoldsNothing(t);
    FlushedStep(dims, s, OpenSealed, t);
    EmptyLogFlushesNothing(dims, s);
  }

  lemma IdleHoldsNothing(s: State)
    requires s.phase == Idle
    ensures InFlight(s.phase) == {}
  {
  }

  lemma EmptyLogFlushesNothing(dims: nat, s: State)
    requires FileOk(dims, s) && s.phase.LogReset?
    ensures Flushed(s) == {}
  {
  }

  lemma OpeningChanges(dims: nat, s: State, t: State)
    requires Next(dims, s, OpenSealed, t)
    ensures s.phase.LogReset? && s.phase.name in s.disk.files && t.phase == Idle && t.shards == s.shards
    ensures t.sealed == s.sealed + [s.disk.files[s.phase.name]] && t.dropped == s.dropped - InFlight(s.phase)
    ensures t.nextId == s.nextId
  {
    hide Elems;
  }

  lemma OnDiskByFileStep(dims: nat, s: State, step: Step, t: State)
    requires OnDisk(s) && LogOk(s) && FileOk(dims, s) && Next(dims, s, step, t) && FileStep(step)
    ensures OnDisk(t)
  {
    hide AllIn, SealedPairs, DiskPairs, InFlight, LogOk, FileOk, Next, Flushed, Elems;
    DiskByFileStep(dims, s, step, t);
    FlushedStep(dims, s, step, t);
    FileStepChanges(dims, s, step, t);
  }

  lemma OnDiskOtherwise(dims: nat, s: State, step: Step, t: State)
    requires OnDisk(s) && LogOk(s) && Next(dims, s, step, t) && s.phase != Down && !FileStep(step)
    requires step.BeginAuto? || step.BeginExplicit? || step.LogOne? || step.BeginCompaction? || step.EndEmpty? ||
             step.AbortCompaction?
    ensures OnDisk(t)
  {
    hide Next, AllIn, SealedPairs, DiskPairs, LogOk, Flushed, Elems, InFlight;
    DiskOtherwise(dims, s, step, t);
    FlushedStep(dims, s, step, t);
    OtherChanges(dims, s, step, t);
  }

  lemma OtherChanges(dims: nat, s: State, step: Step, t: State)
    requires Next(dims, s, step, t)
    requires step.BeginAuto? || step.BeginExplicit? || step.LogOne? || step.BeginCompaction? || step.EndEmpty? ||
             step.AbortCompaction?
    ensures t.shards == s.shards && t.sealed == s.sealed && t.phase != Down
    ensures t.phase.Logging? || InFlight(t.phase) == {}
  {
    if step.BeginAuto? || step.BeginExplicit? {
      hide Next;
      BeginsKeeps(dims, s, step, t);
    } else {
      hide AllIn, SealedPairs, Encode, Visible;
      NoElems();
      hide Elems;
    }
  }

  lemma OnDiskKept(dims: nat, s: State, step: Step, t: State)
    requires Inv(dims, s) && Next(dims, s, step, t)
    ensures OnDisk(t)
  {
    UpHasNoReopen(dims, s, step, t);
    hide LogOk, FlushedOk, OnlyAppended, ManifestOk, FileOk, OnDisk, BatchOk, Next, FileStep;
    match step {
      case DrainOne => OnDiskByDraining(dims, s, t);
      case PublishOne(k) => OnDiskByPublishing(dims, s, k, t);
      case CommitLog => OnDiskByCommit(dims, s, t);
      case ResetLog => OnDiskByReset(dims, s, t);
      case SaveManifest => OnDiskBySave(dims, s, t);
      case OpenSealed => OnDiskByOpening(dims, s, t);
      case Reopen(_, _) => MemoryByReopen(dims, s, step, t);
      case CrashAt(_) => CrashTakesDown(dims, s, step, t);
      case _ => if FileStep(step) { OnDiskByFileStep(dims, s, step, t); } else { OnDiskOtherwise(dims, s, step, t); }
    }
  }

  lemma MemoryKept(dims: nat, s: State, step: Step, t: State)
    requires Inv(dims, s) && Next(dims, s, step, t)
    ensures InMemory(t)
  {
    hide LogOk, FlushedOk, OnlyAppended, ManifestOk, FileOk, OnDisk, BatchOk, Next, Mirrored;
    UpHasNoReopen(dims, s, step, t);
    if step.Reopen? {
      MemoryByReopen(dims, s, step, t);
    } else if step.CrashAt? {
      CrashTakesDown(dims, s, step, t);
    } else {
      MemoryWhileUp(dims, s, step, t);
    }
  }

  lemma CrashTakesDown(dims: nat, s: State, step: Step, t: State)
    requires Next(dims, s, step, t)
    ensures step.CrashAt? <==> t.phase == Down
    ensures step.CrashAt? ==> t.dropped == {}
  {
    hide AllIn, SealedPairs, Elems, Encode, InFlight, Visible, OpenAll, Log, FirstPass, SecondPass;
  }
}
