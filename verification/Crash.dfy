/** The durable index as a machine of small steps over the bytes on disk, with a process crash possible
    between any two of them. */
module Crash {
  import opened Options
  import opened Bytes
  import opened Wal
  import Segments
  import Manifest

  /** An (identifier, vector) pair, as the log records it. */
  type Pair = WalEntry

  datatype Disk = Disk(wal: seq<byte>, files: map<string, seq<byte>>, manifest: Option<string>)

  /** Where the running operation stands. */
  datatype Phase =
    | Down
    | Idle
    | Logging(batch: seq<Pair>, logged: nat)
    | Publishing(batch: seq<Pair>, published: nat)
    | Draining(drained: nat, entries: seq<Pair>)
    | Created(name: string, entries: seq<Pair>, written: nat)
    | FirstPassed(name: string, entries: seq<Pair>, patched: nat)
    | Patched(name: string, entries: seq<Pair>)
    | Recorded(name: string, entries: seq<Pair>)
    | LogReset(name: string, entries: seq<Pair>)

  /** Disk, memory, and the histories: the entries of the log with its buffer, of which the first `durable` are
      flushed; the pairs ever committed and ever appended; and those that a failed compaction took out of memory. */
  datatype State = State(
    disk: Disk, buffer: seq<byte>, shards: seq<seq<Pair>>, sealed: seq<seq<byte>>, nextId: nat, phase: Phase,
    log: seq<Pair>, durable: nat, committed: set<Pair>, appended: set<Pair>, dropped: set<Pair>)

  datatype Step =
    | BeginAuto(vectors: seq<seq<word>>)
    | BeginExplicit(id: u64, vector: seq<word>)
    | LogOne
    | CommitLog
    | PublishOne(shard: nat)
    | BeginCompaction
    | DrainOne
    | EndEmpty
    | CreateFile(name: string)
    | WriteUpTo(size: nat)
    | PatchUpTo(count: nat)
    | SaveManifest
    | ResetLog
    | OpenSealed
    | AbortCompaction
    | CrashAt(cut: nat)
    | Reopen(found: seq<string>, layout: seq<seq<Pair>>)

  const NUM_SHARDS: nat := 8
  const U64_MAX: nat := 0xFFFF_FFFF_FFFF_FFFF

  // ---- what is stored where ----

  ghost function Elems(es: seq<Pair>): set<Pair> {
    set e | e in es
  }

  ghost function AllIn(ss: seq<seq<Pair>>): set<Pair> {
    set i, e | 0 <= i < |ss| && e in ss[i] :: e
  }

  ghost function FilePairs(b: seq<byte>): set<Pair> {
    set p | p in Segments.VisiblePairs(b) :: WalEntry(p.0, p.1)
  }

  ghost function SealedPairs(sealed: seq<seq<byte>>): set<Pair> {
    set i, e | 0 <= i < |sealed| && e in FilePairs(sealed[i]) :: e
  }

  function NodesOf(entries: seq<Pair>): (ns: seq<Segments.Node>)
    ensures |ns| == |entries|
    ensures forall i :: 0 <= i < |ns| ==> ns[i] == Segments.Node(entries[i].id, 0, [[]], entries[i].vector)
  {
    seq(|entries|, i requires 0 <= i < |entries| => Segments.Node(entries[i].id, 0, [[]], entries[i].vector))
  }

  /** The names a manifest file lists; an unreadable one counts as missing. */
  function LoadedNames(manifest: Option<string>): Option<seq<string>> {
    match manifest
    case None => None
    case Some(text) =>
      match Manifest.Parse(Manifest.SplitLines(text))
      case Segments(names) => Some(names)
      case _ => None
  }

  /** The files that the next open will read: those listed, or every one if there is no manifest. */
  ghost function Listed(disk: Disk): set<string> {
    match LoadedNames(disk.manifest)
    case Some(names) => set n | n in names
    case None => disk.files.Keys
  }

  ghost function DiskPairs(disk: Disk): set<Pair> {
    set n, e | n in Listed(disk) && n in disk.files && e in FilePairs(disk.files[n]) :: e
  }

  /** Everything a search of the running index can return. */
  ghost function Visible(s: State): set<Pair> {
    AllIn(s.shards) + SealedPairs(s.sealed)
  }

  /** Logged pairs held by the running operation instead of a shard. */
  ghost function InFlight(phase: Phase): set<Pair> {
    match phase
    case Down => {}
    case Idle => {}
    case Logging(batch, n) => Elems(if n <= |batch| then batch[..n] else [])
    case Publishing(batch, n) => Elems(if n <= |batch| then batch[n..] else [])
    case Draining(_, entries) => Elems(entries)
    case Created(_, entries, _) => Elems(entries)
    case FirstPassed(_, entries, _) => Elems(entries)
    case Patched(_, entries) => Elems(entries)
    case Recorded(_, entries) => Elems(entries)
    case LogReset(_, entries) => Elems(entries)
  }

  /** Everything in memory, or taken out of it. */
  ghost function Held(s: State): set<Pair> {
    Visible(s) + InFlight(s.phase) + s.dropped
  }

  /** The pairs of the flushed log. */
  ghost function Flushed(s: State): set<Pair> {
    Elems(if s.durable <= |s.log| then s.log[..s.durable] else [])
  }

  /** What the next open shows whatever part of the buffer is lost. */
  ghost function Stored(s: State): set<Pair> {
    Flushed(s) + DiskPairs(s.disk)
  }

  // ---- the steps ----

  function Numbered(vectors: seq<seq<word>>, id: nat): (batch: seq<Pair>)
    requires id + |vectors| <= U64_MAX
    ensures |batch| == |vectors|
    ensures forall i :: 0 <= i < |batch| ==> batch[i] == WalEntry(id + i, vectors[i])
  {
    seq(|vectors|, i requires 0 <= i < |vectors| => WalEntry(id + i, vectors[i]))
  }

  function OpenAll(disk: Disk, names: seq<string>): seq<seq<byte>> {
    if names == [] then []
    else
      var n := names[|names| - 1];
      OpenAll(disk, names[..|names| - 1]) +
      if n in disk.files && Segments.Open(disk.files[n]).Got? then [disk.files[n]] else []
  }

  function SatNext(id: nat): nat {
    if id + 1 < U64_MAX then id + 1 else U64_MAX
  }

  /** The counter after an open: one above the greatest identifier found, and at least one. */
  ghost predicate IsNextId(pairs: set<Pair>, next: nat) {
    && 1 <= next
    && (forall e :: e in pairs ==> SatNext(e.id) <= next)
    && (next == 1 || exists e :: e in pairs && next == SatNext(e.id))
  }

  /** Starting an insertion: the identifiers are drawn, nothing is written yet. */
  ghost predicate Begins(dims: nat, s: State, batch: seq<Pair>, next: nat, t: State) {
    && s.phase == Idle
    && (forall e :: e in batch ==> |e.vector| == dims && e.id < U64_MAX)
    && t == s.(phase := Logging(batch, 0), nextId := next)
  }

  function WithFile(s: State, name: string, b: seq<byte>, phase: Phase): State {
    s.(disk := s.disk.(files := s.disk.files[name := b]), phase := phase)
  }

  function FirstPass(dims: nat, entries: seq<Pair>): seq<byte> {
    Segments.FirstPassBytes(dims, NodesOf(entries))
  }

  function SecondPass(dims: nat, entries: seq<Pair>, n: nat): seq<byte>
    requires n <= |entries|
  {
    Segments.PatchedBytes(dims, NodesOf(entries), n)
  }

  /** A compaction that has drained every shard, some entry among them, returns an error if any call on a file
      fails; the entries that it held are gone from memory. */
  predicate MayFail(s: State) {
    match s.phase
    case Draining(n, entries) => n == |s.shards| && entries != []
    case Created(_, _, _) => true
    case FirstPassed(_, _, _) => true
    case Patched(_, _) => true
    case Recorded(_, _) => true
    case LogReset(_, _) => true
    case _ => false
  }

  /** One step of the machine.  The buffered writer may leave any front part of the first pass behind, and any
      number of patched table entries, which it never splits.  Only identifiers below the 64-bit maximum are
      inserted. */
  ghost predicate Next(dims: nat, s: State, step: Step, t: State) {
    match step
    case BeginAuto(vectors) =>
      s.nextId + |vectors| <= U64_MAX && Begins(dims, s, Numbered(vectors, s.nextId), s.nextId + |vectors|, t)
    case BeginExplicit(id, vector) =>
      Begins(dims, s, [WalEntry(id, vector)], if s.nextId < SatNext(id) then SatNext(id) else s.nextId, t)
    case LogOne =>
      s.phase.Logging? && s.phase.logged < |s.phase.batch| &&
      var e := s.phase.batch[s.phase.logged];
      t == s.(buffer := s.buffer + Encode(e), log := s.log + [e], appended := s.appended + {e},
              phase := Logging(s.phase.batch, s.phase.logged + 1))
    case CommitLog =>
      s.phase.Logging? && s.phase.logged == |s.phase.batch| &&
      t == s.(disk := s.disk.(wal := s.disk.wal + s.buffer), buffer := [], durable := |s.log|,
              committed := s.committed + Elems(s.log), phase := Publishing(s.phase.batch, 0))
    case PublishOne(shard) =>
      s.phase.Publishing? && shard < |s.shards| && s.phase.published <= |s.phase.batch| &&
      if s.phase.published == |s.phase.batch| then t == s.(phase := Idle)
      else
        var e := s.phase.batch[s.phase.published];
        t == s.(shards := s.shards[shard := s.shards[shard] + [e]], dropped := s.dropped - {e},
                phase := Publishing(s.phase.batch, s.phase.published + 1))
    case BeginCompaction =>
      s.phase == Idle && t == s.(phase := Draining(0, []))
    case DrainOne =>
      s.phase.Draining? && s.phase.drained < |s.shards| &&
      t == s.(shards := s.shards[s.phase.drained := []],
              phase := Draining(s.phase.drained + 1, s.phase.entries + s.shards[s.phase.drained]))
    case EndEmpty =>
      s.phase.Draining? && s.phase.drained == |s.shards| && s.phase.entries == [] && t == s.(phase := Idle)
    case CreateFile(name) =>
      s.phase.Draining? && s.phase.drained == |s.shards| && s.phase.entries != [] &&
      name !in s.disk.files && Manifest.Plain(name) &&
      t == WithFile(s, name, [], Created(name, s.phase.entries, 0))
    case WriteUpTo(n) =>
      s.phase.Created? && Segments.Storable(dims, NodesOf(s.phase.entries)) &&
      var whole := FirstPass(dims, s.phase.entries);
      s.phase.written <= n <= |whole| &&
      t == WithFile(s, s.phase.name, whole[..n],
                    if n == |whole| then FirstPassed(s.phase.name, s.phase.entries, 0)
                    else Created(s.phase.name, s.phase.entries, n))
    case PatchUpTo(n) =>
      s.phase.FirstPassed? && Segments.Storable(dims, NodesOf(s.phase.entries)) &&
      s.phase.patched <= n <= |s.phase.entries| &&
      t == WithFile(s, s.phase.name, SecondPass(dims, s.phase.entries, n),
                    if n == |s.phase.entries| then Patched(s.phase.name, s.phase.entries)
                    else FirstPassed(s.phase.name, s.phase.entries, n))
    case SaveManifest =>
      s.phase.Patched? &&
      var names := match LoadedNames(s.disk.manifest) case None => [] case Some(ns) => ns;
      t == s.(disk := s.disk.(manifest := Some(Manifest.Save(names + [s.phase.name]))),
              phase := Recorded(s.phase.name, s.phase.entries))
    case ResetLog =>
      s.phase.Recorded? &&
      t == s.(disk := s.disk.(wal := []), buffer := [], log := [], durable := 0,
              phase := LogReset(s.phase.name, s.phase.entries))
    case OpenSealed =>
      s.phase.LogReset? && s.phase.name in s.disk.files &&
      t == s.(sealed := s.sealed + [s.disk.files[s.phase.name]], dropped := s.dropped - Elems(s.phase.entries),
              phase := Idle)
    case AbortCompaction =>
      MayFail(s) && t == s.(phase := Idle, dropped := s.dropped + (InFlight(s.phase) - Visible(s)))
    case CrashAt(cut) =>
      s.phase != Down && |s.disk.wal| <= cut <= |s.disk.wal + s.buffer| &&
      t == s.(disk := s.disk.(wal := (s.disk.wal + s.buffer)[..cut]), buffer := [], shards := [], sealed := [],
              dropped := {}, phase := Down)
    case Reopen(found, layout) =>
      && s.phase == Down && Opens(s)
      && (forall n :: n in found <==> n in s.disk.files)
      && |layout| == NUM_SHARDS && AllIn(layout) == Elems(Replay(s.disk.wal, 0).entries)
      && var names := match LoadedNames(s.disk.manifest) case None => found case Some(ns) => ns;
         var disk := if LoadedNames(s.disk.manifest).None? && found != []
                     then s.disk.(manifest := Some(Manifest.Save(found))) else s.disk;
         var log := Replay(s.disk.wal, 0).entries;
         && IsNextId(AllIn(layout) + SealedPairs(OpenAll(disk, names)), t.nextId)
         && t == s.(disk := disk, shards := layout, sealed := OpenAll(disk, names), nextId := t.nextId,
                    phase := Idle, log := log, durable := |log|)
  }

  /** Opening fails on a log that does not replay cleanly. */
  ghost predicate Opens(s: State) {
    Replay(s.disk.wal, 0).outcome == Clean
  }

  ghost predicate Initial(s: State) {
    && s.disk == Disk([], map[], None) && s.buffer == [] && s.sealed == [] && s.nextId == 1 && s.phase == Idle
    && s.shards == seq(NUM_SHARDS, _ => [])
    && s.log == [] && s.durable == 0 && s.committed == {} && s.appended == {} && s.dropped == {}
  }

  // ---- the invariant ----

  /** The log file holds the encoded log, as far as it was flushed. */
  ghost predicate LogOk(s: State) {
    && AllFit(s.log) && s.durable <= |s.log|
    && if s.phase == Down then
         s.buffer == [] && |s.disk.wal| <= |Log(s.log)| && s.disk.wal == Log(s.log)[..|s.disk.wal|] &&
         Boundary(s.log, s.durable) <= |s.disk.wal|
       else
         s.disk.wal == Log(s.log[..s.durable]) && s.disk.wal + s.buffer == Log(s.log)
  }

  /** Which part of the log is flushed, phase by phase. */
  ghost predicate FlushedOk(s: State) {
    match s.phase
    case Down => true
    case Logging(batch, n) =>
      n <= |batch| && s.durable + n == |s.log| && s.log[s.durable..] == batch[..n]
    case Publishing(batch, n) => n <= |batch| && s.durable == |s.log|
    case _ => s.durable == |s.log|
  }

  /** Everything stored anywhere was appended at some time. */
  ghost predicate OnlyAppended(dims: nat, s: State) {
    && Elems(s.log) <= s.appended && s.committed <= s.appended
    && AllIn(s.shards) <= s.appended && InFlight(s.phase) <= s.appended && SealedPairs(s.sealed) <= s.appended
    && (forall n :: n in s.disk.files ==> FilePairs(s.disk.files[n]) <= s.appended)
    && forall e :: e in s.appended ==> |e.vector| == dims && e.id < U64_MAX
  }

  /** There is no manifest, or one that was saved from a list of plain names. */
  ghost predicate SavedManifest(manifest: Option<string>) {
    match LoadedNames(manifest)
    case None => manifest == None
    case Some(names) => manifest == Some(Manifest.Save(names)) && forall n :: n in names ==> Manifest.Plain(n)
  }

  /** The manifest lists plain names, as the files have.  Before the first one is saved nothing is sealed, and
      the log has never been reset. */
  ghost predicate ManifestOk(s: State) {
    && (forall n :: n in s.disk.files ==> Manifest.Plain(n))
    && SavedManifest(s.disk.manifest)
    && (s.disk.manifest == None ==>
          s.sealed == [] && !s.phase.Recorded? && !s.phase.LogReset? && s.committed <= Flushed(s))
  }

  ghost predicate ShardsEmpty(s: State) {
    forall i :: 0 <= i < |s.shards| ==> s.shards[i] == []
  }

  /** The file of the running compaction, once every shard is drained. */
  ghost predicate FileOk(dims: nat, s: State) {
    match s.phase
    case Draining(n, entries) => n <= |s.shards| && forall i :: 0 <= i < n ==> s.shards[i] == []
    case Created(name, entries, written) =>
      ShardsEmpty(s) && entries != [] && name in s.disk.files && FilePairs(s.disk.files[name]) <= Elems(entries)
      && written <= |FirstPass(dims, entries)| && s.disk.files[name] == FirstPass(dims, entries)[..written]
    case FirstPassed(name, entries, patched) =>
      ShardsEmpty(s) && entries != [] && name in s.disk.files && FilePairs(s.disk.files[name]) <= Elems(entries)
      && patched <= |entries| && s.disk.files[name] == SecondPass(dims, entries, patched)
    case Patched(name, entries) =>
      ShardsEmpty(s) && name in s.disk.files && FilePairs(s.disk.files[name]) == Elems(entries)
    case Recorded(name, entries) =>
      ShardsEmpty(s) && name in s.disk.files && name in Listed(s.disk)
      && FilePairs(s.disk.files[name]) == Elems(entries)
    case LogReset(name, entries) =>
      s.log == [] && name in s.disk.files && FilePairs(s.disk.files[name]) == Elems(entries)
    case _ => true
  }

  /** While the index is up, what is on disk is in memory too, unless a failed compaction dropped it, and every
      identifier in use is below the counter. */
  ghost predicate InMemory(s: State) {
    && (s.phase == Down ==> s.dropped == {})
    && (s.phase != Down ==> Mirrored(s))
  }

  ghost predicate Mirrored(s: State) {
    && Elems(s.log) + DiskPairs(s.disk) <= Held(s)
    && s.dropped !! Visible(s)
    && forall e :: e in Held(s) ==> e.id < s.nextId
  }

  /** What is in memory is on disk, but for the batch that is being logged. */
  ghost predicate OnDisk(s: State) {
    s.phase != Down ==>
      && SealedPairs(s.sealed) <= DiskPairs(s.disk)
      && AllIn(s.shards) <= Stored(s)
      && (!s.phase.Logging? ==> InFlight(s.phase) <= Stored(s))
  }

  /** The batch being logged. */
  ghost predicate BatchOk(dims: nat, s: State) {
    s.phase.Logging? ==>
      forall e :: e in s.phase.batch ==> |e.vector| == dims && e.id < U64_MAX && e.id < s.nextId
  }

  ghost predicate Inv(dims: nat, s: State) {
    && dims < 0x1_0000_0000
    && LogOk(s) && FlushedOk(s) && OnlyAppended(dims, s) && ManifestOk(s) && FileOk(dims, s)
    && InMemory(s) && OnDisk(s) && BatchOk(dims, s)
  }

  lemma InitialInv(dims: nat, s: State)
    requires Initial(s) && dims < 0x1_0000_0000
    ensures Inv(dims, s)
  {
    assert Log([]) == [];
    assert s.log[..0] == [];
  }

  lemma BatchKept(dims: nat, s: State, step: Step, t: State)
    requires BatchOk(dims, s) && Next(dims, s, step, t)
    ensures BatchOk(dims, t)
  {
    hide Log, Encode, Replay, Opens, FirstPass, SecondPass, Segments.Storable, OpenAll, IsNextId, AllIn, SealedPairs,
         Elems, Manifest.Plain, Manifest.Save, InFlight, Visible, LoadedNames;
  }

  lemma FlushedKept(dims: nat, s: State, step: Step, t: State)
    requires FlushedOk(s) && LogOk(s) && Next(dims, s, step, t)
    ensures FlushedOk(t)
  {
    if step.BeginAuto? || step.BeginExplicit? {
      hide Next;
      BeginsKeeps(dims, s, step, t);
      assert s.log[s.durable..] == [] == t.phase.batch[..0];
    } else if step.LogOne? {
      var n := s.phase.logged;
      assert t.log[s.durable..] == s.log[s.durable..] + [s.phase.batch[n]];
      assert s.phase.batch[..n + 1] == s.phase.batch[..n] + [s.phase.batch[n]];
    } else {
      FlushedOtherwise(dims, s, step, t);
    }
  }

  lemma FlushedOtherwise(dims: nat, s: State, step: Step, t: State)
    requires FlushedOk(s) && Next(dims, s, step, t) && !step.BeginAuto? && !step.BeginExplicit? && !step.LogOne?
    ensures FlushedOk(t)
  {
    hide Encode, Replay, Opens, FirstPass, SecondPass, Segments.Storable, OpenAll, IsNextId, AllIn, SealedPairs, Elems,
         Manifest.Plain, Manifest.Save, InFlight, Visible, LoadedNames;
  }

  lemma LoggedOne(wal: seq<byte>, buffer: seq<byte>, log: seq<Pair>, durable: nat, e: Pair)
    requires wal + buffer == Log(log) && AllFit(log) && Fits(e) && durable <= |log|
    ensures wal + (buffer + Encode(e)) == Log(log + [e]) && AllFit(log + [e])
    ensures (log + [e])[..durable] == log[..durable]
  {
    hide Encode, Log;
    LogAppend(log, [e]);
    SingleLog(e);
    Associate(wal, buffer, Encode(e));
  }

  lemma SingleLog(e: Pair)
    ensures Log([e]) == Encode(e)
  {
    hide Encode;
    assert [e][1..] == [];
    assert Log([e]) == Encode(e) + [];
  }

  lemma Associate(a: seq<byte>, b: seq<byte>, c: seq<byte>)
    ensures (a + b) + c == a + (b + c)
  {
  }

  lemma LogKept(dims: nat, s: State, step: Step, t: State)
    requires dims < 0x1_0000_0000 && LogOk(s) && FlushedOk(s) && BatchOk(dims, s) && Next(dims, s, step, t)
    ensures LogOk(t)
  {
    hide LogOk, FlushedOk, BatchOk, Next;
    match step {
      case LogOne => LogGrows(dims, s, t);
      case Reopen(_, _) => LogReopened(dims, s, step, t);
      case CrashAt(cut) => LogCut(dims, s, cut, t);
      case _ => LogOtherwise(dims, s, step, t);
    }
  }

  lemma LogCut(dims: nat, s: State, cut: nat, t: State)
    requires LogOk(s) && Next(dims, s, CrashAt(cut), t)
    ensures LogOk(t)
  {
    hide Log, AllFit;
    CrashedLog(s, cut);
  }

  lemma LogGrows(dims: nat, s: State, t: State)
    requires dims < 0x1_0000_0000 && LogOk(s) && FlushedOk(s) && BatchOk(dims, s) && Next(dims, s, LogOne, t)
    ensures LogOk(t)
  {
    hide Log, Encode, AllFit;
    LoggedOne(s.disk.wal, s.buffer, s.log, s.durable, s.phase.batch[s.phase.logged]);
  }

  lemma LogReopened(dims: nat, s: State, step: Step, t: State)
    requires LogOk(s) && Next(dims, s, step, t) && step.Reopen?
    ensures LogOk(t)
  {
    hide Log, Replay, AllFit, Opens, OpenAll, IsNextId, AllIn, SealedPairs, Elems, Manifest.Save, LoadedNames;
    ReopenedLog(s);
    assert t.log[..t.durable] == t.log && t.disk.wal + [] == t.disk.wal;
  }

  lemma LogOtherwise(dims: nat, s: State, step: Step, t: State)
    requires LogOk(s) && FlushedOk(s) && Next(dims, s, step, t)
    requires !step.LogOne? && !step.Reopen? && !step.CrashAt?
    ensures LogOk(t)
  {
    hide Log, Encode, AllFit, FirstPass, SecondPass, Segments.Storable, AllIn, SealedPairs, Elems, Manifest.Plain,
         Manifest.Save, LoadedNames, Visible, InFlight;
    assert s.log[..|s.log|] == s.log;
    EmptyLog();
    if step.BeginAuto? || step.BeginExplicit? {
      hide Next;
      BeginsKeeps(dims, s, step, t);
    }
  }

  lemma EmptyLog()
    ensures Log([]) == [] && AllFit([])
  {
  }

  lemma CrashedLog(s: State, cut: nat)
    requires LogOk(s) && s.phase != Down && |s.disk.wal| <= cut <= |s.disk.wal + s.buffer|
    ensures (s.disk.wal + s.buffer)[..cut] == Log(s.log)[..cut] && Boundary(s.log, s.durable) <= cut <= |Log(s.log)|
  {
  }

  lemma {:induction false} BoundaryGrows(es: seq<Pair>, i: nat, j: nat)
    requires i <= j <= |es|
    ensures Boundary(es, i) <= Boundary(es, j)
  {
    if i < j {
      BoundaryGrows(es, i, j - 1);
      SplitLog(es, j - 1);
    }
  }

  /** A clean reopen finds a prefix of the log that contains everything flushed. */
  lemma ReopenedLog(s: State)
    requires LogOk(s) && s.phase == Down && Opens(s)
    ensures var log := Replay(s.disk.wal, 0).entries;
            s.durable <= |log| <= |s.log| && log == s.log[..|log|] && s.disk.wal == Log(log) && AllFit(log)
  {
    hide Replay, Encode, Log;
    var n := |s.disk.wal|;
    var i := SomeBoundary(s.log, n);
    PrefixReplay(s.log, i, n);
    SplitLog(s.log, i);
    if i < s.durable {
      BoundaryGrows(s.log, i + 1, s.durable);
    }
  }

  // ---- sets of pairs ----

  lemma ElemsAppend(a: seq<Pair>, b: seq<Pair>)
    ensures Elems(a + b) == Elems(a) + Elems(b)
  {
  }

  lemma AllInGrow(ss: seq<seq<Pair>>, k: nat, e: Pair)
    requires k < |ss|
    ensures AllIn(ss[k := ss[k] + [e]]) == AllIn(ss) + {e}
  {
    var tt := ss[k := ss[k] + [e]];
    forall x | x in AllIn(ss) + {e} ensures x in AllIn(tt) {
      if x == e {
        assert e in tt[k];
      } else {
        var i :| 0 <= i < |ss| && x in ss[i];
        assert x in tt[i];
      }
    }
  }

  lemma AllInDrain(ss: seq<seq<Pair>>, k: nat)
    requires k < |ss|
    ensures AllIn(ss) == AllIn(ss[k := []]) + Elems(ss[k])
  {
    var tt := ss[k := []];
    forall x | x in AllIn(ss) ensures x in AllIn(tt) + Elems(ss[k]) {
      var i :| 0 <= i < |ss| && x in ss[i];
      if i != k { assert x in tt[i]; }
    }
  }

  lemma AllInNothing(ss: seq<seq<Pair>>)
    requires forall i :: 0 <= i < |ss| ==> ss[i] == []
    ensures AllIn(ss) == {}
  {
  }

  lemma SealedAppend(sealed: seq<seq<byte>>, b: seq<byte>)
    ensures SealedPairs(sealed + [b]) == SealedPairs(sealed) + FilePairs(b)
  {
    hide FilePairs;
    var all := sealed + [b];
    forall x | x in SealedPairs(sealed) + FilePairs(b) ensures x in SealedPairs(all) {
      if x in FilePairs(b) {
        assert all[|sealed|] == b;
      } else {
        var i :| 0 <= i < |sealed| && x in FilePairs(sealed[i]);
        assert all[i] == sealed[i];
      }
    }
  }

  lemma WrittenFile(dims: nat, entries: seq<Pair>)
    requires Segments.Storable(dims, NodesOf(entries))
    ensures FilePairs(Segments.SegmentBytes(dims, NodesOf(entries))) == Elems(entries)
  {
    hide Segments.Storable, Segments.SegmentBytes, Segments.VisiblePairs;
    var b, ns := Segments.SegmentBytes(dims, NodesOf(entries)), NodesOf(entries);
    Segments.WrittenFileShowsAll(dims, ns);
    forall e | e in Elems(entries) ensures e in FilePairs(b) {
      var i :| 0 <= i < |entries| && entries[i] == e;
      assert (ns[i].id, ns[i].vector) in Segments.PairsOf(ns);
    }
  }

  lemma PairsBelow(a: seq<byte>, b: seq<byte>)
    requires Segments.VisiblePairs(a) <= Segments.VisiblePairs(b)
    ensures FilePairs(a) <= FilePairs(b)
  {
    hide Segments.VisiblePairs;
  }

  lemma PairsOfNodes(b: seq<byte>, entries: seq<Pair>)
    requires Segments.VisiblePairs(b) <= Segments.PairsOf(NodesOf(entries))
    ensures FilePairs(b) <= Elems(entries)
  {
    hide Segments.VisiblePairs;
    forall e | e in FilePairs(b) ensures e in Elems(entries) {
      var i :| 0 <= i < |entries| && (e.id, e.vector) == (NodesOf(entries)[i].id, NodesOf(entries)[i].vector);
      assert entries[i] == e;
    }
  }

  /** A file abandoned at any byte of the first pass shows nothing foreign, and no less than it did before. */
  lemma PartOfFirstPass(dims: nat, entries: seq<Pair>, m: nat, n: nat)
    requires Segments.Storable(dims, NodesOf(entries)) && m <= n <= |FirstPass(dims, entries)|
    ensures FilePairs(FirstPass(dims, entries)[..m]) <= FilePairs(FirstPass(dims, entries)[..n]) <= Elems(entries)
  {
    hide Segments.Storable, Segments.FirstPassBytes, Segments.PatchedBytes, Segments.VisiblePairs, FilePairs,
         Segments.PairsOf;
    var whole, ns := FirstPass(dims, entries), NodesOf(entries);
    Segments.PrefixShowsLess(whole[..n], m);
    assert whole[..n][..m] == whole[..m];
    Segments.PrefixShowsLess(whole, n);
    Segments.PatchedEnds(dims, ns);
    Segments.PatchedFileShows(dims, ns, 0);
    PairsBelow(whole[..m], whole[..n]);
    PairsOfNodes(whole[..n], entries);
  }

  /** The same for a file abandoned during the second pass. */
  lemma PartOfSecondPass(dims: nat, entries: seq<Pair>, m: nat, n: nat)
    requires Segments.Storable(dims, NodesOf(entries)) && m <= n <= |entries|
    ensures FilePairs(SecondPass(dims, entries, m)) <= FilePairs(SecondPass(dims, entries, n)) <= Elems(entries)
  {
    hide Segments.Storable, Segments.PatchedBytes, Segments.VisiblePairs, FilePairs, Segments.PairsOf;
    var ns := NodesOf(entries);
    Segments.PatchedFileShows(dims, ns, m);
    Segments.PatchedFileShows(dims, ns, n);
    Segments.ShownGrows(ns, m, n);
    PairsBelow(SecondPass(dims, entries, m), SecondPass(dims, entries, n));
    PairsOfNodes(SecondPass(dims, entries, n), entries);
  }

  lemma PassesMeet(dims: nat, entries: seq<Pair>)
    ensures SecondPass(dims, entries, 0) == FirstPass(dims, entries)
    ensures FirstPass(dims, entries)[..|FirstPass(dims, entries)|] == FirstPass(dims, entries)
    ensures FirstPass(dims, entries)[..0] == []
    ensures SecondPass(dims, entries, |entries|) == Segments.SegmentBytes(dims, NodesOf(entries))
  {
    Segments.PatchedEnds(dims, NodesOf(entries));
  }

  lemma EmptyFile()
    ensures FilePairs([]) == {}
  {
    Segments.EmptyFileShowsNothing();
  }

  /** Writing more of a file never hides what the next open would read. */
  lemma FileGrows(disk: Disk, name: string, b: seq<byte>)
    requires name in disk.files ==> FilePairs(disk.files[name]) <= FilePairs(b)
    ensures DiskPairs(disk) <= DiskPairs(disk.(files := disk.files[name := b]))
  {
    hide FilePairs, LoadedNames;
    var grown := disk.(files := disk.files[name := b]);
    forall e | e in DiskPairs(disk) ensures e in DiskPairs(grown) {
      var n :| n in Listed(disk) && n in disk.files && e in FilePairs(disk.files[n]);
      assert n in Listed(grown) && n in grown.files && e in FilePairs(grown.files[n]);
    }
  }

  lemma {:induction false} OpenedPairs(disk: Disk, names: seq<string>)
    ensures forall e :: e in SealedPairs(OpenAll(disk, names)) <==>
                        exists n :: n in names && n in disk.files && e in FilePairs(disk.files[n])
  {
    if names == [] {
      assert SealedPairs([]) == {};
    } else {
      var init, n := names[..|names| - 1], names[|names| - 1];
      OpenedPairs(disk, init);
      assert names == init + [n];
      if n in disk.files && Segments.Open(disk.files[n]).Got? {
        SealedAppend(OpenAll(disk, init), disk.files[n]);
      } else {
        assert n in disk.files ==> FilePairs(disk.files[n]) == {};
        assert OpenAll(disk, init) + [] == OpenAll(disk, init);
      }
    }
  }

  /** An open reads exactly the pairs of the listed files. */
  lemma OpenReadsListed(disk: Disk, names: seq<string>)
    requires forall n :: n in disk.files ==> (n in names <==> n in Listed(disk))
    ensures SealedPairs(OpenAll(disk, names)) == DiskPairs(disk)
  {
    hide FilePairs, LoadedNames, OpenAll, Listed;
    OpenedPairs(disk, names);
    forall e ensures e in SealedPairs(OpenAll(disk, names)) <==> e in DiskPairs(disk) {
      if n :| n in names && n in disk.files && e in FilePairs(disk.files[n]) {
        assert n in Listed(disk);
      }
    }
  }

  lemma SavedNames(names: seq<string>)
    requires forall n :: n in names ==> Manifest.Plain(n)
    ensures LoadedNames(Some(Manifest.Save(names))) == Some(names)
  {
    Manifest.ManifestReadsBack(names);
  }

  // ---- preservation ----

  predicate InsertStep(step: Step) {
    step.BeginAuto? || step.BeginExplicit? || step.LogOne? || step.CommitLog? || step.PublishOne?
  }

  predicate RestartStep(step: Step) {
    step.CrashAt? || step.Reopen?
  }

  /** The steps that write a segment file. */
  predicate FileStep(step: Step) {
    step.CreateFile? || step.WriteUpTo? || step.PatchUpTo?
  }

  /** What a step does to the log. */
  lemma LogStep(dims: nat, s: State, step: Step, t: State)
    requires Next(dims, s, step, t)
    ensures step.LogOne? ==> s.phase.Logging? && s.phase.logged < |s.phase.batch| &&
                             t.log == s.log + [s.phase.batch[s.phase.logged]] && t.nextId == s.nextId
    ensures !step.LogOne? && !step.ResetLog? && !step.Reopen? ==> t.log == s.log
    ensures step.ResetLog? ==> t.log == [] && t.durable == 0
    ensures step.CommitLog? ==> t.durable == |s.log| && t.committed == s.committed + Elems(s.log)
    ensures !step.CommitLog? && !step.ResetLog? && !step.Reopen? ==> t.durable == s.durable
    ensures !step.CommitLog? ==> t.committed == s.committed
  {
    hide AllIn, SealedPairs, Elems, Encode, Begins, InFlight, Visible, Replay, OpenAll, LoadedNames, FirstPass,
         SecondPass;
    if step.BeginAuto? || step.BeginExplicit? {
      BeginsKeeps(dims, s, step, t);
      hide Next;
    }
  }

  /** What a step does to the flushed part of the log. */
  ghost predicate FlushedMoves(s: State, step: Step, t: State) {
    && Flushed(s) <= Elems(s.log)
    && (step.CommitLog? ==> Flushed(t) == Elems(s.log) && t.committed == s.committed + Elems(s.log))
    && (!step.CommitLog? ==> t.committed == s.committed)
    && (step.ResetLog? ==> Flushed(t) == {})
    && (step.Reopen? ==> Flushed(s) <= Flushed(t) <= Elems(s.log))
    && (!step.CommitLog? && !step.ResetLog? && !step.Reopen? ==> Flushed(t) == Flushed(s))
  }

  lemma FlushedStep(dims: nat, s: State, step: Step, t: State)
    requires LogOk(s) && Next(dims, s, step, t)
    ensures FlushedMoves(s, step, t)
  {
    ElemsPrefix(s.log, s.durable);
    LogStep(dims, s, step, t);
    if step.Reopen? {
      FlushedByReopen(dims, s, step, t);
    } else {
      hide Next, LogOk;
      NoElems();
      if step.LogOne? {
        assert s.durable <= |s.log| ==> t.log[..s.durable] == s.log[..s.durable];
      }
      assert s.log[..|s.log|] == s.log;
      hide Elems;
    }
  }

  lemma FlushedByReopen(dims: nat, s: State, step: Step, t: State)
    requires LogOk(s) && Next(dims, s, step, t) && step.Reopen?
    ensures Flushed(s) <= Flushed(t) <= Elems(s.log) && t.committed == s.committed
  {
    hide Next, LogOk, Replay, LoadedNames, OpenAll, Opens, AllFit, Log;
    ReopenChanges(dims, s, step, t);
    ReopenedLog(s);
    PrefixesOfPrefix(s.log, s.durable, t.log);
    AllFlushed(t);
  }

  lemma AllFlushed(s: State)
    requires s.durable == |s.log|
    ensures Flushed(s) == Elems(s.log)
  {
    hide Elems;
    assert s.log[..|s.log|] == s.log;
  }

  lemma PrefixesOfPrefix(log: seq<Pair>, n: nat, part: seq<Pair>)
    requires n <= |part| <= |log| && part == log[..|part|]
    ensures Elems(log[..n]) <= Elems(part) <= Elems(log)
  {
    assert log[..n] == part[..n];
    ElemsPrefix(part, n);
    ElemsPrefix(log, |part|);
  }

  lemma ReopenChanges(dims: nat, s: State, step: Step, t: State)
    requires Next(dims, s, step, t) && step.Reopen?
    ensures s.phase == Down && Opens(s) && t.phase == Idle && t.dropped == s.dropped
    ensures t.log == Replay(s.disk.wal, 0).entries && t.durable == |t.log|
    ensures t.committed == s.committed && t.appended == s.appended && t.disk.files == s.disk.files
    ensures AllIn(t.shards) == Elems(t.log) && IsNextId(AllIn(t.shards) + SealedPairs(t.sealed), t.nextId)
    ensures t.sealed == OpenAll(t.disk, match LoadedNames(s.disk.manifest) case None => step.found case Some(ns) => ns)
    ensures t.disk.manifest == if LoadedNames(s.disk.manifest).None? && step.found != []
                               then Some(Manifest.Save(step.found)) else s.disk.manifest
    ensures forall n :: n in step.found <==> n in s.disk.files
  {
    hide Replay, Manifest.Save, AllIn, LoadedNames, OpenAll, IsNextId, SealedPairs, Elems, Opens;
  }

  lemma NoElems()
    ensures Elems([]) == {}
  {
  }

  lemma ManifestSaved(dims: nat, s: State, t: State)
    requires ManifestOk(s) && FileOk(dims, s) && Next(dims, s, SaveManifest, t)
    ensures ManifestOk(t)
  {
    hide Manifest.Plain, Manifest.Save, LoadedNames, FilePairs, Flushed;
    var names := match LoadedNames(s.disk.manifest) case None => [] case Some(ns) => ns;
    SavedNames(names + [s.phase.name]);
  }

  lemma ManifestReopened(dims: nat, s: State, step: Step, t: State)
    requires ManifestOk(s) && LogOk(s) && Next(dims, s, step, t) && step.Reopen?
    ensures ManifestOk(t)
  {
    hide Next, Replay, Manifest.Plain, Manifest.Save, LoadedNames, OpenAll, LogOk, Flushed, Elems, Opens;
    FlushedStep(dims, s, step, t);
    ReopenChanges(dims, s, step, t);
    NothingOpened(t.disk);
    if LoadedNames(s.disk.manifest).None? && step.found != [] {
      SavedNames(step.found);
    }
  }

  lemma NothingOpened(disk: Disk)
    ensures OpenAll(disk, []) == []
  {
  }

  lemma ManifestDuringFile(dims: nat, s: State, step: Step, t: State)
    requires ManifestOk(s) && FileOk(dims, s) && Next(dims, s, step, t) && FileStep(step)
    ensures ManifestOk(t)
  {
    hide Next, FileOk, Manifest.Plain, SavedManifest, Elems, FileStep, InFlight;
    FileStepChanges(dims, s, step, t);
    FileStepNames(dims, s, step, t);
  }

  lemma FileStepNames(dims: nat, s: State, step: Step, t: State)
    requires FileOk(dims, s) && Next(dims, s, step, t) && FileStep(step)
    ensures forall n :: n in t.disk.files ==> n in s.disk.files || Manifest.Plain(n)
  {
    hide Manifest.Plain, FilePairs, Segments.Storable, Segments.SegmentBytes, FirstPass, SecondPass, Elems;
  }

  lemma ManifestUntouched(dims: nat, s: State, step: Step, t: State)
    requires ManifestOk(s) && LogOk(s) && Next(dims, s, step, t)
    requires !FileStep(step) && !step.SaveManifest? && !step.Reopen?
    ensures ManifestOk(t)
  {
    hide Next, Manifest.Plain, SavedManifest, LogOk, Flushed, Elems, DiskPairs;
    FlushedStep(dims, s, step, t);
    DiskOtherwise(dims, s, step, t);
    SealedOtherwise(dims, s, step, t);
  }

  lemma SealedOtherwise(dims: nat, s: State, step: Step, t: State)
    requires Next(dims, s, step, t) && !FileStep(step) && !step.SaveManifest? && !step.Reopen?
    ensures t.phase.LogReset? ==> s.phase.Recorded?
    ensures !t.phase.Recorded?
    ensures t.sealed == s.sealed || t.sealed == [] || s.phase.LogReset?
    ensures step.ResetLog? ==> s.phase.Recorded?
  {
    hide AllIn, SealedPairs, Encode, Elems, Visible, InFlight;
    if step.BeginAuto? || step.BeginExplicit? {
      hide Next;
      BeginsKeeps(dims, s, step, t);
    }
  }

  lemma ManifestKept(dims: nat, s: State, step: Step, t: State)
    requires ManifestOk(s) && LogOk(s) && FileOk(dims, s) && Next(dims, s, step, t)
    ensures ManifestOk(t)
  {
    hide ManifestOk, FileOk, LogOk, Next;
    if step.SaveManifest? {
      ManifestSaved(dims, s, t);
    } else if step.Reopen? {
      ManifestReopened(dims, s, step, t);
    } else if FileStep(step) {
      ManifestDuringFile(dims, s, step, t);
    } else {
      ManifestUntouched(dims, s, step, t);
    }
  }

  lemma FileKept(dims: nat, s: State, step: Step, t: State)
    requires FileOk(dims, s) && ManifestOk(s) && Next(dims, s, step, t)
    ensures FileOk(dims, t)
  {
    hide FileOk, ManifestOk, Next;
    if FileStep(step) {
      FileWritten(dims, s, step, t);
    } else if step.SaveManifest? {
      FileSaved(dims, s, t);
    } else if step.BeginCompaction? || step.DrainOne? || step.ResetLog? {
      FileAsBefore(dims, s, step, t);
    } else {
      NoFile(dims, s, step, t);
    }
  }

  lemma FileAsBefore(dims: nat, s: State, step: Step, t: State)
    requires FileOk(dims, s) && Next(dims, s, step, t) && (step.BeginCompaction? || step.DrainOne? || step.ResetLog?)
    ensures FileOk(dims, t)
  {
    hide FilePairs, FirstPass, SecondPass, Elems;
  }

  lemma NoFile(dims: nat, s: State, step: Step, t: State)
    requires Next(dims, s, step, t) && !FileStep(step)
    requires !step.BeginCompaction? && !step.DrainOne? && !step.ResetLog? && !step.SaveManifest?
    ensures FileOk(dims, t)
  {
    hide Replay, AllIn, Encode, FilePairs, SealedPairs, OpenAll, Elems, LoadedNames, Visible, InFlight, FirstPass,
         SecondPass;
    if step.BeginAuto? || step.BeginExplicit? {
      hide Next;
      BeginsKeeps(dims, s, step, t);
    }
  }

  lemma FileSaved(dims: nat, s: State, t: State)
    requires FileOk(dims, s) && ManifestOk(s) && Next(dims, s, SaveManifest, t)
    ensures FileOk(dims, t)
  {
    hide Manifest.Plain, Manifest.Save, LoadedNames, FilePairs, FirstPass, SecondPass, Elems, Flushed;
    var names := match LoadedNames(s.disk.manifest) case None => [] case Some(ns) => ns;
    SavedNames(names + [s.phase.name]);
  }

  lemma FileWritten(dims: nat, s: State, step: Step, t: State)
    requires FileOk(dims, s) && Next(dims, s, step, t) && FileStep(step)
    ensures FileOk(dims, t)
  {
    hide Manifest.Plain, FilePairs, Segments.Storable, Segments.SegmentBytes, FirstPass, SecondPass, Elems;
    var entries := s.phase.entries;
    PassesMeet(dims, entries);
    match step {
      case CreateFile(name) => EmptyFile();
      case WriteUpTo(n) => PartOfFirstPass(dims, entries, s.phase.written, n);
      case PatchUpTo(n) =>
        PartOfSecondPass(dims, entries, s.phase.patched, n);
        WrittenFile(dims, entries);
    }
  }

  lemma FilesOnlyAppended(dims: nat, s: State, step: Step, t: State)
    requires OnlyAppended(dims, s) && FileOk(dims, s) && Next(dims, s, step, t) && FileStep(step)
    ensures forall n :: n in t.disk.files ==> FilePairs(t.disk.files[n]) <= s.appended
  {
    hide Manifest.Plain, AllIn, FilePairs, SealedPairs, Segments.Storable, Segments.SegmentBytes, FirstPass,
         SecondPass, Elems;
    var entries := s.phase.entries;
    match step {
      case CreateFile(name) => EmptyFile();
      case WriteUpTo(n) => PartOfFirstPass(dims, entries, s.phase.written, n);
      case PatchUpTo(n) => PartOfSecondPass(dims, entries, s.phase.patched, n);
    }
  }

  /** What is read back at an open comes from the log and the files. */
  lemma ReopenedPairs(s: State, found: seq<string>, disk: Disk)
    requires ManifestOk(s) && s.phase == Down && forall n :: n in found <==> n in s.disk.files
    requires disk.files == s.disk.files
    requires disk.manifest == if LoadedNames(s.disk.manifest).None? && found != []
                              then Some(Manifest.Save(found)) else s.disk.manifest
    ensures var names := match LoadedNames(s.disk.manifest) case None => found case Some(ns) => ns;
            SealedPairs(OpenAll(disk, names)) == DiskPairs(disk) == DiskPairs(s.disk)
  {
    hide Manifest.Plain, Manifest.Save, LoadedNames, FilePairs, OpenAll, SealedPairs, Flushed;
    var names := match LoadedNames(s.disk.manifest) case None => found case Some(ns) => ns;
    if LoadedNames(s.disk.manifest).None? && found != [] {
      SavedNames(found);
    }
    SamePairs(s.disk, disk);
    OpenReadsListed(disk, names);
  }

  lemma SamePairs(a: Disk, b: Disk)
    requires a.files == b.files && forall n :: n in a.files ==> (n in Listed(a) <==> n in Listed(b))
    ensures DiskPairs(a) == DiskPairs(b)
  {
    hide FilePairs, Listed;
  }

  lemma DiskOnlyFiles(disk: Disk, all: set<Pair>)
    requires forall n :: n in disk.files ==> FilePairs(disk.files[n]) <= all
    ensures DiskPairs(disk) <= all
  {
    hide FilePairs, Listed;
  }

  lemma AppendedByInsert(dims: nat, s: State, step: Step, t: State)
    requires OnlyAppended(dims, s) && BatchOk(dims, s) && Next(dims, s, step, t) && InsertStep(step)
    ensures OnlyAppended(dims, t)
  {
    hide Replay, Manifest.Plain, Manifest.Save, AllIn, Log, LoadedNames, Encode, FilePairs, SealedPairs, OpenAll,
         Segments.Storable, Segments.SegmentBytes, FirstPass, SecondPass, LogOk, Listed, DiskPairs, Stored,
         ManifestOk, Opens, FlushedOk;
    match step {
      case LogOne =>
        var n := s.phase.logged;
        assert s.phase.batch[..n + 1] == s.phase.batch[..n] + [s.phase.batch[n]];
      case CommitLog =>
        assert s.phase.batch[..|s.phase.batch|] == s.phase.batch[0..];
      case PublishOne(k) =>
        if s.phase.published < |s.phase.batch| {
          AllInGrow(s.shards, k, s.phase.batch[s.phase.published]);
        }
      case _ =>
    }
  }

  /** A file step changes the file and the phase only, and the phase holds the same pairs. */
  lemma FileStepChanges(dims: nat, s: State, step: Step, t: State)
    requires Next(dims, s, step, t) && FileStep(step)
    ensures t == s.(disk := s.disk.(files := t.disk.files), phase := t.phase) && t.phase != Down
    ensures InFlight(t.phase) == InFlight(s.phase) && !s.phase.Logging? && s.phase != Down
    ensures t.phase.Created? || t.phase.FirstPassed? || t.phase.Patched?
  {
    hide FirstPass, SecondPass, Segments.Storable, Manifest.Plain, Elems;
  }

  lemma AppendedByFileStep(dims: nat, s: State, step: Step, t: State)
    requires OnlyAppended(dims, s) && FileOk(dims, s) && Next(dims, s, step, t) && FileStep(step)
    ensures OnlyAppended(dims, t)
  {
    hide FileOk, Next, FilePairs, SealedPairs, InFlight, AllIn, Elems, FileStep;
    FilesOnlyAppended(dims, s, step, t);
    FileStepChanges(dims, s, step, t);
  }

  lemma AppendedByCompaction(dims: nat, s: State, step: Step, t: State)
    requires OnlyAppended(dims, s) && FileOk(dims, s) && Next(dims, s, step, t)
    requires !InsertStep(step) && !RestartStep(step) && !FileStep(step)
    ensures OnlyAppended(dims, t)
  {
    hide Replay, Manifest.Plain, Manifest.Save, AllIn, Log, LoadedNames, Encode, FilePairs, SealedPairs, OpenAll,
         Segments.Storable, Segments.SegmentBytes, FirstPass, SecondPass, LogOk, Listed, DiskPairs, Stored,
         ManifestOk, Opens, FlushedOk, Begins, IsNextId;
    match step {
      case DrainOne =>
        AllInDrain(s.shards, s.phase.drained);
        ElemsAppend(s.phase.entries, s.shards[s.phase.drained]);
      case OpenSealed =>
        SealedAppend(s.sealed, s.disk.files[s.phase.name]);
      case _ =>
    }
  }

  lemma AppendedByCrash(dims: nat, s: State, step: Step, t: State)
    requires OnlyAppended(dims, s) && Next(dims, s, step, t) && step.CrashAt?
    ensures OnlyAppended(dims, t)
  {
    AllInNothing([]);
    NoSealed();
    hide Replay, Manifest.Plain, Manifest.Save, AllIn, Log, LoadedNames, Encode, FilePairs, SealedPairs, OpenAll,
         Segments.Storable, Segments.SegmentBytes, FirstPass, SecondPass, LogOk, Listed, DiskPairs, Stored,
         ManifestOk, Opens, FlushedOk, Begins, IsNextId, Elems;
  }

  /** What a successful open makes of the disk. */
  lemma ReopenGives(dims: nat, s: State, step: Step, t: State)
    requires LogOk(s) && ManifestOk(s) && Next(dims, s, step, t) && step.Reopen?
    ensures s.durable <= |t.log| <= |s.log| && t.log == s.log[..|t.log|] && t.durable == |t.log|
    ensures AllIn(t.shards) == Elems(t.log) && SealedPairs(t.sealed) == DiskPairs(s.disk) == DiskPairs(t.disk)
    ensures t.phase == Idle && t.committed == s.committed && t.appended == s.appended && t.disk.files == s.disk.files
    ensures IsNextId(AllIn(t.shards) + SealedPairs(t.sealed), t.nextId)
  {
    hide Next, LogOk, ManifestOk, Replay, Manifest.Save, AllIn, Log, LoadedNames, SealedPairs, OpenAll, DiskPairs,
         IsNextId, Elems, Opens, AllFit;
    ReopenChanges(dims, s, step, t);
    ReopenedLog(s);
    ReopenedPairs(s, step.found, t.disk);
  }

  lemma AppendedByReopen(dims: nat, s: State, step: Step, t: State)
    requires OnlyAppended(dims, s) && LogOk(s) && ManifestOk(s) && Next(dims, s, step, t) && step.Reopen?
    ensures OnlyAppended(dims, t)
  {
    hide Next, LogOk, ManifestOk, DiskPairs, AllIn, SealedPairs, FilePairs, IsNextId, Elems;
    ReopenGives(dims, s, step, t);
    ElemsPrefix(s.log, |t.log|);
    DiskOnlyFiles(s.disk, s.appended);
  }

  lemma ElemsPrefix(es: seq<Pair>, n: nat)
    requires n <= |es|
    ensures Elems(es[..n]) <= Elems(es)
  {
  }

  lemma NoSealed()
    ensures SealedPairs([]) == {}
  {
  }

  lemma OnlyAppendedKept(dims: nat, s: State, step: Step, t: State)
    requires OnlyAppended(dims, s) && LogOk(s) && ManifestOk(s) && FileOk(dims, s) && BatchOk(dims, s)
    requires Next(dims, s, step, t)
    ensures OnlyAppended(dims, t)
  {
    hide OnlyAppended, LogOk, ManifestOk, FileOk, BatchOk, Next;
    if InsertStep(step) {
      AppendedByInsert(dims, s, step, t);
    } else if step.CrashAt? {
      AppendedByCrash(dims, s, step, t);
    } else if step.Reopen? {
      AppendedByReopen(dims, s, step, t);
    } else if FileStep(step) {
      AppendedByFileStep(dims, s, step, t);
    } else {
      AppendedByCompaction(dims, s, step, t);
    }
  }

  lemma BeginsKeeps(dims: nat, s: State, step: Step, t: State)
    requires Next(dims, s, step, t) && (step.BeginAuto? || step.BeginExplicit?)
    ensures s.phase == Idle && t.phase.Logging? && t.phase.logged == 0 && s.nextId <= t.nextId
    ensures t == s.(phase := t.phase, nextId := t.nextId)
  {
  }

  lemma DiskOtherwise(dims: nat, s: State, step: Step, t: State)
    requires Next(dims, s, step, t) && !FileStep(step) && !step.SaveManifest? && !step.Reopen?
    ensures t.disk.files == s.disk.files && t.disk.manifest == s.disk.manifest
    ensures DiskPairs(t.disk) == DiskPairs(s.disk)
  {
    DiskPairsIgnoreLog(s.disk, t.disk);
    hide DiskPairs, AllIn, SealedPairs, Encode, Elems, Begins, InFlight, Visible;
    if step.BeginAuto? || step.BeginExplicit? {
      BeginsKeeps(dims, s, step, t);
    }
  }

  lemma DiskPairsIgnoreLog(a: Disk, b: Disk)
    ensures a.files == b.files && a.manifest == b.manifest ==> DiskPairs(a) == DiskPairs(b)
  {
  }
}
