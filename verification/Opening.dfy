/** Opening the store: the vector index replays its own log first, and only then does recovery begin. */
module Opening {
  import opened Options
  import opened Journal
  import opened Recovery
  import opened Runs
  import Repository
  import Crash
  import Durability
  import Wal

  /** `MemoryStore::open` over the surviving index files and tables: the adapter starts with empty id maps. */
  ghost function OpenStore(down: Crash.State, db: Repository.Db, ops: seq<string>, dims: nat): Option<World>
    requires forall o :: o in ops ==> o in db.operations
  {
    if !Crash.Opens(down) then None
    else
      var s := RecoverAll(World(db, map[]), ops, dims);
      if s.Done? then Some(s.world) else None
  }

  /** After any run of the index files and any run of the tables, the store opens if and only if the index log
      was cut on an entry boundary; it then holds exactly the Active rows, and what stays pending has no row. */
  lemma StoreOpensAtBoundary(dims: nat, states: seq<Crash.State>, steps: seq<Crash.Step>, cut: nat, down: Crash.State,
                             w: World, used: set<string>, run: seq<Event>, ops: seq<string>)
    requires dims < 0x1_0000_0000 && Durability.IsRun(dims, states, steps)
    requires Crash.Next(dims, states[|steps|], Crash.CrashAt(cut), down)
    requires IsRun(w, used, run, dims) && Sound(w.db, used, dims) && Lists(After(w, used, run, dims).db, ops)
    ensures var db := After(w, used, run, dims).db;
            var open := OpenStore(down, db, ops, dims);
            && (open.Some? <==> exists i :: 0 <= i <= |down.log| && cut == Wal.Boundary(down.log, i))
            && (open.Some? ==> Visible(open.value) && open.value.db == Recovered(db))
            && (open.Some? ==> forall o :: o in Repository.PendingOps(open.value.db) ==>
                  open.value.db.operations[o].memoryId !in open.value.db.memories)
  {
    var db := After(w, used, run, dims).db;
    Durability.CrashSafety(dims, states, steps, cut, down);
    StartupAfterAnyRun(w, used, run, ops, dims);
    RunKeepsSound(w, used, run, dims);
    hide IsRun, After, Lists, Recovered, Visible, Durability.IsRun, Crash.Next, Crash.Opens;
    RecoveryRestores(World(db, map[]), ops, dims);
  }
}
