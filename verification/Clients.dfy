/** Any number of clients and recoveries at once: each has its own list of effects, runs them in order, and may
    be cut after any of them; their effects interleave in every way. */
module Clients {
  import opened Options
  import opened Repository
  import opened Adapter
  import opened Journal
  import opened Recovery
  import opened Visibility
  import opened Runs
  import opened Interleavings

  /** A request, or the recovery of one pending operation, with the row status that it read. */
  datatype Origin =
    | Client(request: Request)
    | Recoverer(op: string, id: string, read: Option<Status>)

  datatype Thread = Thread(origin: Origin, todo: seq<Effect>)

  datatype System = System(world: World, used: set<string>, threads: seq<Thread>)

  datatype Move =
    | Enter(request: Request)
    | EnterRecovery(op: string)
    | Advance(thread: nat)
    | Stop(thread: nat, index: Vectors)
    | CrashAll(index: Vectors)

  // ---- the moves ----

  /** What the store's own checks guarantee when a request begins; a vacuum picks its rows only when it runs. */
  ghost predicate ValidRequest(req: Request, dims: nat) {
    match req
    case RememberOne(r, op) => NewRows([r], dims)
    case RememberMany(records, ops) => |records| == |ops| && NewRows(records, dims)
    case Revise(r, e, op) => r.status == Active && |r.embedding| == dims
    case Forget(s, ids, ops) => |ids| == |ops|
    case Vacuum(b, n, v) => true
    case Reindex => true
  }

  function ReadRow(db: Db, o: string): Origin
    requires o in db.operations
  {
    var id := db.operations[o].memoryId;
    Recoverer(o, id, if id in db.memories then Some(db.memories[id].status) else None)
  }

  /** The rows of a purge are what its limit picks at that moment. */
  ghost predicate PicksNow(db: Db, o: Origin, e: Effect) {
    e.TxPurge? ==> o.Client? && o.request.Vacuum? && VacuumPick(db, o.request.batch, o.request.now, e.victims)
  }

  ghost predicate MayMove(s: System, m: Move, dims: nat) {
    match m
    case Enter(req) => ValidRequest(req, dims) && forall id :: id in NewIds(req) ==> id !in s.used
    case EnterRecovery(o) => o in s.world.db.operations
    case Advance(i) =>
      i < |s.threads| && s.threads[i].todo != [] && PicksNow(s.world.db, s.threads[i].origin, s.threads[i].todo[0])
    case Stop(i, index) => i < |s.threads|
    case CrashAll(index) => true
  }

  function WithTodo(threads: seq<Thread>, i: nat, todo: seq<Effect>): (r: seq<Thread>)
    requires i < |threads|
    ensures |r| == |threads|
    ensures forall j :: 0 <= j < |r| ==> r[j].origin == threads[j].origin
    ensures forall j :: 0 <= j < |r| ==> r[j].todo == if j == i then todo else threads[j].todo
  {
    threads[i := threads[i].(todo := todo)]
  }

  function AllStopped(threads: seq<Thread>): (r: seq<Thread>)
    ensures |r| == |threads|
    ensures forall j :: 0 <= j < |r| ==> r[j].origin == threads[j].origin && r[j].todo == []
  {
    seq(|threads|, j requires 0 <= j < |threads| => threads[j].(todo := []))
  }

  /** An effect that fails ends its own operation; a crash ends all of them and loses the index. */
  ghost function Moved(s: System, m: Move, dims: nat): System
    requires MayMove(s, m, dims)
  {
    match m
    case Enter(req) =>
      s.(used := s.used + IdSet(NewIds(req)), threads := s.threads + [Thread(Client(req), EffectsOf(s.world.db, req))])
    case EnterRecovery(o) =>
      s.(threads := s.threads + [Thread(ReadRow(s.world.db, o), RecoverEffects(s.world.db, o))])
    case Advance(i) =>
      var todo := s.threads[i].todo;
      var r := Exec(s.world, todo[0], dims);
      s.(world := r.world, threads := WithTodo(s.threads, i, if r.Done? then todo[1..] else []))
    case Stop(i, index) =>
      s.(world := s.world.(index := index), threads := WithTodo(s.threads, i, []))
    case CrashAll(index) =>
      s.(world := s.world.(index := index), threads := AllStopped(s.threads))
  }

  ghost predicate Steps(states: seq<System>, moves: seq<Move>, dims: nat) {
    && |states| == |moves| + 1
    && forall k :: 0 <= k < |moves| ==>
         MayMove(states[k], moves[k], dims) && states[k + 1] == Moved(states[k], moves[k], dims)
  }

  /** Nobody is at work yet. */
  ghost predicate Quiet(s: System) {
    s.threads == [] && s.world.db.memories.Keys <= s.used
  }

  // ---- (a) where activations come from ----

  predicate IsRemember(req: Request) {
    req.RememberOne? || req.RememberMany?
  }

  /** The remember that brings the row. */
  predicate RemembersRow(o: Origin, id: string) {
    o.Client? && IsRemember(o.request) && id in NewIds(o.request)
  }

  /** A recovery that read the row Pending. */
  predicate ReadPending(o: Origin, id: string) {
    o.Recoverer? && o.id == id && o.read == Some(Pending)
  }

  /** The effect brings rows, activates rows and updates rows only as its origin allows. */
  ghost predicate Own(o: Origin, e: Effect) {
    && (forall id :: Inserts(e, id) ==> RemembersRow(o, id))
    && (forall id :: Activates(e, id) ==> RemembersRow(o, id) || ReadPending(o, id))
    && (e.TxUpdate? ==> e.record.status == Active)
  }

  /** Insertion comes first, so an operation with an insertion to do has brought no row yet. */
  ghost predicate InsertsFirst(todo: seq<Effect>, db: Db) {
    && (forall p :: 0 < p < |todo| ==> !todo[p].TxInsert?)
    && forall id :: todo != [] && Inserts(todo[0], id) ==> id !in db.memories
  }

  ghost predicate AllOwn(t: Thread) {
    forall e :: e in t.todo ==> Own(t.origin, e)
  }

  ghost predicate ThreadOk(t: Thread, used: set<string>, db: Db) {
    AllOwn(t) && InsertsFirst(t.todo, db) && forall id :: RemembersRow(t.origin, id) ==> id in used
  }

  /** No row has two remembers. */
  ghost predicate OneRemember(threads: seq<Thread>) {
    forall i, j, id :: 0 <= i < j < |threads| && RemembersRow(threads[i].origin, id) ==>
      !RemembersRow(threads[j].origin, id)
  }

  ghost predicate Provenance(s: System) {
    && s.world.db.memories.Keys <= s.used
    && (forall i :: 0 <= i < |s.threads| ==> ThreadOk(s.threads[i], s.used, s.world.db))
    && OneRemember(s.threads)
  }

  lemma RememberOwns(origin: Origin, records: seq<Record>, ops: seq<Option<string>>, db: Db)
    requires forall id :: id in RowIds(records) ==> RemembersRow(origin, id) && id !in db.memories
    ensures AllOwn(Thread(origin, RememberBatchEffects(records, ops)))
    ensures InsertsFirst(RememberBatchEffects(records, ops), db)
  {
    hide Present, ItemsOf, RowIds;
  }

  lemma RequestOwns(db: Db, req: Request, dims: nat)
    requires ValidRequest(req, dims) && forall id :: id in NewIds(req) ==> id !in db.memories
    ensures AllOwn(Thread(Client(req), EffectsOf(db, req))) && InsertsFirst(EffectsOf(db, req), db)
  {
    hide Present, ItemsOf, RememberBatchEffects;
    if req.RememberOne? {
      assert RowIds([req.record]) == [req.record.id];
      RememberOwns(Client(req), [req.record], [req.op], db);
    } else if req.RememberMany? {
      RememberOwns(Client(req), req.records, req.ops, db);
    }
  }

  lemma RecoveryOwns(db: Db, o: string)
    requires o in db.operations
    ensures AllOwn(Thread(ReadRow(db, o), RecoverEffects(db, o))) && InsertsFirst(RecoverEffects(db, o), db)
  {
  }

  lemma EnterKeepsProvenance(s: System, m: Move, dims: nat)
    requires Provenance(s) && MayMove(s, m, dims) && (m.Enter? || m.EnterRecovery?)
    ensures Provenance(Moved(s, m, dims))
  {
    hide EffectsOf, RecoverEffects, InsertsFirst, Own, IsRemember, ValidRequest;
    var t := Moved(s, m, dims);
    var n := |s.threads|;
    if m.Enter? {
      RequestOwns(s.world.db, m.request, dims);
      forall id ensures id in IdSet(NewIds(m.request)) <==> id in NewIds(m.request) {
      }
    } else {
      RecoveryOwns(s.world.db, m.op);
    }
    forall i | 0 <= i < n ensures t.threads[i] == s.threads[i] && ThreadOk(t.threads[i], t.used, t.world.db) {
      assert ThreadOk(s.threads[i], s.used, s.world.db);
    }
    assert ThreadOk(t.threads[n], t.used, t.world.db);
  }

  /** The rows after one effect of a thread. */
  lemma RowsAfter(w: World, o: Origin, e: Effect, dims: nat)
    requires Own(o, e)
    ensures forall id :: id in Exec(w, e, dims).world.db.memories ==>
              id in w.db.memories || (Inserts(e, id) && RemembersRow(o, id))
  {
    forall id | id in Exec(w, e, dims).world.db.memories && id !in w.db.memories ensures Inserts(e, id) {
      if !Inserts(e, id) { ExecStatus(w, e, id, dims); }
    }
  }

  /** Another thread's insertion is still to come, if it was before. */
  lemma OtherInsertsWait(s: System, i: nat, j: nat, dims: nat)
    requires Provenance(s) && i < |s.threads| && j < |s.threads| && i != j && s.threads[i].todo != []
    ensures InsertsFirst(s.threads[j].todo, Exec(s.world, s.threads[i].todo[0], dims).world.db)
  {
    hide Exec, Inserts, IsRemember;
    var a, b := s.threads[i], s.threads[j];
    assert ThreadOk(a, s.used, s.world.db) && ThreadOk(b, s.used, s.world.db);
    RowsAfter(s.world, a.origin, a.todo[0], dims);
    forall id | b.todo != [] && Inserts(b.todo[0], id) ensures id !in Exec(s.world, a.todo[0], dims).world.db.memories {
      assert Own(b.origin, b.todo[0]) && RemembersRow(b.origin, id);
      assert !RemembersRow(a.origin, id);
    }
  }

  lemma TailOk(t: Thread, used: set<string>, db: Db, other: Db)
    requires ThreadOk(t, used, db) && t.todo != []
    ensures ThreadOk(t.(todo := t.todo[1..]), used, other) && ThreadOk(t.(todo := []), used, other)
  {
    assert forall e :: e in t.todo[1..] ==> e in t.todo;
    forall p | 0 <= p < |t.todo[1..]| ensures !t.todo[1..][p].TxInsert? {
      assert t.todo[1..][p] == t.todo[p + 1];
    }
  }

  lemma FirstIsOwn(t: Thread)
    requires AllOwn(t) && t.todo != []
    ensures Own(t.origin, t.todo[0])
  {
  }

  lemma AdvanceKeepsProvenance(s: System, i: nat, dims: nat)
    requires Provenance(s) && MayMove(s, Advance(i), dims)
    ensures Provenance(Moved(s, Advance(i), dims))
  {
    hide Exec, Inserts, IsRemember, InsertsFirst, AllOwn, PicksNow;
    var t, a := Moved(s, Advance(i), dims), s.threads[i];
    assert ThreadOk(a, s.used, s.world.db);
    FirstIsOwn(a);
    RowsAfter(s.world, a.origin, a.todo[0], dims);
    TailOk(a, s.used, s.world.db, t.world.db);
    forall j | 0 <= j < |t.threads| ensures ThreadOk(t.threads[j], t.used, t.world.db) {
      assert ThreadOk(s.threads[j], s.used, s.world.db);
      if j != i { OtherInsertsWait(s, i, j, dims); }
    }
  }

  lemma StopKeepsProvenance(s: System, m: Move, dims: nat)
    requires Provenance(s) && MayMove(s, m, dims) && (m.Stop? || m.CrashAll?)
    ensures Provenance(Moved(s, m, dims))
  {
    hide Inserts, IsRemember, Own;
    var t := Moved(s, m, dims);
    forall j | 0 <= j < |t.threads| ensures ThreadOk(t.threads[j], t.used, t.world.db) {
      assert ThreadOk(s.threads[j], s.used, s.world.db);
    }
  }

  lemma {:induction false} RunsKeepProvenance(states: seq<System>, moves: seq<Move>, n: nat, dims: nat)
    requires Steps(states, moves, dims) && Quiet(states[0]) && n <= |moves|
    ensures Provenance(states[n])
  {
    if n == 0 {
    } else {
      hide Moved, MayMove, Provenance;
      RunsKeepProvenance(states, moves, n - 1, dims);
      var s, m := states[n - 1], moves[n - 1];
      match m {
        case Advance(i) => AdvanceKeepsProvenance(s, i, dims);
        case Enter(req) => EnterKeepsProvenance(s, m, dims);
        case EnterRecovery(o) => EnterKeepsProvenance(s, m, dims);
        case Stop(i, index) => StopKeepsProvenance(s, m, dims);
        case CrashAll(index) => StopKeepsProvenance(s, m, dims);
      }
    }
  }

  /** Every activation of a row still to run is its one remember's, or that of a recovery that read it Pending. */
  lemma ActivationsHaveAnOrigin(states: seq<System>, moves: seq<Move>, n: nat, i: nat, e: Effect, id: string, dims: nat)
    requires Steps(states, moves, dims) && Quiet(states[0]) && n <= |moves|
    requires i < |states[n].threads| && e in states[n].threads[i].todo && Activates(e, id)
    ensures var threads := states[n].threads;
            || ReadPending(threads[i].origin, id)
            || (RemembersRow(threads[i].origin, id) &&
                forall j :: 0 <= j < |threads| && j != i ==> !RemembersRow(threads[j].origin, id))
  {
    RunsKeepProvenance(states, moves, n, dims);
    var s := states[n];
    assert ThreadOk(s.threads[i], s.used, s.world.db);
    assert Own(s.threads[i].origin, e);
  }

  // ---- (b), (c) what becomes of a deleted row ----

  /** The effect that the move executes. */
  function Executed(s: System, m: Move): Option<Effect> {
    if m.Advance? && m.thread < |s.threads| && s.threads[m.thread].todo != [] then Some(s.threads[m.thread].todo[0])
    else None
  }

  predicate ActivatesNow(s: System, m: Move, id: string) {
    var e := Executed(s, m); e.Some? && Activates(e.value, id)
  }

  predicate DeletesNow(s: System, m: Move, id: string) {
    var e := Executed(s, m); e.Some? && Deletes(s.world.db, e.value, id)
  }

  predicate PurgesNow(s: System, m: Move, id: string) {
    var e := Executed(s, m); e.Some? && Purges(e.value, id)
  }

  predicate IsActive(s: System, id: string) {
    id in s.world.db.memories && s.world.db.memories[id].status == Active
  }

  /** The row was brought, has left the Pending status, and nothing to come inserts it. */
  ghost predicate Past(s: System, id: string) {
    && id in s.used
    && (id in s.world.db.memories ==> s.world.db.memories[id].status in {Active, Deleted})
    && forall i, e :: 0 <= i < |s.threads| && e in s.threads[i].todo ==>
         !Inserts(e, id) && (e.TxUpdate? ==> e.record.status == Active)
  }

  lemma DeletedIsPast(s: System, id: string)
    requires Provenance(s) && id in s.world.db.memories && s.world.db.memories[id].status == Deleted
    ensures Past(s, id)
  {
    forall i, e | 0 <= i < |s.threads| && e in s.threads[i].todo
      ensures !Inserts(e, id) && (e.TxUpdate? ==> e.record.status == Active)
    {
      assert ThreadOk(s.threads[i], s.used, s.world.db);
      assert Own(s.threads[i].origin, e);
    }
  }

  /** What one move does to the row. */
  lemma MoveStatus(s: System, m: Move, id: string, dims: nat)
    requires Past(s, id) && MayMove(s, m, dims)
    ensures var t := Moved(s, m, dims).world.db;
            && (id in t.memories <==> id in s.world.db.memories && !PurgesNow(s, m, id))
            && (id in t.memories ==> t.memories[id].status ==
                                     if ActivatesNow(s, m, id) then Active
                                     else if DeletesNow(s, m, id) then Deleted
                                     else s.world.db.memories[id].status)
  {
    hide Exec, Inserts, Deletes, Purges, Activates, CommitsUpdate, PicksNow, EffectsOf, RecoverEffects;
    if m.Advance? {
      var e := s.threads[m.thread].todo[0];
      ExecStatus(s.world, e, id, dims);
      if CommitsUpdate(s.world.db, e, id) {
        CommittedUpdateFindsRow(s.world.db, e, id);
      }
    }
  }

  /** What a newcomer brings to a row that is past: nothing. */
  lemma NewcomersLeaveIt(s: System, m: Move, id: string, dims: nat)
    requires Past(s, id) && s.world.db.memories.Keys <= s.used && MayMove(s, m, dims) && (m.Enter? || m.EnterRecovery?)
    ensures var t := Moved(s, m, dims).threads[|s.threads|];
            forall e :: e in t.todo ==>
              !Inserts(e, id) && !Activates(e, id) && (e.TxUpdate? ==> e.record.status == Active)
  {
    hide EffectsOf, RecoverEffects, Inserts, Activates, IsRemember, ValidRequest;
    var t := Moved(s, m, dims).threads[|s.threads|];
    if m.Enter? {
      RequestOwns(s.world.db, m.request, dims);
    } else {
      RecoveryOwns(s.world.db, m.op);
    }
    assert !RemembersRow(t.origin, id) && !ReadPending(t.origin, id);
    forall e | e in t.todo ensures !Inserts(e, id) && !Activates(e, id) && (e.TxUpdate? ==> e.record.status == Active) {
      assert Own(t.origin, e);
    }
  }

  /** Since `base` the threads there were have only gone on, and no later one activates the row. */
  ghost predicate UnderWay(base: seq<Thread>, threads: seq<Thread>, id: string) {
    && |base| <= |threads|
    && (forall i, e :: 0 <= i < |base| && e in threads[i].todo ==> e in base[i].todo)
    && (forall i :: 0 <= i < |base| ==> threads[i].origin == base[i].origin)
    && forall i, e :: |base| <= i < |threads| && e in threads[i].todo ==> !Activates(e, id)
  }

  /** A move leaves every thread there was with its own effects, or fewer. */
  lemma MoveKeepsThreads(s: System, m: Move, dims: nat)
    requires MayMove(s, m, dims)
    ensures var t := Moved(s, m, dims).threads;
            && |t| == |s.threads| + (if m.Enter? || m.EnterRecovery? then 1 else 0)
            && (forall i :: 0 <= i < |s.threads| ==> t[i].origin == s.threads[i].origin)
            && forall i, e :: 0 <= i < |s.threads| && e in t[i].todo ==> e in s.threads[i].todo
  {
    hide Exec, PicksNow, EffectsOf, RecoverEffects, ValidRequest;
    var t := Moved(s, m, dims).threads;
    forall i, e | 0 <= i < |s.threads| && e in t[i].todo ensures e in s.threads[i].todo {
    }
  }

  lemma MoveKeepsPast(s: System, m: Move, id: string, dims: nat)
    requires Past(s, id) && s.world.db.memories.Keys <= s.used && MayMove(s, m, dims)
    ensures Past(Moved(s, m, dims), id)
  {
    MoveStatus(s, m, id, dims);
    MoveKeepsThreads(s, m, dims);
    UsedGrows(s, m, dims);
    if m.Enter? || m.EnterRecovery? {
      NewcomersLeaveIt(s, m, id, dims);
    }
    hide Moved, MayMove, Inserts, Activates, ActivatesNow, DeletesNow, PurgesNow;
    var t := Moved(s, m, dims);
    forall i, e | 0 <= i < |t.threads| && e in t.threads[i].todo
      ensures !Inserts(e, id) && (e.TxUpdate? ==> e.record.status == Active)
    {
      if i < |s.threads| {
        assert e in s.threads[i].todo;
      }
    }
  }

  lemma MoveKeepsUnderWay(s: System, m: Move, base: seq<Thread>, id: string, dims: nat)
    requires Past(s, id) && s.world.db.memories.Keys <= s.used && MayMove(s, m, dims)
    requires UnderWay(base, s.threads, id)
    ensures UnderWay(base, Moved(s, m, dims).threads, id)
  {
    MoveKeepsThreads(s, m, dims);
    if m.Enter? || m.EnterRecovery? {
      NewcomersLeaveIt(s, m, id, dims);
    }
    hide Moved, MayMove, Inserts, Activates, Past;
    var t := Moved(s, m, dims).threads;
    forall i, e | |base| <= i < |t| && e in t[i].todo ensures !Activates(e, id) {
      if i < |s.threads| {
        assert e in s.threads[i].todo;
      }
    }
  }

  lemma UsedGrows(s: System, m: Move, dims: nat)
    requires MayMove(s, m, dims)
    ensures s.used <= Moved(s, m, dims).used
  {
    hide Exec, PicksNow, EffectsOf, RecoverEffects, ValidRequest;
  }

  // ---- over a run ----

  ghost predicate PurgedWithin(states: seq<System>, moves: seq<Move>, id: string, m: nat, n: nat)
    requires m <= n <= |moves| < |states|
  {
    exists k :: m <= k < n && PurgesNow(states[k], moves[k], id)
  }

  ghost predicate DeletedWithin(states: seq<System>, moves: seq<Move>, id: string, m: nat, n: nat)
    requires m <= n <= |moves| < |states|
  {
    exists k :: m <= k < n && DeletesNow(states[k], moves[k], id)
  }

  /** Some activation of the row ran, and no deletion after it. */
  ghost predicate RaisedWithin(states: seq<System>, moves: seq<Move>, id: string, m: nat, n: nat)
    requires m <= n <= |moves| < |states|
  {
    exists k :: m <= k < n && ActivatesNow(states[k], moves[k], id) && !DeletedWithin(states, moves, id, k + 1, n)
  }

  /** One more move. */
  lemma WithinOneMore(states: seq<System>, moves: seq<Move>, id: string, m: nat, n: nat)
    requires m <= n < |moves| < |states|
    ensures PurgedWithin(states, moves, id, m, n + 1) <==>
            PurgedWithin(states, moves, id, m, n) || PurgesNow(states[n], moves[n], id)
    ensures DeletedWithin(states, moves, id, m, n + 1) <==>
            DeletedWithin(states, moves, id, m, n) || DeletesNow(states[n], moves[n], id)
    ensures RaisedWithin(states, moves, id, m, n + 1) <==>
            ActivatesNow(states[n], moves[n], id) ||
            (RaisedWithin(states, moves, id, m, n) && !DeletesNow(states[n], moves[n], id))
  {
    hide PurgesNow, DeletesNow, ActivatesNow;
    assert !DeletedWithin(states, moves, id, n + 1, n + 1);
    if k :| m <= k < n && ActivatesNow(states[k], moves[k], id) && !DeletedWithin(states, moves, id, k + 1, n) {
      assert DeletedWithin(states, moves, id, k + 1, n + 1) <==> DeletesNow(states[n], moves[n], id);
    }
    if k :| m <= k < n && ActivatesNow(states[k], moves[k], id) && !DeletedWithin(states, moves, id, k + 1, n + 1) {
      assert !DeletedWithin(states, moves, id, k + 1, n) && !DeletesNow(states[n], moves[n], id);
    }
  }

  lemma OneKindOfEffect(s: System, m: Move, id: string)
    ensures !(ActivatesNow(s, m, id) && DeletesNow(s, m, id))
  {
  }

  ghost predicate IsPresent(s: System, id: string) {
    id in s.world.db.memories
  }

  /** One move, for a row that is past. */
  lemma OneMove(s: System, m: Move, base: seq<Thread>, id: string, dims: nat)
    requires Provenance(s) && MayMove(s, m, dims) && Past(s, id) && UnderWay(base, s.threads, id)
    ensures var t := Moved(s, m, dims);
            && Past(t, id) && UnderWay(base, t.threads, id)
            && (IsPresent(t, id) <==> IsPresent(s, id) && !PurgesNow(s, m, id))
            && (IsActive(t, id) <==>
                IsPresent(t, id) && (ActivatesNow(s, m, id) || (IsActive(s, id) && !DeletesNow(s, m, id))))
  {
    hide Moved, MayMove, Provenance, Past, UnderWay, PurgesNow, DeletesNow, ActivatesNow;
    ProvenanceBoundsRows(s);
    PastStatus(s, id);
    MoveStatus(s, m, id, dims);
    MoveKeepsPast(s, m, id, dims);
    MoveKeepsUnderWay(s, m, base, id, dims);
    OneKindOfEffect(s, m, id);
  }

  lemma StepAt(states: seq<System>, moves: seq<Move>, n: nat, dims: nat)
    requires Steps(states, moves, dims)
    ensures |states| == |moves| + 1
    ensures n < |moves| ==> MayMove(states[n], moves[n], dims) && states[n + 1] == Moved(states[n], moves[n], dims)
  {
    hide Moved, MayMove;
  }

  /** What the moves between m and n did to a row that was deleted at m. */
  ghost predicate AsTold(states: seq<System>, moves: seq<Move>, id: string, m: nat, n: nat)
    requires m <= n <= |moves| < |states|
  {
    && Past(states[n], id) && UnderWay(states[m].threads, states[n].threads, id)
    && (IsPresent(states[n], id) <==> !PurgedWithin(states, moves, id, m, n))
    && (IsActive(states[n], id) <==>
        !PurgedWithin(states, moves, id, m, n) && RaisedWithin(states, moves, id, m, n))
  }

  lemma ToldOneMore(states: seq<System>, moves: seq<Move>, id: string, m: nat, n: nat, dims: nat)
    requires m <= n < |moves| < |states| && AsTold(states, moves, id, m, n)
    requires Provenance(states[n]) && MayMove(states[n], moves[n], dims)
    requires states[n + 1] == Moved(states[n], moves[n], dims)
    ensures AsTold(states, moves, id, m, n + 1)
  {
    hide Moved, MayMove, Provenance, Past, UnderWay, PurgedWithin, RaisedWithin, PurgesNow, DeletesNow, ActivatesNow,
         IsPresent, IsActive;
    OneMove(states[n], moves[n], states[m].threads, id, dims);
    WithinOneMore(states, moves, id, m, n);
  }

  lemma ToldAtDeletion(states: seq<System>, moves: seq<Move>, id: string, m: nat)
    requires m <= |moves| < |states| && Provenance(states[m]) && DeletedAt(states[m], id)
    ensures AsTold(states, moves, id, m, m)
  {
    hide Provenance, Past;
    DeletedIsPast(states[m], id);
  }

  /** From a deletion on, move by move. */
  lemma {:induction false} StatusOverRun(states: seq<System>, moves: seq<Move>, id: string, m: nat, n: nat, dims: nat)
    requires Steps(states, moves, dims) && Quiet(states[0]) && m <= n <= |moves| && DeletedAt(states[m], id)
    ensures AsTold(states, moves, id, m, n)
    decreases n
  {
    hide Steps, Quiet, Moved, MayMove, Provenance, AsTold, DeletedAt;
    if n == m {
      StepAt(states, moves, n, dims);
      RunsKeepProvenance(states, moves, n, dims);
      ToldAtDeletion(states, moves, id, n);
    } else {
      StepAt(states, moves, n - 1, dims);
      RunsKeepProvenance(states, moves, n - 1, dims);
      StatusOverRun(states, moves, id, m, n - 1, dims);
      ToldOneMore(states, moves, id, m, n - 1, dims);
    }
  }

  lemma ProvenanceBoundsRows(s: System)
    requires Provenance(s)
    ensures s.world.db.memories.Keys <= s.used
  {
  }

  lemma PastStatus(s: System, id: string)
    requires Past(s, id)
    ensures id in s.world.db.memories ==> s.world.db.memories[id].status in {Active, Deleted}
  {
  }

  // ---- the theorems ----

  ghost predicate DeletedAt(s: System, id: string) {
    id in s.world.db.memories && s.world.db.memories[id].status == Deleted
  }

  /** The thread may still activate the row. */
  ghost predicate MayRaise(t: Thread, id: string) {
    (RemembersRow(t.origin, id) || ReadPending(t.origin, id)) && exists e :: e in t.todo && Activates(e, id)
  }

  /** An activation that runs after the deletion was under way at the deletion: it is the row's one remember, or
      a recovery that read it Pending. */
  lemma ActivationWasUnderWay(states: seq<System>, moves: seq<Move>, id: string, m: nat, k: nat, dims: nat)
    requires Steps(states, moves, dims) && Quiet(states[0]) && m <= k < |moves| && DeletedAt(states[m], id)
    requires ActivatesNow(states[k], moves[k], id)
    ensures moves[k].Advance? && moves[k].thread < |states[m].threads|
    ensures MayRaise(states[m].threads[moves[k].thread], id)
  {
    hide Steps, Quiet, IsActive, PurgedWithin, RaisedWithin, Past;
    StepAt(states, moves, k, dims);
    StatusOverRun(states, moves, id, m, k, dims);
    var i, e := moves[k].thread, Executed(states[k], moves[k]).value;
    assert e in states[k].threads[i].todo;
    ActivationsHaveAnOrigin(states, moves, m, i, e, id, dims);
  }

  /** A row deleted when neither its remember nor a recovery that read it Pending may still activate it is never
      anything but Deleted again, until it is purged. */
  lemma DeletedAfterActivationIsFinal(states: seq<System>, moves: seq<Move>, id: string, m: nat, n: nat, dims: nat)
    requires Steps(states, moves, dims) && Quiet(states[0]) && m <= n <= |moves| && DeletedAt(states[m], id)
    requires forall i :: 0 <= i < |states[m].threads| ==> !MayRaise(states[m].threads[i], id)
    ensures id in states[n].world.db.memories ==> states[n].world.db.memories[id].status == Deleted
  {
    hide Moved, MayMove, Quiet, MayRaise, ActivatesNow;
    StatusOverRun(states, moves, id, m, n, dims);
    if RaisedWithin(states, moves, id, m, n) {
      var k :| m <= k < n && ActivatesNow(states[k], moves[k], id) && !DeletedWithin(states, moves, id, k + 1, n);
      ActivationWasUnderWay(states, moves, id, m, k, dims);
      assert false;
    }
  }

  /** What a client can see to: forgetting after the remember has replied, or was given up, with no recovery
      under way, is final. */
  lemma ForgetAfterReplyIsFinal(states: seq<System>, moves: seq<Move>, id: string, m: nat, n: nat, dims: nat)
    requires Steps(states, moves, dims) && Quiet(states[0]) && m <= n <= |moves| && DeletedAt(states[m], id)
    requires forall i :: 0 <= i < |states[m].threads| ==>
               var t := states[m].threads[i]; (RemembersRow(t.origin, id) || t.origin.Recoverer?) ==> t.todo == []
    ensures id in states[n].world.db.memories ==> states[n].world.db.memories[id].status == Deleted
  {
    hide Steps, Quiet;
    DeletedAfterActivationIsFinal(states, moves, id, m, n, dims);
  }

  /** Otherwise the deleted row ends Active exactly if it is not purged, and its remember, or such a recovery,
      gets to its activation before it is cut, and no deletion follows that. */
  lemma DeletedBeforeActivation(states: seq<System>, moves: seq<Move>, id: string, m: nat, n: nat, dims: nat)
    requires Steps(states, moves, dims) && Quiet(states[0]) && m <= n <= |moves| && DeletedAt(states[m], id)
    ensures IsActive(states[n], id) <==>
            && !PurgedWithin(states, moves, id, m, n)
            && exists k :: m <= k < n && ActivatesNow(states[k], moves[k], id) &&
                 moves[k].Advance? && moves[k].thread < |states[m].threads| &&
                 MayRaise(states[m].threads[moves[k].thread], id) &&
                 !DeletedWithin(states, moves, id, k + 1, n)
  {
    hide Moved, MayMove, Quiet, MayRaise, ActivatesNow, DeletedWithin, PurgedWithin, IsActive;
    StatusOverRun(states, moves, id, m, n, dims);
    if RaisedWithin(states, moves, id, m, n) {
      var k :| m <= k < n && ActivatesNow(states[k], moves[k], id) && !DeletedWithin(states, moves, id, k + 1, n);
      ActivationWasUnderWay(states, moves, id, m, k, dims);
    }
  }
}
