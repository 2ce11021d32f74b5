/** Sequential runs of the store: requests, each complete or cut after any effect, and recoveries. */
module Runs {
  import opened Options
  import opened Repository
  import opened Adapter
  import opened Journal
  import opened Recovery
  import opened Visibility

  datatype Request =
    | RememberOne(record: Record, op: Option<string>)
    | RememberMany(records: seq<Record>, ops: seq<Option<string>>)
    | Revise(change: Record, expected: nat, op: Option<string>)
    | Forget(scope: Scope, ids: seq<string>, ops: seq<Option<string>>)
    | Vacuum(batch: nat, now: int, victims: set<string>)
    | Reindex

  /** A request that is cut, by a crash or by an error of the index, leaves any index behind. */
  datatype Event =
    | Complete(request: Request)
    | Cut(request: Request, after: nat, index: Vectors)
    | Startup(pending: seq<string>)
    | StartupCut(pending: seq<string>, dealtWith: nat, after: nat, index: Vectors)

  function EffectsOf(db: Db, req: Request): seq<Effect> {
    match req
    case RememberOne(r, op) => RememberEffects(db, r, op)
    case RememberMany(records, ops) => RememberBatchEffects(records, ops)
    case Revise(r, expected, op) => UpdateEffects(db, r, expected, op)
    case Forget(scope, ids, ops) => ForgetEffects(scope, ids, ops)
    case Vacuum(batch, now, victims) => VacuumEffects(batch, victims)
    case Reindex => [IndexRebuild]
  }

  /** The row ids a request brings along; they are drawn fresh. */
  function NewIds(req: Request): seq<string> {
    match req
    case RememberOne(r, op) => [r.id]
    case RememberMany(records, ops) => RowIds(records)
    case Revise(r, e, op) => []
    case Forget(s, ids, ops) => []
    case Vacuum(b, n, v) => []
    case Reindex => []
  }

  /** What the store's own checks and constructions guarantee of a request. */
  ghost predicate WellFormed(db: Db, req: Request, dims: nat) {
    match req
    case RememberOne(r, op) => NewRows([r], dims)
    case RememberMany(records, ops) => |records| == |ops| && NewRows(records, dims)
    case Revise(r, e, op) => r.status == Active && |r.embedding| == dims
    case Forget(s, ids, ops) => |ids| == |ops|
    case Vacuum(batch, now, victims) => VacuumPick(db, batch, now, victims)
    case Reindex => true
  }

  ghost predicate RequestMayHappen(db: Db, req: Request, used: set<string>, dims: nat) {
    WellFormed(db, req, dims) && forall id :: id in NewIds(req) ==> id !in used
  }

  ghost predicate MayHappen(w: World, ev: Event, used: set<string>, dims: nat) {
    match ev
    case Complete(req) => RequestMayHappen(w.db, req, used, dims)
    case Cut(req, k, index) => RequestMayHappen(w.db, req, used, dims) && k <= |EffectsOf(w.db, req)|
    case Startup(ops) => Lists(w.db, ops)
    case StartupCut(ops, i, k, index) => Lists(w.db, ops) && i < |ops|
  }

  ghost function Next(w: World, ev: Event, used: set<string>, dims: nat): World
    requires MayHappen(w, ev, used, dims)
  {
    match ev
    case Complete(req) => Run(w, EffectsOf(w.db, req), dims).world
    case Cut(req, k, index) => World(Run(w, EffectsOf(w.db, req)[..k], dims).world.db, index)
    case Startup(ops) => RecoverAll(w, ops, dims).world
    case StartupCut(ops, i, k, index) => World(RecoverCut(w, ops, i, k, dims).db, index)
  }

  function Spent(ev: Event): set<string> {
    match ev
    case Complete(req) => IdSet(NewIds(req))
    case Cut(req, k, index) => IdSet(NewIds(req))
    case Startup(ops) => {}
    case StartupCut(ops, i, k, index) => {}
  }

  ghost predicate IsRun(w: World, used: set<string>, run: seq<Event>, dims: nat)
    decreases |run|
  {
    run == [] || (MayHappen(w, run[0], used, dims) &&
                  IsRun(Next(w, run[0], used, dims), used + Spent(run[0]), run[1..], dims))
  }

  ghost function After(w: World, used: set<string>, run: seq<Event>, dims: nat): World
    requires IsRun(w, used, run, dims)
    decreases |run|
  {
    if run == [] then w else After(Next(w, run[0], used, dims), used + Spent(run[0]), run[1..], dims)
  }

  // ---- a deleted row never comes back ----

  /** The row is tombstoned, or purged. */
  predicate Dead(db: Db, id: string) {
    id in db.memories ==> db.memories[id].status == Deleted
  }

  /** The effect could bring the row to life. */
  predicate Raises(e: Effect, id: string) {
    match e
    case TxInsert(records, ops) => id in RowIds(records)
    case TxActivate(ids) => id in ids
    case TxApply(ops) => false
    case TxUpdate(r, x, op) => false
    case TxDelete(s, ids, ops) => false
    case TxPurge(v) => false
    case IndexUpsert(items) => false
    case IndexRemove(ids) => false
    case IndexRebuild => false
  }

  lemma ExecKeepsDead(w: World, e: Effect, id: string, dims: nat)
    requires Dead(w.db, id) && !Raises(e, id)
    ensures Dead(Exec(w, e, dims).world.db, id)
  {
    match e {
      case TxInsert(records, ops) =>
        if InsertPending(w.db, records, Padded(ops, |records|)).Committed? {
          hide InsertPending;
          InsertedBatch(w.db, records, Padded(ops, |records|));
          RowIdsAreItemIds(records, id);
        }
      case TxDelete(scope, ids, ops) =>
        if DeleteMemory(w.db, scope, ids, Padded(ops, |ids|)).Committed? {
          hide DeleteMemory;
          DeletedRows(w.db, scope, ids, Padded(ops, |ids|));
        }
      case TxUpdate(r, x, op) =>
      case TxActivate(ids) =>
      case TxApply(ops) =>
      case TxPurge(v) =>
      case IndexUpsert(items) =>
      case IndexRemove(ids) =>
      case IndexRebuild =>
    }
  }

  lemma {:induction false} RunKeepsDead(w: World, effects: seq<Effect>, id: string, dims: nat)
    requires Dead(w.db, id) && forall i :: 0 <= i < |effects| ==> !Raises(effects[i], id)
    ensures Dead(Run(w, effects, dims).world.db, id)
    decreases |effects|
  {
    hide Exec, Dead, Raises;
    if effects == [] {
    } else {
      ExecKeepsDead(w, effects[0], id, dims);
      RunKeepsDead(Exec(w, effects[0], dims).world, effects[1..], id, dims);
    }
  }

  lemma RequestRaisesOnlyNewIds(db: Db, req: Request, id: string, i: nat)
    requires id !in NewIds(req) && i < |EffectsOf(db, req)|
    ensures !Raises(EffectsOf(db, req)[i], id)
  {
    if req.RememberOne? {
      assert RowIds([req.record]) == [req.record.id];
    }
  }

  lemma RecoveryKeepsDead(db: Db, t: Db, id: string)
    requires Recovered(t) == Recovered(db) && Dead(db, id)
    ensures Dead(t, id)
  {
    hide Recovered;
    AfterRecovery(db, "", id);
    AfterRecovery(t, "", id);
    KeysKept(db);
    KeysKept(t);
  }

  lemma KeysKept(db: Db)
    ensures Recovered(db).memories.Keys == db.memories.Keys
    ensures Recovered(db).operations.Keys == db.operations.Keys
  {
  }

  lemma StartupHeadsForTarget(w: World, ev: Event, used: set<string>, dims: nat)
    requires MayHappen(w, ev, used, dims) && (ev.Startup? || ev.StartupCut?)
    ensures Recovered(Next(w, ev, used, dims).db) == Recovered(w.db)
  {
    hide Recovered;
    ListedIsOutstanding(w.db, ev.pending);
    RecoverAllResult(w, ev.pending, dims);
    RecoveryIsIdempotent(w.db);
    if ev.StartupCut? { RecoverCutKeepsTarget(w, ev.pending, ev.dealtWith, ev.after, dims); }
  }

  lemma NextKeepsDead(w: World, ev: Event, used: set<string>, id: string, dims: nat)
    requires MayHappen(w, ev, used, dims) && Dead(w.db, id) && id in used
    ensures Dead(Next(w, ev, used, dims).db, id)
  {
    hide Dead, Raises, EffectsOf, RecoverAll, RecoverCut, Run, Lists, NewIds;
    if ev.Startup? || ev.StartupCut? {
      StartupHeadsForTarget(w, ev, used, dims);
      RecoveryKeepsDead(w.db, Next(w, ev, used, dims).db, id);
    } else {
      var effects := EffectsOf(w.db, ev.request);
      forall i | 0 <= i < |effects| ensures !Raises(effects[i], id) {
        RequestRaisesOnlyNewIds(w.db, ev.request, id, i);
      }
      if ev.Complete? {
        RunKeepsDead(w, effects, id, dims);
      } else {
        RunKeepsDead(w, effects[..ev.after], id, dims);
      }
    }
  }

  lemma {:induction false} DeadStaysDead(w: World, used: set<string>, run: seq<Event>, id: string, dims: nat)
    requires IsRun(w, used, run, dims) && id in used && Dead(w.db, id)
    ensures Dead(After(w, used, run, dims).db, id)
    decreases |run|
  {
    if run == [] {
    } else {
      hide Dead, MayHappen, Next;
      NextKeepsDead(w, run[0], used, id, dims);
      DeadStaysDead(Next(w, run[0], used, dims), used + Spent(run[0]), run[1..], id, dims);
    }
  }

  // ---- what every run keeps ----

  /** The effect brings rows whose embeddings fit, with ids out of `ids`. */
  ghost predicate Brings(e: Effect, ids: seq<string>, dims: nat) {
    match e
    case TxInsert(records, ops) =>
      forall i :: 0 <= i < |records| ==> |records[i].embedding| == dims && records[i].id in ids
    case TxUpdate(r, x, op) => |r.embedding| == dims
    case TxActivate(ids) => true
    case TxApply(ops) => true
    case TxDelete(s, ids, ops) => true
    case TxPurge(v) => true
    case IndexUpsert(items) => true
    case IndexRemove(ids) => true
    case IndexRebuild => true
  }

  ghost predicate Sound(db: Db, used: set<string>, dims: nat) {
    RightRows(db, dims) && db.memories.Keys <= used
  }

  lemma ExecKeepsSound(w: World, e: Effect, used: set<string>, ids: seq<string>, dims: nat)
    requires Sound(w.db, used, dims) && Brings(e, ids, dims)
    ensures Sound(Exec(w, e, dims).world.db, used + IdSet(ids), dims)
  {
    match e {
      case TxInsert(records, ops) =>
        if InsertPending(w.db, records, Padded(ops, |records|)).Committed? {
          InsertKeepsSound(w.db, records, Padded(ops, |records|), used, ids, dims);
        }
      case TxDelete(scope, ids, ops) =>
        if DeleteMemory(w.db, scope, ids, Padded(ops, |ids|)).Committed? {
          hide DeleteMemory;
          DeletedRows(w.db, scope, ids, Padded(ops, |ids|));
        }
      case TxUpdate(r, x, op) =>
      case TxActivate(ids) =>
      case TxApply(ops) =>
      case TxPurge(v) =>
      case IndexUpsert(items) =>
      case IndexRemove(ids) =>
      case IndexRebuild =>
    }
  }

  lemma InsertKeepsSound(db: Db, records: seq<Record>, ops: seq<Option<string>>, used: set<string>, ids: seq<string>,
                         dims: nat)
    requires |records| == |ops| && InsertPending(db, records, ops).Committed? && Sound(db, used, dims)
    requires forall i :: 0 <= i < |records| ==> |records[i].embedding| == dims && records[i].id in ids
    ensures Sound(InsertPending(db, records, ops).db, used + IdSet(ids), dims)
  {
    hide InsertPending, OpsInserted;
    InsertedBatch(db, records, ops);
    var t := InsertPending(db, records, ops).db;
    forall id | id in t.memories ensures |t.memories[id].embedding| == dims && id in used + IdSet(ids) {
      if id !in db.memories {
        var i :| 0 <= i < |records| && records[i].id == id;
        assert id in ids;
      }
    }
  }

  lemma {:induction false} EffectsKeepSound(w: World, effects: seq<Effect>, used: set<string>, ids: seq<string>,
                                            dims: nat)
    requires Sound(w.db, used, dims) && forall i :: 0 <= i < |effects| ==> Brings(effects[i], ids, dims)
    ensures Sound(Run(w, effects, dims).world.db, used + IdSet(ids), dims)
    decreases |effects|
  {
    if effects == [] {
    } else {
      hide Exec, Brings, Sound, IdSet;
      ExecKeepsSound(w, effects[0], used, ids, dims);
      EffectsKeepSound(Exec(w, effects[0], dims).world, effects[1..], used + IdSet(ids), ids, dims);
      assert used + IdSet(ids) + IdSet(ids) == used + IdSet(ids);
    }
  }

  lemma RequestBrings(db: Db, req: Request, used: set<string>, i: nat, dims: nat)
    requires RequestMayHappen(db, req, used, dims) && i < |EffectsOf(db, req)|
    ensures Brings(EffectsOf(db, req)[i], NewIds(req), dims)
  {
    if req.RememberMany? {
      forall j | 0 <= j < |req.records| ensures req.records[j].id in RowIds(req.records) {
        assert RowIds(req.records)[j] == req.records[j].id;
      }
    }
  }

  lemma TargetIsSound(db: Db, t: Db, used: set<string>, dims: nat)
    requires Recovered(t) == Recovered(db) && Sound(db, used, dims)
    ensures Sound(t, used, dims)
  {
    hide Recovered, RightRows;
    KeysKept(db);
    KeysKept(t);
    TargetRows(db, dims);
    TargetRows(t, dims);
  }

  lemma NextKeepsSound(w: World, ev: Event, used: set<string>, dims: nat)
    requires MayHappen(w, ev, used, dims) && Sound(w.db, used, dims)
    ensures Sound(Next(w, ev, used, dims).db, used + Spent(ev), dims)
  {
    hide Sound, Brings, EffectsOf, RecoverAll, RecoverCut, Run, Lists, NewIds, RequestMayHappen;
    if ev.Startup? || ev.StartupCut? {
      StartupHeadsForTarget(w, ev, used, dims);
      TargetIsSound(w.db, Next(w, ev, used, dims).db, used, dims);
      assert used + {} == used;
    } else {
      var effects := EffectsOf(w.db, ev.request);
      forall i | 0 <= i < |effects| ensures Brings(effects[i], NewIds(ev.request), dims) {
        RequestBrings(w.db, ev.request, used, i, dims);
      }
      if ev.Complete? {
        EffectsKeepSound(w, effects, used, NewIds(ev.request), dims);
      } else {
        EffectsKeepSound(w, effects[..ev.after], used, NewIds(ev.request), dims);
      }
    }
  }

  function UsedAfter(used: set<string>, run: seq<Event>): set<string>
    decreases |run|
  {
    if run == [] then used else UsedAfter(used + Spent(run[0]), run[1..])
  }

  /** All through a run the embeddings fit and no row has an id that was not drawn. */
  lemma {:induction false} RunKeepsSound(w: World, used: set<string>, run: seq<Event>, dims: nat)
    requires IsRun(w, used, run, dims) && Sound(w.db, used, dims)
    ensures Sound(After(w, used, run, dims).db, UsedAfter(used, run), dims)
    decreases |run|
  {
    if run == [] {
    } else {
      hide Sound, MayHappen, Next;
      NextKeepsSound(w, run[0], used, dims);
      RunKeepsSound(Next(w, run[0], used, dims), used + Spent(run[0]), run[1..], dims);
    }
  }

  lemma {:induction false} RunParts(w: World, used: set<string>, a: seq<Event>, b: seq<Event>, dims: nat)
    requires IsRun(w, used, a + b, dims)
    ensures IsRun(w, used, a, dims) && IsRun(After(w, used, a, dims), UsedAfter(used, a), b, dims)
    ensures After(w, used, a + b, dims) == After(After(w, used, a, dims), UsedAfter(used, a), b, dims)
    decreases |a|
  {
    if a == [] {
      assert a + b == b;
    } else {
      hide MayHappen, Next;
      assert (a + b)[1..] == a[1..] + b && (a + b)[0] == a[0];
      RunParts(Next(w, a[0], used, dims), used + Spent(a[0]), a[1..], b, dims);
    }
  }

  /** In every sequential run, with crashes, index errors and recoveries anywhere, a row that is once deleted
      stays deleted until it is purged, and its id never comes back. */
  lemma DeletedNeverReturns(w: World, used: set<string>, a: seq<Event>, b: seq<Event>, id: string, dims: nat)
    requires IsRun(w, used, a + b, dims) && Sound(w.db, used, dims)
    requires IsRun(w, used, a, dims)
    requires var mid := After(w, used, a, dims).db; id in mid.memories && mid.memories[id].status == Deleted
    ensures var end := After(w, used, a + b, dims).db; id in end.memories ==> end.memories[id].status == Deleted
  {
    hide IsRun, After;
    RunParts(w, used, a, b, dims);
    RunKeepsSound(w, used, a, dims);
    DeadStaysDead(After(w, used, a, dims), UsedAfter(used, a), b, id, dims);
  }

  // ---- recovery after any run, visibility after complete ones ----

  /** Whatever a run did and wherever it was cut, the next startup succeeds, leaves the index holding exactly the
      embeddings of the Active rows, and leaves pending only operations whose row is gone. */
  lemma StartupAfterAnyRun(w: World, used: set<string>, run: seq<Event>, ops: seq<string>, dims: nat)
    requires IsRun(w, used, run, dims) && Sound(w.db, used, dims) && Lists(After(w, used, run, dims).db, ops)
    ensures var cut := After(w, used, run, dims);
            var s := RecoverAll(cut, ops, dims);
            && s.Done? && Visible(s.world) && s.world.db == Recovered(cut.db)
            && forall o :: o in PendingOps(s.world.db) ==> s.world.db.operations[o].memoryId !in s.world.db.memories
  {
    var cut := After(w, used, run, dims);
    hide IsRun, After, Lists;
    RunKeepsSound(w, used, run, dims);
    RecoveryRestores(cut, ops, dims);
    var t := Recovered(cut.db);
    forall o | o in PendingOps(t) ensures t.operations[o].memoryId !in t.memories {
      AfterRecovery(cut.db, o, "");
    }
  }

  /** The event runs to its end, and a forget uses the scope of the rows it names. */
  ghost predicate Clean(w: World, ev: Event) {
    match ev
    case Complete(req) => req.Forget? ==> Hides(w.db, req.scope, req.ids)
    case Cut(r, k, index) => false
    case Startup(ops) => true
    case StartupCut(ops, i, k, index) => false
  }

  lemma NextKeepsVisible(w: World, ev: Event, used: set<string>, dims: nat)
    requires MayHappen(w, ev, used, dims) && Sound(w.db, used, dims) && Clean(w, ev) && Visible(w)
    ensures Visible(Next(w, ev, used, dims))
  {
    hide Visible, Recovered, RecoverAll, Run, Hides, RememberBatchEffects, UpdateEffects, ForgetEffects, VacuumEffects,
         VacuumPick, Lists, InsertPending, DeleteMemory, UpdateMemory;
    match ev {
      case Startup(ops) => RecoveryRestores(w, ops, dims);
      case Complete(req) =>
        match req {
          case RememberOne(r, op) =>
            ShortRuns(w, IndexRebuild, IndexRebuild, IndexRebuild, dims);
            RememberKeepsVisible(w, [r], [op], dims);
          case RememberMany(records, ops) => RememberBatchIsVisible(w, records, ops, dims);
          case Revise(r, expected, op) => UpdateKeepsVisible(w, r, expected, op, dims);
          case Forget(scope, ids, ops) => ForgetIsVisible(w, scope, ids, ops, dims);
          case Vacuum(batch, now, victims) => VacuumIsVisible(w, batch, now, victims, dims);
          case Reindex => RebuildMakesVisible(w, dims);
        }
    }
  }

  lemma RememberBatchIsVisible(w: World, records: seq<Record>, ops: seq<Option<string>>, dims: nat)
    requires |records| == |ops| && Visible(w) && NewRows(records, dims)
    ensures Visible(Run(w, RememberBatchEffects(records, ops), dims).world)
  {
    if records != [] { RememberKeepsVisible(w, records, ops, dims); }
  }

  lemma ForgetIsVisible(w: World, scope: Scope, ids: seq<string>, ops: seq<Option<string>>, dims: nat)
    requires |ids| == |ops| && Visible(w) && Hides(w.db, scope, ids)
    ensures Visible(Run(w, ForgetEffects(scope, ids, ops), dims).world)
  {
    if ids != [] { ForgetKeepsVisible(w, scope, ids, ops, dims); }
  }

  lemma VacuumIsVisible(w: World, batch: nat, now: int, victims: set<string>, dims: nat)
    requires RightRows(w.db, dims) && Visible(w) && VacuumPick(w.db, batch, now, victims)
    ensures Visible(Run(w, VacuumEffects(batch, victims), dims).world)
  {
    VacuumMakesVisible(w, batch, victims, dims);
  }

  ghost predicate AllClean(w: World, used: set<string>, run: seq<Event>, dims: nat)
    requires IsRun(w, used, run, dims)
    decreases |run|
  {
    run == [] || (Clean(w, run[0]) && AllClean(Next(w, run[0], used, dims), used + Spent(run[0]), run[1..], dims))
  }

  /** Index visibility equals Active status after every completed operation. */
  lemma {:induction false} CompletedRunsStayVisible(w: World, used: set<string>, run: seq<Event>, dims: nat)
    requires IsRun(w, used, run, dims) && Sound(w.db, used, dims) && Visible(w) && AllClean(w, used, run, dims)
    ensures Visible(After(w, used, run, dims))
    decreases |run|
  {
    if run == [] {
    } else {
      hide Sound, MayHappen, Next, Visible, Clean;
      NextKeepsVisible(w, run[0], used, dims);
      NextKeepsSound(w, run[0], used, dims);
      CompletedRunsStayVisible(Next(w, run[0], used, dims), used + Spent(run[0]), run[1..], dims);
    }
  }
}
