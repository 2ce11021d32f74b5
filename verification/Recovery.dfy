/** Startup recovery: the loop over the pending operations and the rebuild that follows. */
module Recovery {
  import opened Repository
  import opened Adapter
  import opened Journal

  /** Recovery acts on the row of a remember or update operation if it is Pending or Active. */
  predicate Acts(db: Db, o: string)
    requires o in db.operations
  {
    var op := db.operations[o];
    op.kind != OpKind.Delete && op.memoryId in db.memories && db.memories[op.memoryId].status in {Pending, Active}
  }

  /** What the loop does for one pending operation, given the rows at that moment. */
  function RecoverEffects(db: Db, o: string): seq<Effect>
    requires o in db.operations
  {
    var op := db.operations[o];
    if op.kind == OpKind.Delete then [IndexRemove([op.memoryId]), TxApply([o])]
    else if op.memoryId !in db.memories then []
    else
      var r := db.memories[op.memoryId];
      (if Acts(db, o) then [IndexUpsert([(op.memoryId, r.embedding)])] else []) +
      (if r.status == Pending then [TxActivate([op.memoryId])] else []) +
      [TxApply([o])]
  }

  /** Recovery can finish with the operation: it is a deletion, or its row exists. */
  predicate Finishable(db: Db, o: string)
    requires o in db.operations
  {
    db.operations[o].kind == OpKind.Delete || db.operations[o].memoryId in db.memories
  }

  /** The store after the loop has dealt with one operation. */
  function Settle(db: Db, o: string): Db
    requires o in db.operations
  {
    var op := db.operations[o];
    if !Finishable(db, o) then db
    else if Acts(db, o) && db.memories[op.memoryId].status == Pending then
      MarkApplied(SetStatus(db, [op.memoryId], Active), [o])
    else MarkApplied(db, [o])
  }

  /** The index refuses the row's embedding. */
  predicate Blocked(db: Db, o: string, dims: nat)
    requires o in db.operations
  {
    Acts(db, o) && |db.memories[db.operations[o].memoryId].embedding| != dims
  }

  /** How far one step may have come: the row is activated, and only then the operation marked. */
  ghost predicate StepsTo(db: Db, o: string, t: Db)
    requires o in db.operations
  {
    var op := db.operations[o];
    var activated := SetStatus(db, [op.memoryId], Active);
    || t == db
    || (Acts(db, o) && db.memories[op.memoryId].status == Pending &&
        (t == activated || t == MarkApplied(activated, [o])))
    || (Finishable(db, o) && (Acts(db, o) ==> db.memories[op.memoryId].status != Pending) && t == MarkApplied(db, [o]))
  }

  lemma OneItemFits(id: string, embedding: seq<real>, dims: nat)
    ensures RightDims([(id, embedding)], dims) <==> |embedding| == dims
  {
    assert [(id, embedding)][0].1 == embedding;
  }

  /** The step of a Pending row: index, activation, mark. */
  lemma PendingStepReaches(w: World, o: string, k: nat, dims: nat)
    requires o in w.db.operations && Acts(w.db, o) && w.db.memories[w.db.operations[o].memoryId].status == Pending
    requires k <= |RecoverEffects(w.db, o)|
    ensures StepReaches(w, o, k, dims)
  {
    hide SetStatus, MarkApplied, StoppingBatch, IdSet, Run, RightDims;
    var effects := RecoverEffects(w.db, o);
    if Acts(w.db, o) {
      OneItemFits(w.db.operations[o].memoryId, w.db.memories[w.db.operations[o].memoryId].embedding, dims);
    }
    var a, b, c := effects[0], effects[1], effects[2];
    assert effects == [a, b, c];
    assert effects[..k] == if k == 0 then [] else if k == 1 then [a] else if k == 2 then [a, b] else [a, b, c];
    ShortRuns(w, a, b, c, dims);
    ShortRuns(Exec(w, a, dims).world, b, c, a, dims);
  }

  lemma OtherStepReaches(w: World, o: string, k: nat, dims: nat)
    requires o in w.db.operations && !(Acts(w.db, o) && w.db.memories[w.db.operations[o].memoryId].status == Pending)
    requires k <= |RecoverEffects(w.db, o)|
    ensures StepReaches(w, o, k, dims)
  {
    var effects := RecoverEffects(w.db, o);
    if |effects| == 2 {
      TwoEffectsReach(w, o, k, dims);
    } else {
      FewEffectsReach(w, o, k, dims);
    }
  }

  /** The step of a deletion, or of an Active row. */
  lemma TwoEffectsReach(w: World, o: string, k: nat, dims: nat)
    requires o in w.db.operations && !(Acts(w.db, o) && w.db.memories[w.db.operations[o].memoryId].status == Pending)
    requires |RecoverEffects(w.db, o)| == 2 && k <= 2
    ensures StepReaches(w, o, k, dims)
  {
    hide SetStatus, MarkApplied, StoppingBatch, IdSet, Run, RightDims;
    var effects := RecoverEffects(w.db, o);
    if Acts(w.db, o) {
      OneItemFits(w.db.operations[o].memoryId, w.db.memories[w.db.operations[o].memoryId].embedding, dims);
    }
    var a, b := effects[0], effects[1];
    assert effects == [a, b];
    assert effects[..k] == if k == 0 then [] else if k == 1 then [a] else [a, b];
    ShortRuns(w, a, b, a, dims);
  }

  /** The step of a Deleted row, or of a row that is gone. */
  lemma FewEffectsReach(w: World, o: string, k: nat, dims: nat)
    requires o in w.db.operations && !(Acts(w.db, o) && w.db.memories[w.db.operations[o].memoryId].status == Pending)
    requires k <= |RecoverEffects(w.db, o)| < 2
    ensures StepReaches(w, o, k, dims)
  {
    hide SetStatus, MarkApplied, StoppingBatch, IdSet, Run, RightDims;
    var effects := RecoverEffects(w.db, o);
    var a := TxApply([o]);
    assert effects == if effects == [] then [] else [a];
    assert effects[..k] == if k == 0 then [] else [a];
    ShortRuns(w, a, a, a, dims);
  }

  /** What the first k effects of a step, and the whole step, leave behind. */
  ghost predicate StepReaches(w: World, o: string, k: nat, dims: nat)
    requires o in w.db.operations && k <= |RecoverEffects(w.db, o)|
  {
    var part, whole := Run(w, RecoverEffects(w.db, o)[..k], dims), Run(w, RecoverEffects(w.db, o), dims);
    && StepsTo(w.db, o, part.world.db) && (part.Failed? ==> part.world.db == w.db)
    && (whole.Done? <==> !Blocked(w.db, o, dims))
    && whole.world.db == (if whole.Done? then Settle(w.db, o) else w.db)
    && (whole.Failed? ==> whole.error == Error.DimensionMismatch)
  }

  lemma StepResult(w: World, o: string, k: nat, dims: nat)
    requires o in w.db.operations && k <= |RecoverEffects(w.db, o)|
    ensures StepReaches(w, o, k, dims)
  {
    if Acts(w.db, o) && w.db.memories[w.db.operations[o].memoryId].status == Pending {
      PendingStepReaches(w, o, k, dims);
    } else {
      OtherStepReaches(w, o, k, dims);
    }
  }

  /** `recover_startup` over the pending operations listed in `ops`; the journal never loses an entry. */
  function RecoverAll(w: World, ops: seq<string>, dims: nat): Step
    requires forall o :: o in ops ==> o in w.db.operations
    decreases |ops|
  {
    if ops == [] then Run(w, [IndexRebuild], dims)
    else
      StepResult(w, ops[0], |RecoverEffects(w.db, ops[0])|, dims);
      match Run(w, RecoverEffects(w.db, ops[0]), dims)
      case Done(w1) => RecoverAll(w1, ops[1..], dims)
      case Failed(w1, e) => Failed(w1, e)
  }

  /** The worlds after each effect of a recovery. */
  function RecoverTrace(w: World, ops: seq<string>, dims: nat): seq<World>
    requires forall o :: o in ops ==> o in w.db.operations
    decreases |ops|
  {
    if ops == [] then Trace(w, [IndexRebuild], dims)
    else
      StepResult(w, ops[0], |RecoverEffects(w.db, ops[0])|, dims);
      var s := Run(w, RecoverEffects(w.db, ops[0]), dims);
      Trace(w, RecoverEffects(w.db, ops[0]), dims) + if s.Done? then RecoverTrace(s.world, ops[1..], dims) else []
  }

  /** A crash inside recovery: i operations were dealt with, then k effects of the next one took place. */
  function RecoverCut(w: World, ops: seq<string>, i: nat, k: nat, dims: nat): World
    requires forall o :: o in ops ==> o in w.db.operations
    requires i < |ops|
    decreases i
  {
    StepResult(w, ops[0], |RecoverEffects(w.db, ops[0])|, dims);
    var effects := RecoverEffects(w.db, ops[0]);
    if i == 0 then Run(w, effects[..Min(k, |effects|)], dims).world
    else
      match Run(w, effects, dims)
      case Done(w1) => RecoverCut(w1, ops[1..], i - 1, k, dims)
      case Failed(w1, e) => w1
  }

  function Min(a: nat, b: nat): nat {
    if a < b then a else b
  }

  /** Some unapplied remember or update operation names the row. */
  ghost predicate Promised(db: Db, id: string) {
    exists o :: o in db.operations && !db.operations[o].applied && db.operations[o].kind != OpKind.Delete &&
                db.operations[o].memoryId == id
  }

  ghost function TargetRow(db: Db, id: string): Record
    requires id in db.memories
  {
    var r := db.memories[id];
    if r.status == Pending && Promised(db, id) then r.(status := Active) else r
  }

  /** The store that recovery aims for, whatever the order of the operations. */
  ghost function Recovered(db: Db): Db {
    Db(map id | id in db.memories :: TargetRow(db, id),
       map o | o in db.operations ::
         if Finishable(db, o) then db.operations[o].(applied := true) else db.operations[o])
  }

  // ---- recovery heads for the same store from every point on its way ----

  lemma ActivationKeepsTarget(db: Db, o: string)
    requires o in db.operations && !db.operations[o].applied && Acts(db, o)
    ensures Recovered(SetStatus(db, [db.operations[o].memoryId], Active)) == Recovered(db)
  {
    var m := db.operations[o].memoryId;
    var t := SetStatus(db, [m], Active);
    assert Promised(db, m);
    ActivatesOne(db, m);
    hide SetStatus;
    forall id | id in db.memories ensures TargetRow(t, id) == TargetRow(db, id) {
      SamePromises(db, t, id);
      hide Promised;
    }
    hide TargetRow;
  }

  lemma ActivatesOne(db: Db, m: string)
    ensures var t := SetStatus(db, [m], Active);
            && t.operations == db.operations && t.memories.Keys == db.memories.Keys
            && forall id :: id in db.memories ==>
                 t.memories[id] == if id == m then db.memories[id].(status := Active) else db.memories[id]
  {
  }

  lemma SamePromises(db: Db, t: Db, id: string)
    requires t.operations == db.operations
    ensures Promised(t, id) == Promised(db, id)
  {
  }

  lemma MarkKeepsTarget(db: Db, o: string)
    requires o in db.operations && Finishable(db, o)
    requires Acts(db, o) ==> db.memories[db.operations[o].memoryId].status != Pending
    ensures Recovered(MarkApplied(db, [o])) == Recovered(db)
  {
    var t := MarkApplied(db, [o]);
    forall id | id in db.memories && db.memories[id].status == Pending ensures Promised(t, id) == Promised(db, id) {
      if Promised(db, id) {
        var p :| p in db.operations && !db.operations[p].applied && db.operations[p].kind != OpKind.Delete &&
                 db.operations[p].memoryId == id;
        assert p != o;
        assert p in t.operations && t.operations[p] == db.operations[p];
      }
    }
  }

  lemma StepKeepsTarget(db: Db, o: string, t: Db)
    requires o in db.operations && !db.operations[o].applied && StepsTo(db, o, t)
    ensures Recovered(t) == Recovered(db)
    ensures t.operations.Keys == db.operations.Keys && t.memories.Keys == db.memories.Keys
    ensures forall p :: p in db.operations && p != o ==> t.operations[p] == db.operations[p]
  {
    hide Recovered;
    var op := db.operations[o];
    if t != db {
      if Acts(db, o) && db.memories[op.memoryId].status == Pending {
        ActivationKeepsTarget(db, o);
        if t != SetStatus(db, [op.memoryId], Active) { MarkKeepsTarget(SetStatus(db, [op.memoryId], Active), o); }
      } else {
        MarkKeepsTarget(db, o);
      }
    }
  }

  /** The listed operations are unapplied and distinct, and no other unapplied one can be finished. */
  ghost predicate Outstanding(db: Db, ops: seq<string>) {
    && (forall o :: o in ops ==> o in db.operations && !db.operations[o].applied)
    && (forall i, j :: 0 <= i < j < |ops| ==> ops[i] != ops[j])
    && forall o :: o in db.operations && !db.operations[o].applied && o !in ops ==> !Finishable(db, o)
  }

  /** `get_pending_operations`, in any order. */
  ghost predicate Lists(db: Db, ops: seq<string>) {
    && (forall o :: o in ops <==> o in PendingOps(db))
    && forall i, j :: 0 <= i < j < |ops| ==> ops[i] != ops[j]
  }

  lemma ListedIsOutstanding(db: Db, ops: seq<string>)
    requires Lists(db, ops)
    ensures Outstanding(db, ops)
  {
  }

  lemma NothingOutstanding(db: Db)
    requires Outstanding(db, [])
    ensures Recovered(db) == db
  {
    forall id | id in db.memories ensures !Promised(db, id) {
    }
  }

  lemma SettleKeepsRest(db: Db, ops: seq<string>, dims: nat)
    requires ops != [] && Outstanding(db, ops)
    ensures ops[0] in db.operations && !db.operations[ops[0]].applied
    ensures var t := Settle(db, ops[0]);
            && StepsTo(db, ops[0], t) && Outstanding(t, ops[1..])
            && forall p :: p in ops[1..] ==> p in t.operations && (Blocked(t, p, dims) <==> Blocked(db, p, dims))
  {
    var o := ops[0];
    SettleSteps(db, o);
    SettleChanges(db, o, dims);
    assert ops == [o] + ops[1..];
    forall p | p in ops[1..] ensures p != o && p in ops {
      var i :| 0 <= i < |ops[1..]| && ops[1..][i] == p;
      assert ops[i + 1] == p;
    }
    hide Settle, Finishable, Blocked, StepsTo;
  }

  lemma SettleSteps(db: Db, o: string)
    requires o in db.operations
    ensures StepsTo(db, o, Settle(db, o))
  {
    hide SetStatus, MarkApplied;
  }

  /** Settling an operation marks it, if it can be finished, and changes nothing that matters to the others. */
  lemma SettleChanges(db: Db, o: string, dims: nat)
    requires o in db.operations
    ensures var t := Settle(db, o);
            && t.operations.Keys == db.operations.Keys
            && t.operations[o].applied == (db.operations[o].applied || Finishable(db, o))
            && (forall p :: p in db.operations ==> (Finishable(t, p) <==> Finishable(db, p)))
            && forall p :: p in db.operations && p != o ==>
                 t.operations[p] == db.operations[p] && (Blocked(t, p, dims) <==> Blocked(db, p, dims))
  {
  }

  /** The whole of recovery: it fails exactly if the index refuses a row; otherwise the store is the target,
      whatever the order, and the index has been rebuilt from it. */
  lemma {:induction false} RecoverAllResult(w: World, ops: seq<string>, dims: nat)
    requires Outstanding(w.db, ops)
    ensures var s := RecoverAll(w, ops, dims);
            && (s.Done? <==> forall o :: o in ops ==> !Blocked(w.db, o, dims))
            && (s.Done? ==> s.world == World(Recovered(w.db), Fitting(ActiveEmbeddings(Recovered(w.db)), dims)))
            && (s.Failed? ==> Recovered(s.world.db) == Recovered(w.db))
    decreases |ops|
  {
    hide RecoverEffects, Settle, StepsTo, Recovered, Outstanding, Blocked;
    if ops == [] {
      NothingOutstanding(w.db);
      RunOne(w, IndexRebuild, dims);
    } else {
      SettleKeepsRest(w.db, ops, dims);
      StepResult(w, ops[0], 0, dims);
      var s := Run(w, RecoverEffects(w.db, ops[0]), dims);
      if s.Done? {
        StepKeepsTarget(w.db, ops[0], s.world.db);
        RecoverAllResult(s.world, ops[1..], dims);
        assert ops == [ops[0]] + ops[1..];
      }
    }
  }

  /** A crash anywhere inside recovery leaves a store with the same target. */
  lemma {:induction false} RecoverCutKeepsTarget(w: World, ops: seq<string>, i: nat, k: nat, dims: nat)
    requires Outstanding(w.db, ops) && i < |ops|
    ensures Recovered(RecoverCut(w, ops, i, k, dims).db) == Recovered(w.db)
    decreases i
  {
    hide RecoverEffects, Settle, StepsTo, Recovered, Outstanding, Blocked;
    SettleKeepsRest(w.db, ops, dims);
    var effects := RecoverEffects(w.db, ops[0]);
    if i == 0 {
      StepResult(w, ops[0], Min(k, |effects|), dims);
      StepKeepsTarget(w.db, ops[0], Run(w, effects[..Min(k, |effects|)], dims).world.db);
    } else {
      StepResult(w, ops[0], 0, dims);
      var s := Run(w, effects, dims);
      if s.Done? {
        StepKeepsTarget(w.db, ops[0], s.world.db);
        RecoverCutKeepsTarget(s.world, ops[1..], i - 1, k, dims);
      }
    }
  }

  /** So does every world that the running recovery passes through. */
  lemma {:induction false} EveryRecoveryWorldKeepsTarget(w: World, ops: seq<string>, x: World, dims: nat)
    requires Outstanding(w.db, ops) && x in RecoverTrace(w, ops, dims)
    ensures Recovered(x.db) == Recovered(w.db)
    decreases |ops|
  {
    hide RecoverEffects, Settle, StepsTo, Recovered, Outstanding, Blocked;
    if ops == [] {
      var i :| 0 <= i < |Trace(w, [IndexRebuild], dims)| && Trace(w, [IndexRebuild], dims)[i] == x;
      assert [IndexRebuild][..1] == [IndexRebuild];
      TraceListsCuts(w, [IndexRebuild], dims, i);
      RunOne(w, IndexRebuild, dims);
    } else {
      SettleKeepsRest(w.db, ops, dims);
      var effects := RecoverEffects(w.db, ops[0]);
      var own := Trace(w, effects, dims);
      var s := Run(w, effects, dims);
      if x in own {
        var i :| 0 <= i < |own| && own[i] == x;
        TraceListsCuts(w, effects, dims, i);
        StepResult(w, ops[0], i + 1, dims);
        StepKeepsTarget(w.db, ops[0], x.db);
      } else {
        StepResult(w, ops[0], 0, dims);
        StepKeepsTarget(w.db, ops[0], s.world.db);
        EveryRecoveryWorldKeepsTarget(s.world, ops[1..], x, dims);
      }
    }
  }

  // ---- the theorems about recovery ----

  lemma TargetRows(db: Db, dims: nat)
    ensures RightRows(Recovered(db), dims) <==> RightRows(db, dims)
    ensures RightRows(db, dims) ==> Fitting(ActiveEmbeddings(Recovered(db)), dims) == ActiveEmbeddings(Recovered(db))
    ensures RightRows(db, dims) ==> forall o :: o in db.operations ==> !Blocked(db, o, dims)
  {
    hide Promised;
    var t := Recovered(db);
    forall id ensures id in t.memories <==> id in db.memories {
    }
    forall id | id in t.memories ensures t.memories[id].embedding == db.memories[id].embedding {
    }
  }

  /** From any state, recovery puts exactly the Active rows into the index. */
  lemma RecoveryRestores(w: World, ops: seq<string>, dims: nat)
    requires Lists(w.db, ops) && RightRows(w.db, dims)
    ensures var s := RecoverAll(w, ops, dims);
            s.Done? && s.world.db == Recovered(w.db) && Visible(s.world)
  {
    hide Recovered, Blocked;
    ListedIsOutstanding(w.db, ops);
    RecoverAllResult(w, ops, dims);
    TargetRows(w.db, dims);
  }

  /** A crash inside recovery, whatever it leaves in the index, and a second recovery in another order end in
      the world that one recovery reaches. */
  lemma CrashedRecoveryIsHarmless(w: World, ops: seq<string>, i: nat, k: nat, index: Vectors, again: seq<string>,
                                  dims: nat)
    requires Lists(w.db, ops) && RightRows(w.db, dims) && i < |ops|
    requires Lists(RecoverCut(w, ops, i, k, dims).db, again)
    ensures var cut := RecoverCut(w, ops, i, k, dims);
            RecoverAll(World(cut.db, index), again, dims) == RecoverAll(w, ops, dims)
  {
    var cut := RecoverCut(w, ops, i, k, dims);
    hide Recovered, Blocked, RecoverCut, Lists, RightRows;
    TargetRows(w.db, dims);
    TargetRows(cut.db, dims);
    ListedIsOutstanding(w.db, ops);
    RecoverCutKeepsTarget(w, ops, i, k, dims);
    RecoveryRestores(w, ops, dims);
    RecoveryRestores(World(cut.db, index), again, dims);
  }

  /** Recovering what has been recovered changes nothing. */
  lemma RecoveryIsIdempotent(db: Db)
    ensures Recovered(Recovered(db)) == Recovered(db)
  {
    hide Promised;
    var t := Recovered(db);
    forall id | id in t.memories && t.memories[id].status == Pending ensures !Promised(t, id) {
      UnpromisedAfter(db, id);
    }
  }

  lemma UnpromisedAfter(db: Db, id: string)
    requires id in db.memories
    ensures !Promised(Recovered(db), id)
  {
    var t := Recovered(db);
    if Promised(t, id) {
      var o :| o in t.operations && !t.operations[o].applied && t.operations[o].kind != OpKind.Delete &&
               t.operations[o].memoryId == id;
      assert Finishable(db, o);
    }
  }

  /** What stays pending, and what recovery does to a row. */
  lemma AfterRecovery(db: Db, o: string, id: string)
    ensures o in PendingOps(Recovered(db)) <==>
            o in PendingOps(db) && db.operations[o].kind != OpKind.Delete && db.operations[o].memoryId !in db.memories
    ensures id in db.memories ==>
            Recovered(db).memories[id] == db.memories[id] ||
            (db.memories[id].status == Pending && Recovered(db).memories[id] == db.memories[id].(status := Active))
    ensures id in db.memories && db.memories[id].status == Pending ==>
            (Recovered(db).memories[id].status == Active <==> Promised(db, id))
  {
  }
}
