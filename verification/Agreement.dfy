/** When the index and the rows agree although clients interleave: id by id, what the last index effect gave is
    what the last transaction owes; and so it is whenever operations on one id do not overlap. */
module Agreement {
  import opened Options
  import opened Repository
  import opened Adapter
  import opened Journal
  import opened Visibility
  import opened Runs
  import opened Interleavings
  import opened Clients

  type Vector = seq<real>

  /** What the index holds for the id. */
  function HeldAt(index: Vectors, id: string): Option<Vector> {
    if id in index then Some(index[id]) else None
  }

  /** What it should hold: the embedding of the row, if that is Active. */
  function OwedAt(db: Db, id: string): Option<Vector> {
    if id in db.memories && db.memories[id].status == Active then Some(db.memories[id].embedding) else None
  }

  ghost predicate Agree(w: World, id: string) {
    HeldAt(w.index, id) == OwedAt(w.db, id)
  }

  lemma VisibleIsAgreement(w: World)
    ensures Visible(w) <==> forall id :: Agree(w, id)
  {
    if forall id :: Agree(w, id) {
      forall id ensures id in w.index <==> id in ActiveEmbeddings(w.db) {
        assert Agree(w, id);
      }
      forall id | id in w.index ensures w.index[id] == ActiveEmbeddings(w.db)[id] {
        assert Agree(w, id);
      }
    }
  }

  // ---- any list of effects ----

  /** The vector of the last item for the id that a batch reaches before it stops at a wrong dimension. */
  function LastItem(items: seq<(string, Vector)>, id: string, dims: nat): Option<Vector>
    decreases |items|
  {
    if items == [] || |items[0].1| != dims then None
    else if LastItem(items[1..], id, dims).Some? then LastItem(items[1..], id, dims)
    else if items[0].0 == id then Some(items[0].1) else None
  }

  /** What an index effect makes the index hold for the id, if it concerns the id. */
  function Gives(db: Db, e: Effect, id: string, dims: nat): Option<Option<Vector>> {
    match e
    case IndexUpsert(items) => if LastItem(items, id, dims).Some? then Some(LastItem(items, id, dims)) else None
    case IndexRemove(ids) => if id in ids then Some(None) else None
    case IndexRebuild =>
      var v := OwedAt(db, id);
      Some(if v.Some? && |v.value| == dims then v else None)
    case _ => None
  }

  /** What a transaction makes the index owe for the id, if it concerns the row. */
  function Owes(db: Db, e: Effect, id: string): Option<Option<Vector>> {
    match e
    case TxInsert(records, ops) =>
      var t := InsertPending(db, records, Padded(ops, |records|));
      if t.Committed? && id in RowIds(records) then Some(OwedAt(t.db, id)) else None
    case TxActivate(ids) =>
      if id in ids && id in db.memories then Some(Some(db.memories[id].embedding)) else None
    case TxUpdate(r, expected, op) =>
      if CommitsUpdate(db, e, id) then Some(if r.status == Active then Some(r.embedding) else None) else None
    case TxDelete(scope, ids, ops) => if Deletes(db, e, id) then Some(None) else None
    case TxPurge(victims) => if id in victims then Some(None) else None
    case _ => None
  }

  /** The newer value, if there is one. */
  function Latest(newer: Option<Option<Vector>>, older: Option<Vector>): Option<Vector> {
    if newer.Some? then newer.value else older
  }

  lemma {:induction false} BatchGives(index: Vectors, items: seq<(string, Vector)>, id: string, dims: nat)
    ensures HeldAt(StoppingBatch(index, items, dims), id) ==
            if LastItem(items, id, dims).Some? then LastItem(items, id, dims) else HeldAt(index, id)
    decreases |items|
  {
    if items == [] || |items[0].1| != dims {
    } else {
      BatchGives(index[items[0].0 := items[0].1], items[1..], id, dims);
    }
  }

  /** An effect changes what is held and what is owed as said, and nothing else. */
  lemma ExecGives(w: World, e: Effect, id: string, dims: nat)
    ensures var t := Exec(w, e, dims).world;
            HeldAt(t.index, id) == Latest(Gives(w.db, e, id, dims), HeldAt(w.index, id))
  {
    match e {
      case IndexUpsert(items) => BatchGives(w.index, items, id, dims);
      case IndexRemove(ids) => assert id in IdSet(ids) <==> id in ids;
      case _ =>
    }
  }

  lemma ExecOwes(w: World, e: Effect, id: string, dims: nat)
    ensures var t := Exec(w, e, dims).world;
            OwedAt(t.db, id) == Latest(Owes(w.db, e, id), OwedAt(w.db, id))
  {
    hide InsertPending, DeleteMemory, RowIds, StoppingBatch, ActiveEmbeddings;
    match e {
      case TxInsert(records, ops) => InsertOwes(w.db, records, Padded(ops, |records|), id);
      case TxDelete(scope, ids, ops) => DeleteOwes(w.db, scope, ids, Padded(ops, |ids|), id);
      case _ =>
    }
  }

  lemma InsertOwes(db: Db, records: seq<Record>, ops: seq<Option<string>>, id: string)
    requires |records| == |ops|
    ensures var t := InsertPending(db, records, ops);
            t.Committed? && id !in RowIds(records) ==> OwedAt(t.db, id) == OwedAt(db, id)
  {
    hide InsertPending, RowIds, OpsInserted;
    if InsertPending(db, records, ops).Committed? {
      InsertedBatch(db, records, ops);
      RowIdsAreItemIds(records, id);
    }
  }

  lemma DeleteOwes(db: Db, scope: Scope, ids: seq<string>, ops: seq<Option<string>>, id: string)
    requires |ids| == |ops|
    ensures var t := DeleteMemory(db, scope, ids, ops);
            t.Committed? ==> OwedAt(t.db, id) == if id in ids && InScope(db, scope, id) then None else OwedAt(db, id)
  {
    hide DeleteMemory;
    if DeleteMemory(db, scope, ids, ops).Committed? {
      DeletedRows(db, scope, ids, ops);
    }
  }

  /** What the last index effect that concerned the id gave; at first, what the index held. */
  function LastGiven(w: World, effects: seq<Effect>, id: string, dims: nat): Option<Vector>
    decreases |effects|
  {
    if effects == [] then HeldAt(w.index, id)
    else
      var n := |effects| - 1;
      Latest(Gives(Interleave(w, effects[..n], dims).db, effects[n], id, dims), LastGiven(w, effects[..n], id, dims))
  }

  /** What the last transaction that concerned the row owes. */
  function LastOwed(w: World, effects: seq<Effect>, id: string, dims: nat): Option<Vector>
    decreases |effects|
  {
    if effects == [] then OwedAt(w.db, id)
    else
      var n := |effects| - 1;
      Latest(Owes(Interleave(w, effects[..n], dims).db, effects[n], id), LastOwed(w, effects[..n], id, dims))
  }

  lemma {:induction false} InterleaveLast(w: World, effects: seq<Effect>, dims: nat)
    requires effects != []
    ensures var n := |effects| - 1;
            Interleave(w, effects, dims) == Exec(Interleave(w, effects[..n], dims), effects[n], dims).world
    decreases |effects|
  {
    hide Exec;
    var n := |effects| - 1;
    if n == 0 {
      assert effects == [effects[0]] && effects[1..] == [];
    } else {
      assert effects[1..][..n - 1] == effects[..n][1..];
      InterleaveLast(Exec(w, effects[0], dims).world, effects[1..], dims);
    }
  }

  lemma {:induction false} LastEffectsDecide(w: World, effects: seq<Effect>, id: string, dims: nat)
    ensures var t := Interleave(w, effects, dims);
            HeldAt(t.index, id) == LastGiven(w, effects, id, dims) && OwedAt(t.db, id) == LastOwed(w, effects, id, dims)
    decreases |effects|
  {
    hide Exec, Gives, Owes;
    if effects == [] {
    } else {
      var n := |effects| - 1;
      LastEffectsDecide(w, effects[..n], id, dims);
      InterleaveLast(w, effects, dims);
      hide Interleave;
      ExecGives(Interleave(w, effects[..n], dims), effects[n], id, dims);
      ExecOwes(Interleave(w, effects[..n], dims), effects[n], id, dims);
    }
  }

  ghost predicate LastAgree(w: World, effects: seq<Effect>, id: string, dims: nat) {
    LastGiven(w, effects, id, dims) == LastOwed(w, effects, id, dims)
  }

  /** After any effects in any order the index shows exactly the Active rows if and only if, for every id, the
      last index effect that concerned it gave what the last transaction that concerned it owes. */
  lemma VisibleExactly(w: World, effects: seq<Effect>, dims: nat)
    ensures Visible(Interleave(w, effects, dims)) <==> forall id :: LastAgree(w, effects, id, dims)
  {
    var t := Interleave(w, effects, dims);
    VisibleIsAgreement(t);
    forall id ensures Agree(t, id) <==> LastAgree(w, effects, id, dims) {
      LastEffectsDecide(w, effects, id, dims);
    }
    hide Agree, LastAgree, Interleave, Visible;
  }

  // ---- operations that overlap ----

  lemma InterleaveFour(w: World, a: Effect, b: Effect, c: Effect, d: Effect, dims: nat)
    ensures var x := Exec(Exec(w, a, dims).world, b, dims).world;
            Interleave(w, [a, b, c, d], dims) == Exec(Exec(x, c, dims).world, d, dims).world
  {
    hide Exec;
    var w1 := Exec(w, a, dims).world;
    var w2 := Exec(w1, b, dims).world;
    InterleavePair(w2, c, d, dims);
    assert [a, b, c, d][1..] == [b, c, d] && [b, c, d][1..] == [c, d];
    assert Interleave(w1, [b, c, d], dims) == Interleave(w2, [c, d], dims);
  }

  /** An accepted update of an Active row. */
  ghost predicate MayUpdate(db: Db, r: Record, expected: nat, dims: nat) {
    && InScope(db, r.scope, r.id) && db.memories[r.id].status == Active && db.memories[r.id].revision == expected
    && r.status == Active && |r.embedding| == dims
  }

  /** Two updates of one row commit one after the other, and write to the index the other way round: the row has
      the second embedding, the index the first. */
  lemma OverlappingUpdatesLeaveStaleVector(w: World, a: Record, b: Record, revision: nat, dims: nat)
    requires MayUpdate(w.db, a, revision, dims) && b.id == a.id && SameScope(b.scope, a.scope)
    requires b.status == Active && |b.embedding| == dims && a.embedding != b.embedding
    ensures var first, second := UpdateEffects(w.db, a, revision, None), UpdateEffects(w.db, b, revision + 1, None);
            var end := Interleave(w, [first[0], second[0], second[1], first[1]], dims);
            && HeldAt(end.index, a.id) == Some(a.embedding) && OwedAt(end.db, a.id) == Some(b.embedding)
            && !Visible(end)
  {
    hide StoppingBatch, Visible;
    var id := a.id;
    InterleaveFour(w, TxUpdate(a, revision, None), TxUpdate(b, revision + 1, None), IndexUpsert(ItemsOf([b])),
                   IndexUpsert(ItemsOf([a])), dims);
    OneItem(w.index, b, dims);
    OneItem(w.index[id := b.embedding], a, dims);
    var first, second := UpdateEffects(w.db, a, revision, None), UpdateEffects(w.db, b, revision + 1, None);
    var end := Interleave(w, [first[0], second[0], second[1], first[1]], dims);
    hide Exec;
    assert !Agree(end, id);
    VisibleIsAgreement(end);
  }

  /** A row is forgotten between the commit of an update and its call of the index: the row is Deleted, and the
      index goes on returning it. */
  lemma UpdateDuringForgetKeepsVector(w: World, a: Record, revision: nat, dims: nat)
    requires MayUpdate(w.db, a, revision, dims)
    ensures var update, forget := UpdateEffects(w.db, a, revision, None), ForgetEffects(a.scope, [a.id], [None]);
            var end := Interleave(w, [update[0], forget[0], forget[1], update[1]], dims);
            && a.id in end.db.memories && end.db.memories[a.id].status == Deleted
            && HeldAt(end.index, a.id) == Some(a.embedding) && !Visible(end)
  {
    hide StoppingBatch, Visible, DeleteMemory;
    var id := a.id;
    var none: seq<Option<string>> := [None];
    InterleaveFour(w, TxUpdate(a, revision, None), TxDelete(a.scope, [id], none), IndexRemove([id]),
                   IndexUpsert(ItemsOf([a])), dims);
    var t := UpdateMemory(w.db, a, revision, None).db;
    DeletesOneRow(t, a.scope, id);
    OneItem(w.index - IdSet([id]), a, dims);
    var update, forget := UpdateEffects(w.db, a, revision, None), ForgetEffects(a.scope, [id], none);
    var end := Interleave(w, [update[0], forget[0], forget[1], update[1]], dims);
    assert id in end.db.memories && end.db.memories[id].status == Deleted;
    hide Exec;
    assert !Agree(end, id);
    VisibleIsAgreement(end);
  }

  // ---- clients whose operations do not overlap on any id ----

  function RowAt(db: Db, id: string): Option<Record> {
    if id in db.memories then Some(db.memories[id]) else None
  }

  /** The two worlds look alike at the id. */
  ghost predicate SameAt(w: World, v: World, id: string) {
    HeldAt(w.index, id) == HeldAt(v.index, id) && RowAt(w.db, id) == RowAt(v.db, id)
  }

  /** The effect may read or write the id. */
  predicate Touches(e: Effect, id: string) {
    match e
    case TxInsert(records, ops) => id in RowIds(records)
    case TxActivate(ids) => id in ids
    case TxApply(ops) => false
    case TxUpdate(r, expected, op) => id == r.id
    case TxDelete(scope, ids, ops) => id in ids
    case TxPurge(victims) => true
    case IndexUpsert(items) => id in IdsIn(items)
    case IndexRemove(ids) => id in ids
    case IndexRebuild => true
  }

  /** An effect leaves every other id alone. */
  lemma ExecApart(w: World, e: Effect, id: string, dims: nat)
    requires !Touches(e, id)
    ensures SameAt(w, Exec(w, e, dims).world, id)
  {
    hide InsertPending, DeleteMemory, RowIds, StoppingBatch;
    match e {
      case TxInsert(records, ops) => InsertApart(w.db, records, Padded(ops, |records|), id);
      case TxDelete(scope, ids, ops) => DeleteApart(w.db, scope, ids, Padded(ops, |ids|), id);
      case IndexUpsert(items) =>
        BatchGives(w.index, items, id, dims);
        if LastItem(items, id, dims).Some? { ItemIsThere(items, id, dims); }
      case IndexRemove(ids) => assert id in IdSet(ids) <==> id in ids;
      case _ =>
    }
  }

  lemma InsertApart(db: Db, records: seq<Record>, ops: seq<Option<string>>, id: string)
    requires |records| == |ops| && id !in RowIds(records)
    ensures var t := InsertPending(db, records, ops); t.Committed? ==> RowAt(t.db, id) == RowAt(db, id)
  {
    hide InsertPending, RowIds, OpsInserted;
    if InsertPending(db, records, ops).Committed? {
      InsertedBatch(db, records, ops);
      RowIdsAreItemIds(records, id);
    }
  }

  lemma DeleteApart(db: Db, scope: Scope, ids: seq<string>, ops: seq<Option<string>>, id: string)
    requires |ids| == |ops| && id !in ids
    ensures var t := DeleteMemory(db, scope, ids, ops); t.Committed? ==> RowAt(t.db, id) == RowAt(db, id)
  {
    hide DeleteMemory;
    if DeleteMemory(db, scope, ids, ops).Committed? {
      DeletedRows(db, scope, ids, ops);
    }
  }

  lemma {:induction false} ItemIsThere(items: seq<(string, Vector)>, id: string, dims: nat)
    requires LastItem(items, id, dims).Some?
    ensures id in IdsIn(items)
    decreases |items|
  {
    if LastItem(items[1..], id, dims).Some? {
      ItemIsThere(items[1..], id, dims);
      var i :| 0 <= i < |items[1..]| && items[1..][i].0 == id;
      assert items[i + 1].0 == id;
    } else {
      assert items[0].0 == id;
    }
  }

  /** Effects that cannot fail. */
  ghost predicate Smooth(e: Effect, dims: nat) {
    (e.IndexUpsert? && RightDims(e.items, dims)) || e.IndexRemove? || e.TxActivate? || e.TxApply? || e.IndexRebuild?
  }

  ghost predicate AllSmooth(todo: seq<Effect>, dims: nat) {
    forall i :: 0 <= i < |todo| ==> Smooth(todo[i], dims)
  }

  ghost predicate NoRebuild(todo: seq<Effect>) {
    forall i :: 0 <= i < |todo| ==> !todo[i].IndexRebuild?
  }

  /** What such an effect does to an id depends on what is there alone. */
  lemma ExecLocal(w: World, v: World, e: Effect, id: string, dims: nat)
    requires SameAt(w, v, id) && Smooth(e, dims) && !e.IndexRebuild?
    ensures var s, t := Exec(w, e, dims), Exec(v, e, dims); s.Done? && t.Done? && SameAt(s.world, t.world, id)
  {
    hide StoppingBatch;
    match e {
      case IndexUpsert(items) =>
        BatchGives(w.index, items, id, dims);
        BatchGives(v.index, items, id, dims);
      case _ =>
    }
  }

  lemma {:induction false} RunLocal(w: World, v: World, todo: seq<Effect>, id: string, dims: nat)
    requires SameAt(w, v, id) && AllSmooth(todo, dims) && NoRebuild(todo)
    ensures SameAt(Run(w, todo, dims).world, Run(v, todo, dims).world, id)
    decreases |todo|
  {
    hide Exec, SameAt, Smooth;
    if todo == [] {
    } else {
      ExecLocal(w, v, todo[0], id, dims);
      RunLocal(Exec(w, todo[0], dims).world, Exec(v, todo[0], dims).world, todo[1..], id, dims);
    }
  }

  // the lists of effects of the operations

  predicate BeginsWithTx(todo: seq<Effect>) {
    todo != [] && (todo[0].TxInsert? || todo[0].TxUpdate? || todo[0].TxDelete? || todo[0].TxPurge?)
  }

  /** A list that has not begun: its transaction, and what follows it. */
  ghost predicate Whole(todo: seq<Effect>, dims: nat)
    requires BeginsWithTx(todo)
  {
    var e := todo[0];
    (e.TxInsert? ==> |e.records| == |e.ops| && e.records != [] && NewRows(e.records, dims)
                     && todo == RememberBatchEffects(e.records, e.ops))
    && (e.TxUpdate? ==> e.record.status == Active && |e.record.embedding| == dims
                        && todo == [e, IndexUpsert(ItemsOf([e.record]))] + ApplyEffects([e.op]))
    && (e.TxDelete? ==> |e.ids| == |e.ops| && e.ids != [] && todo == ForgetEffects(e.scope, e.ids, e.ops))
    && (e.TxPurge? ==> todo == [e] + if e.victims == {} then [] else [IndexRebuild])
  }

  /** A forget finds every Active row that it names in its scope. */
  ghost predicate InOwnScope(db: Db, e: Effect) {
    e.TxDelete? ==> Hides(db, e.scope, e.ids)
  }

  /** The store of this world, with the index that it should have. */
  function Ideal(w: World): World {
    World(w.db, ActiveEmbeddings(w.db))
  }

  lemma IdealIsVisible(w: World, id: string)
    ensures Visible(Ideal(w)) && (Agree(w, id) ==> SameAt(w, Ideal(w), id))
  {
  }

  /** The transaction of a list reads and writes the tables only. */
  lemma TxIgnoresIndex(w: World, v: World, e: Effect, dims: nat)
    requires w.db == v.db && BeginsWithTx([e])
    ensures var s, t := Exec(w, e, dims), Exec(v, e, dims);
            && (s.Done? <==> t.Done?) && s.world.db == t.world.db
            && s.world.index == w.index && t.world.index == v.index && (s.Failed? ==> s.world == w)
  {
    hide InsertPending, DeleteMemory, UpdateMemory;
  }

  /** Alone, each operation restores the agreement of the whole index. */
  lemma IdealRun(v: World, todo: seq<Effect>, dims: nat)
    requires BeginsWithTx(todo) && Whole(todo, dims) && Visible(v) && RightRows(v.db, dims)
    requires InOwnScope(v.db, todo[0]) && Exec(v, todo[0], dims).Done?
    ensures Visible(Run(v, todo, dims).world)
  {
    hide Visible, RightRows, NewRows, Hides, DeleteMemory, InsertPending, UpdateMemory, Run;
    var e := todo[0];
    if e.TxInsert? {
      assert Padded(e.ops, |e.records|) == e.ops;
      RememberKeepsVisible(v, e.records, e.ops, dims);
    } else if e.TxUpdate? {
      CommittedOpIsNew(v.db, e.record, e.expected, e.op);
      UpdateKeepsVisible(v, e.record, e.expected, e.op, dims);
    } else if e.TxDelete? {
      assert Padded(e.ops, |e.ids|) == e.ops;
      ForgetKeepsVisible(v, e.scope, e.ids, e.ops, dims);
    } else {
      assert todo == VacuumEffects(1, e.victims);
      VacuumMakesVisible(v, 1, e.victims, dims);
    }
  }

  lemma CommittedOpIsNew(db: Db, r: Record, expected: nat, op: Option<string>)
    requires UpdateMemory(db, r, expected, op).Committed?
    ensures JournaledId(db, op) == None
  {
  }

  lemma SmoothThenApply(front: seq<Effect>, ops: seq<Option<string>>, dims: nat)
    requires AllSmooth(front, dims) && NoRebuild(front)
    ensures var todo := front + ApplyEffects(ops);
            AllSmooth(todo, dims) && NoRebuild(todo) && (front != [] ==> !BeginsWithTx(todo))
  {
    hide Present, RightDims;
    if front != [] { assert Smooth(front[0], dims); }
  }

  /** What follows a transaction cannot fail. */
  lemma TailIsSmooth(db: Db, todo: seq<Effect>, dims: nat)
    requires BeginsWithTx(todo) && Whole(todo, dims)
    ensures AllSmooth(todo[1..], dims) && !BeginsWithTx(todo[1..])
    ensures !todo[0].TxPurge? ==> NoRebuild(todo[1..])
  {
    hide RowIds, ItemsOf, ApplyEffects;
    var e := todo[0];
    if e.TxInsert? {
      ItemsFit(e.records, dims);
      var front := [IndexUpsert(ItemsOf(e.records)), TxActivate(RowIds(e.records))];
      SmoothThenApply(front, e.ops, dims);
      assert todo[1..] == front + ApplyEffects(e.ops);
    } else if e.TxUpdate? {
      ItemsFit([e.record], dims);
      var front := [IndexUpsert(ItemsOf([e.record]))];
      SmoothThenApply(front, [e.op], dims);
      assert todo[1..] == front + ApplyEffects([e.op]);
    } else if e.TxDelete? {
      assert todo[1..] == [IndexRemove(e.ids)];
    } else {
      assert todo[1..] == if e.victims == {} then [] else [IndexRebuild];
    }
  }

  lemma ItemsFit(records: seq<Record>, dims: nat)
    requires forall i :: 0 <= i < |records| ==> |records[i].embedding| == dims
    ensures RightDims(ItemsOf(records), dims)
  {
  }

  /** A transaction that commits where index and rows agree at an id: what follows restores the agreement, whatever
      the rest of the index is like. */
  lemma WholeSettles(w: World, todo: seq<Effect>, id: string, dims: nat)
    requires BeginsWithTx(todo) && Whole(todo, dims) && Agree(w, id) && RightRows(w.db, dims)
    requires InOwnScope(w.db, todo[0]) && Exec(w, todo[0], dims).Done?
    ensures Agree(Run(w, todo, dims).world, id)
  {
    hide Exec, Whole, Visible, RightRows, InOwnScope, SameAt, AllSmooth, NoRebuild;
    var v, e := Ideal(w), todo[0];
    IdealIsVisible(w, id);
    TxIgnoresIndex(w, v, e, dims);
    IdealRun(v, todo, dims);
    TailIsSmooth(w.db, todo, dims);
    var w1, v1 := Exec(w, e, dims).world, Exec(v, e, dims).world;
    if e.TxPurge? {
      PurgeSettles(w, todo, id, dims);
    } else {
      SameTables(w, v, w1, v1, id);
      RunLocal(w1, v1, todo[1..], id, dims);
      SameAgrees(Run(v, todo, dims).world, Run(w, todo, dims).world, id);
    }
  }

  lemma SameTables(w: World, v: World, w1: World, v1: World, id: string)
    requires SameAt(w, v, id) && w1.index == w.index && v1.index == v.index && w1.db == v1.db
    ensures SameAt(w1, v1, id)
  {
  }

  lemma SameAgrees(v: World, w: World, id: string)
    requires Visible(v) && SameAt(w, v, id)
    ensures Agree(w, id)
  {
  }

  lemma PurgeSettles(w: World, todo: seq<Effect>, id: string, dims: nat)
    requires BeginsWithTx(todo) && Whole(todo, dims) && todo[0].TxPurge? && Agree(w, id) && RightRows(w.db, dims)
    ensures Agree(Run(w, todo, dims).world, id)
  {
    hide Run, Visible, RightRows, Agree;
    var victims := todo[0].victims;
    assert todo == VacuumEffects(1, victims);
    VacuumMakesVisible(w, 1, victims, dims);
    if victims != {} { VisibleIsAgreement(Run(w, todo, dims).world); }
  }

  // the system

  /** Requests that look at every row, or replace the whole index. */
  predicate ConcernsAll(req: Request) {
    req.Vacuum? || req.Reindex?
  }

  predicate Concerns(req: Request, id: string) {
    match req
    case RememberOne(r, op) => id == r.id
    case RememberMany(records, ops) => id in RowIds(records)
    case Revise(r, expected, op) => id == r.id
    case Forget(scope, ids, ops) => id in ids
    case Vacuum(batch, now, victims) => true
    case Reindex => true
  }

  predicate Busy(t: Thread) {
    t.todo != []
  }

  /** A client that is at work on the id. */
  predicate WorksOn(t: Thread, id: string) {
    Busy(t) && t.origin.Client? && Concerns(t.origin.request, id)
  }

  /** No id concerns both. */
  ghost predicate Apart(a: Request, b: Request) {
    !ConcernsAll(a) && !ConcernsAll(b) && forall id :: !(Concerns(a, id) && Concerns(b, id))
  }

  /** No operation is cut, none begins while another is at work on one of its ids, and rows are forgotten in their
      own scope. */
  ghost predicate Orderly(s: System, m: Move) {
    match m
    case Enter(req) =>
      forall i :: 0 <= i < |s.threads| && Busy(s.threads[i]) ==>
        s.threads[i].origin.Client? && Apart(s.threads[i].origin.request, req)
    case EnterRecovery(o) => false
    case Advance(i) => i < |s.threads| && s.threads[i].todo != [] ==> InOwnScope(s.world.db, s.threads[i].todo[0])
    case Stop(i, index) => false
    case CrashAll(index) => false
  }

  /** A list that has begun cannot fail any more. */
  ghost predicate Shaped(todo: seq<Effect>, dims: nat) {
    if BeginsWithTx(todo) then Whole(todo, dims) else AllSmooth(todo, dims)
  }

  /** The effects concern what the request concerns. */
  ghost predicate Within(todo: seq<Effect>, req: Request) {
    && (forall i, id :: 0 <= i < |todo| && Touches(todo[i], id) ==> Concerns(req, id))
    && (!ConcernsAll(req) ==> NoRebuild(todo))
  }

  ghost predicate ThreadFits(t: Thread, dims: nat) {
    t.origin.Client? && Shaped(t.todo, dims) && Within(t.todo, t.origin.request)
  }

  ghost predicate AllApart(threads: seq<Thread>) {
    forall i, j :: 0 <= i < |threads| && 0 <= j < |threads| && i != j && Busy(threads[i]) && Busy(threads[j]) ==>
      threads[i].origin.Client? && threads[j].origin.Client? &&
      Apart(threads[i].origin.request, threads[j].origin.request)
  }

  /** Before its transaction a list finds index and rows in agreement; afterwards it leaves them so. */
  ghost predicate OnCourse(w: World, todo: seq<Effect>, id: string, dims: nat) {
    Agree(if BeginsWithTx(todo) then w else Run(w, todo, dims).world, id)
  }

  ghost predicate Settled(s: System, id: string, dims: nat) {
    && (forall i :: 0 <= i < |s.threads| && WorksOn(s.threads[i], id) ==>
          OnCourse(s.world, s.threads[i].todo, id, dims))
    && ((forall i :: 0 <= i < |s.threads| ==> !WorksOn(s.threads[i], id)) ==> Agree(s.world, id))
  }

  ghost predicate AllThreadsFit(threads: seq<Thread>, dims: nat) {
    forall i :: 0 <= i < |threads| ==> ThreadFits(threads[i], dims)
  }

  ghost predicate Kept(s: System, dims: nat) {
    && RightRows(s.world.db, dims) && AllThreadsFit(s.threads, dims) && AllApart(s.threads)
    && forall id :: Settled(s, id, dims)
  }

  // a request begins

  lemma WithinAppend(a: seq<Effect>, b: seq<Effect>, req: Request)
    requires Within(a, req) && Within(b, req)
    ensures Within(a + b, req)
  {
    hide Touches, Concerns;
    forall i, id | 0 <= i < |a + b| && Touches((a + b)[i], id) ensures Concerns(req, id) {
      if i < |a| {
        assert Touches(a[i], id);
      } else {
        assert Touches(b[i - |a|], id);
      }
    }
  }

  lemma ApplyIsWithin(ops: seq<Option<string>>, req: Request)
    ensures Within(ApplyEffects(ops), req)
  {
    hide Present;
  }

  lemma BatchFitsRequest(records: seq<Record>, ops: seq<Option<string>>, req: Request, dims: nat)
    requires |records| == |ops| && NewRows(records, dims) && forall id :: Concerns(req, id) <==> id in RowIds(records)
    ensures var todo := RememberBatchEffects(records, ops);
            Shaped(todo, dims) && Within(todo, req) && (todo == [] || BeginsWithTx(todo))
  {
    hide RowIds, ItemsOf, Concerns, IdsIn, NewRows, ApplyEffects;
    RowsAreItems(records);
    ApplyIsWithin(ops, req);
    var front := [TxInsert(records, ops), IndexUpsert(ItemsOf(records)), TxActivate(RowIds(records))];
    assert Within(front, req);
    WithinAppend(front, ApplyEffects(ops), req);
  }

  lemma UpdateFitsRequest(db: Db, r: Record, expected: nat, op: Option<string>, req: Request, dims: nat)
    requires r.status == Active && |r.embedding| == dims && Concerns(req, r.id)
    ensures var todo := UpdateEffects(db, r, expected, op);
            Shaped(todo, dims) && Within(todo, req) && (todo == [] || BeginsWithTx(todo))
  {
    hide ItemsOf, Concerns, IdsIn, ApplyEffects;
    assert RowIds([r]) == [r.id];
    RowsAreItems([r]);
    ApplyIsWithin([op], req);
    var front := [TxUpdate(r, expected, op), IndexUpsert(ItemsOf([r]))];
    assert Within(front, req);
    WithinAppend(front, ApplyEffects([op]), req);
  }

  lemma EffectsFit(db: Db, req: Request, dims: nat)
    requires ValidRequest(req, dims)
    ensures ThreadFits(Thread(Client(req), EffectsOf(db, req)), dims)
    ensures var todo := EffectsOf(db, req); todo == [] || BeginsWithTx(todo) || todo == [IndexRebuild]
  {
    match req {
      case RememberOne(r, op) =>
        assert RowIds([r]) == [r.id];
        BatchFitsRequest([r], [op], req, dims);
        hide RememberBatchEffects, Shaped, Within;
      case RememberMany(records, ops) =>
        BatchFitsRequest(records, ops, req, dims);
        hide RememberBatchEffects, Shaped, Within;
      case Revise(r, e, op) =>
        UpdateFitsRequest(db, r, e, op, req, dims);
        hide UpdateEffects, Shaped, Within;
      case _ =>
    }
  }

  lemma RowsAreItems(records: seq<Record>)
    ensures forall id :: id in IdsIn(ItemsOf(records)) <==> id in RowIds(records)
  {
    forall id ensures id in IdsIn(ItemsOf(records)) <==> id in RowIds(records) {
      RowIdsAreItemIds(records, id);
    }
  }

  lemma EnterKeepsApart(s: System, m: Move, dims: nat)
    requires Kept(s, dims) && MayMove(s, m, dims) && Orderly(s, m) && m.Enter?
    ensures var t := Moved(s, m, dims); AllThreadsFit(t.threads, dims) && AllApart(t.threads)
  {
    hide EffectsOf, Concerns, ValidRequest, Shaped, Within, Settled;
    EffectsFit(s.world.db, m.request, dims);
  }

  /** Where a request begins, index and rows agree on its ids. */
  lemma EnterSettles(s: System, m: Move, id: string, dims: nat)
    requires Kept(s, dims) && MayMove(s, m, dims) && Orderly(s, m) && m.Enter?
    ensures Settled(Moved(s, m, dims), id, dims)
  {
    hide EffectsOf, ValidRequest, Shaped, Within, ThreadFits, AllApart, Agree, RightRows, Run;
    var t, n := Moved(s, m, dims), |s.threads|;
    EffectsFit(s.world.db, m.request, dims);
    assert Settled(s, id, dims);
    assert forall i :: 0 <= i < n ==> t.threads[i] == s.threads[i];
    var todo := t.threads[n].todo;
    if WorksOn(t.threads[n], id) {
      forall i | 0 <= i < n ensures !WorksOn(s.threads[i], id) {
      }
      assert Agree(s.world, id);
      if todo == [IndexRebuild] { RebuildSettles(s.world, id, dims); }
      assert OnCourse(t.world, todo, id, dims);
    }
    forall i | 0 <= i < |t.threads| && WorksOn(t.threads[i], id)
      ensures OnCourse(t.world, t.threads[i].todo, id, dims)
    {
      if i < n { assert WorksOn(s.threads[i], id); }
    }
    if forall i :: 0 <= i < |t.threads| ==> !WorksOn(t.threads[i], id) {
      forall i | 0 <= i < n ensures !WorksOn(s.threads[i], id) {
        assert !WorksOn(t.threads[i], id);
      }
    }
  }

  lemma RebuildSettles(w: World, id: string, dims: nat)
    requires RightRows(w.db, dims)
    ensures Agree(Run(w, [IndexRebuild], dims).world, id)
  {
    hide Visible, RightRows, Run;
    RebuildMakesVisible(w, dims);
    VisibleIsAgreement(Run(w, [IndexRebuild], dims).world);
  }

  // an effect is executed

  /** The effects left after the first one. */
  function Rest(w: World, todo: seq<Effect>, dims: nat): seq<Effect>
    requires todo != []
  {
    if Exec(w, todo[0], dims).Done? then todo[1..] else []
  }

  lemma RestFits(w: World, todo: seq<Effect>, req: Request, dims: nat)
    requires todo != [] && Shaped(todo, dims) && Within(todo, req)
    ensures Shaped(Rest(w, todo, dims), dims) && Within(Rest(w, todo, dims), req)
    ensures !BeginsWithTx(Rest(w, todo, dims))
  {
    hide Exec, Whole, Touches, Concerns, Smooth;
    if BeginsWithTx(todo) {
      TailIsSmooth(w.db, todo, dims);
    } else {
      SmoothIsNoTx(todo, dims);
    }
    NothingIsSmooth(dims);
  }

  lemma SmoothIsNoTx(todo: seq<Effect>, dims: nat)
    requires AllSmooth(todo, dims)
    ensures !BeginsWithTx(todo) && (todo != [] ==> AllSmooth(todo[1..], dims) && !BeginsWithTx(todo[1..]))
  {
    if |todo| > 1 { assert Smooth(todo[1], dims); }
  }

  lemma NothingIsSmooth(dims: nat)
    ensures AllSmooth([], dims) && !BeginsWithTx([])
  {
  }

  /** On its own ids the list stays on course. */
  lemma OwnCourse(w: World, todo: seq<Effect>, id: string, dims: nat)
    requires todo != [] && Shaped(todo, dims) && OnCourse(w, todo, id, dims) && RightRows(w.db, dims)
    requires InOwnScope(w.db, todo[0])
    ensures Agree(Run(Exec(w, todo[0], dims).world, Rest(w, todo, dims), dims).world, id)
  {
    hide Whole, Agree, RightRows, InOwnScope;
    if BeginsWithTx(todo) {
      TxIgnoresIndex(w, w, todo[0], dims);
      hide Exec;
      if Exec(w, todo[0], dims).Done? { WholeSettles(w, todo, id, dims); }
    } else {
      assert Smooth(todo[0], dims);
      assert Exec(w, todo[0], dims).Done?;
      hide Exec;
    }
  }

  /** On other ids nothing changes, so every other list stays on its course there. */
  lemma OtherCourse(w: World, e: Effect, todo: seq<Effect>, id: string, dims: nat)
    requires !Touches(e, id) && Shaped(todo, dims) && NoRebuild(todo) && OnCourse(w, todo, id, dims)
    ensures OnCourse(Exec(w, e, dims).world, todo, id, dims)
  {
    hide Exec, Run, Whole, NoRebuild, AllSmooth, Touches;
    var t := Exec(w, e, dims).world;
    ExecApart(w, e, id, dims);
    if !BeginsWithTx(todo) {
      RunLocal(w, t, todo, id, dims);
    }
  }

  lemma OtherAgrees(w: World, e: Effect, id: string, dims: nat)
    requires !Touches(e, id) && Agree(w, id)
    ensures Agree(Exec(w, e, dims).world, id)
  {
    hide Exec, Touches;
    ExecApart(w, e, id, dims);
  }

  lemma AdvanceKeepsApart(s: System, i: nat, dims: nat)
    requires Kept(s, dims) && MayMove(s, Advance(i), dims)
    ensures var t := Moved(s, Advance(i), dims); AllThreadsFit(t.threads, dims) && AllApart(t.threads)
  {
    hide Concerns, ConcernsAll, Shaped, Within, Settled, Exec, PicksNow, Apart;
    assert ThreadFits(s.threads[i], dims);
    RestFits(s.world, s.threads[i].todo, s.threads[i].origin.request, dims);
  }

  /** The thread that moved is at work on the id. */
  lemma AdvanceSettlesOwn(s: System, i: nat, id: string, dims: nat)
    requires Kept(s, dims) && MayMove(s, Advance(i), dims) && Orderly(s, Advance(i)) && WorksOn(s.threads[i], id)
    ensures Settled(Moved(s, Advance(i), dims), id, dims)
  {
    hide Shaped, Within, Exec, PicksNow, Agree, RightRows, InOwnScope, Concerns, Run;
    var a, t := s.threads[i], Moved(s, Advance(i), dims);
    assert Settled(s, id, dims) && ThreadFits(a, dims);
    OwnCourse(s.world, a.todo, id, dims);
    RestFits(s.world, a.todo, a.origin.request, dims);
    RunOfNothing(t.world, dims);
    assert t.threads[i].todo == Rest(s.world, a.todo, dims);
    forall j | 0 <= j < |t.threads| && j != i ensures !WorksOn(t.threads[j], id) {
      assert t.threads[j] == s.threads[j];
    }
  }

  lemma RunOfNothing(w: World, dims: nat)
    ensures Run(w, [], dims).world == w
  {
  }

  /** The thread that moved is not at work on the id. */
  lemma AdvanceSettlesOthers(s: System, i: nat, id: string, dims: nat)
    requires Kept(s, dims) && MayMove(s, Advance(i), dims) && !WorksOn(s.threads[i], id)
    ensures Settled(Moved(s, Advance(i), dims), id, dims)
  {
    hide Shaped, Exec, PicksNow, Agree, RightRows, Concerns, Run, OnCourse, Touches;
    var a, t := s.threads[i], Moved(s, Advance(i), dims);
    var e := a.todo[0];
    assert Settled(s, id, dims) && ThreadFits(a, dims);
    assert !Touches(e, id);
    forall j | 0 <= j < |t.threads| && WorksOn(t.threads[j], id)
      ensures OnCourse(t.world, t.threads[j].todo, id, dims)
    {
      assert j != i && t.threads[j] == s.threads[j];
      assert ThreadFits(s.threads[j], dims);
      OtherCourse(s.world, e, s.threads[j].todo, id, dims);
    }
    if forall j :: 0 <= j < |t.threads| ==> !WorksOn(t.threads[j], id) {
      forall j | 0 <= j < |s.threads| ensures !WorksOn(s.threads[j], id) {
        if j != i { assert t.threads[j] == s.threads[j] && !WorksOn(t.threads[j], id); }
      }
      OtherAgrees(s.world, e, id, dims);
    }
  }

  lemma ExecKeepsRightRows(w: World, todo: seq<Effect>, dims: nat)
    requires todo != [] && Shaped(todo, dims) && RightRows(w.db, dims)
    ensures RightRows(Exec(w, todo[0], dims).world.db, dims)
  {
    var e := todo[0];
    var ids := if e.TxInsert? then RowIds(e.records) else [];
    if e.TxInsert? {
      forall i | 0 <= i < |e.records| ensures e.records[i].id in ids {
        assert ids[i] == e.records[i].id;
      }
    }
    hide Exec, RowIds;
    ExecKeepsSound(w, e, w.db.memories.Keys, ids, dims);
  }

  lemma MoveKeepsSettled(s: System, m: Move, dims: nat)
    requires Kept(s, dims) && MayMove(s, m, dims) && Orderly(s, m)
    ensures Kept(Moved(s, m, dims), dims)
  {
    hide Settled, AllThreadsFit, AllApart, RightRows, Exec, EffectsOf, Shaped, WorksOn;
    if m.Enter? {
      EnterKeepsApart(s, m, dims);
      forall id ensures Settled(Moved(s, m, dims), id, dims) {
        EnterSettles(s, m, id, dims);
      }
    } else {
      var i := m.thread;
      AdvanceKeepsApart(s, i, dims);
      FitsAt(s.threads, i, dims);
      ExecKeepsRightRows(s.world, s.threads[i].todo, dims);
      forall id ensures Settled(Moved(s, m, dims), id, dims) {
        if WorksOn(s.threads[i], id) {
          AdvanceSettlesOwn(s, i, id, dims);
        } else {
          AdvanceSettlesOthers(s, i, id, dims);
        }
      }
    }
  }

  lemma FitsAt(threads: seq<Thread>, i: nat, dims: nat)
    requires AllThreadsFit(threads, dims) && i < |threads|
    ensures ThreadFits(threads[i], dims)
  {
    hide ThreadFits;
  }

  /** Clients that never overlap on an id: from a visible start, at every moment the index agrees with the row of
      every id that nobody is at work on; so whenever all are done it shows exactly the Active rows. */
  lemma {:induction false} OrderlyClientsStayVisible(states: seq<System>, moves: seq<Move>, n: nat, dims: nat)
    requires Steps(states, moves, dims) && n <= |moves|
    requires states[0].threads == [] && Visible(states[0].world) && RightRows(states[0].world.db, dims)
    requires forall k :: 0 <= k < n ==> Orderly(states[k], moves[k])
    ensures Kept(states[n], dims)
    ensures forall id :: (forall i :: 0 <= i < |states[n].threads| ==> !WorksOn(states[n].threads[i], id)) ==>
              Agree(states[n].world, id)
    ensures (forall i :: 0 <= i < |states[n].threads| ==> !Busy(states[n].threads[i])) ==> Visible(states[n].world)
    decreases n
  {
    hide Steps, Moved, MayMove, Orderly, RightRows, AllThreadsFit, AllApart, Visible, Agree, OnCourse;
    StepAt(states, moves, n, dims);
    if n == 0 {
      NobodyAtWork(states[0], dims);
    } else {
      OrderlyClientsStayVisible(states, moves, n - 1, dims);
      StepAt(states, moves, n - 1, dims);
      MoveKeepsSettled(states[n - 1], moves[n - 1], dims);
    }
    forall id | forall i :: 0 <= i < |states[n].threads| ==> !WorksOn(states[n].threads[i], id)
      ensures Agree(states[n].world, id)
    {
      assert Settled(states[n], id, dims);
    }
    if forall i :: 0 <= i < |states[n].threads| ==> !Busy(states[n].threads[i]) {
      forall id ensures Agree(states[n].world, id) {
        assert Settled(states[n], id, dims);
      }
      VisibleIsAgreement(states[n].world);
    }
  }

  lemma NobodyAtWork(s: System, dims: nat)
    requires s.threads == [] && Visible(s.world) && RightRows(s.world.db, dims)
    ensures Kept(s, dims)
  {
    hide Visible, RightRows, Agree;
    VisibleIsAgreement(s.world);
  }
}
