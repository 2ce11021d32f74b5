/** The canonical store: two tables with primary keys, and the transactions on them. */
module Repository {
  import opened Options

  datatype Status = Pending | Active | Deleted | Expired

  datatype Kind = Preference | Fact | Instruction | Context | Episodic

  /** Rows are found by tenant and namespace; agent and user are carried along only. */
  datatype Scope = Scope(tenant: string, namespace: string, agent: Option<string>, user: Option<string>)

  datatype Record = Record(id: string, scope: Scope, kind: Kind, content: string, embedding: seq<real>,
                           importance: real, createdAt: int, accessCount: nat, expiresAt: Option<int>,
                           status: Status, revision: nat, metadata: map<string, string>)

  datatype OpKind = Remember | Update | Delete

  datatype Operation = Operation(memoryId: string, kind: OpKind, applied: bool)

  datatype Db = Db(memories: map<string, Record>, operations: map<string, Operation>)

  datatype Error = NotFound | RevisionConflict | Constraint | DimensionMismatch | InvalidInput

  datatype Tx = Committed(db: Db) | RolledBack(error: Error)

  predicate SameScope(a: Scope, b: Scope) {
    a.tenant == b.tenant && a.namespace == b.namespace
  }

  /** The rows of `get_by_scope_and_id`. */
  predicate InScope(db: Db, scope: Scope, id: string) {
    id in db.memories && SameScope(db.memories[id].scope, scope)
  }

  function Journaled(db: Db, op: Option<string>, entry: Operation): Tx {
    match op
    case None => Committed(db)
    case Some(o) =>
      if o in db.operations then RolledBack(Constraint)
      else Committed(db.(operations := db.operations[o := entry]))
  }

  /** A batch reads its operation ids with `get(i)`: missing ones count as absent, extra ones are not read. */
  function Padded(ops: seq<Option<string>>, n: nat): (p: seq<Option<string>>)
    ensures |p| == n && (|ops| == n ==> p == ops)
    ensures forall i :: 0 <= i < n ==> p[i] == if i < |ops| then ops[i] else None
  {
    seq(n, i => if 0 <= i < |ops| then ops[i] else None)
  }

  /** One row and its journal entry; an existing row id or operation id violates a primary key. */
  function InsertOne(db: Db, r: Record, op: Option<string>): Tx {
    if r.id in db.memories then RolledBack(Constraint)
    else Journaled(db.(memories := db.memories[r.id := r]), op, Operation(r.id, Remember, false))
  }

  /** `insert_pending_memory` and its batch: rows and journal entries one after the other, all or nothing. */
  function InsertPending(db: Db, records: seq<Record>, ops: seq<Option<string>>): Tx
    requires |records| == |ops|
    decreases |records|
  {
    if records == [] then Committed(db)
    else
      match InsertOne(db, records[0], ops[0])
      case RolledBack(e) => RolledBack(e)
      case Committed(db1) => InsertPending(db1, records[1..], ops[1..])
  }

  /** `set_status(_batch)`: rows that do not exist are not created. */
  function SetStatus(db: Db, ids: seq<string>, status: Status): Db {
    db.(memories := map id | id in db.memories ::
      if id in ids then db.memories[id].(status := status) else db.memories[id])
  }

  /** `mark_operation_applied(_batch)`. */
  function MarkApplied(db: Db, ops: seq<string>): Db {
    db.(operations := map o | o in db.operations ::
      if o in ops then db.operations[o].(applied := true) else db.operations[o])
  }

  /** The columns that `update_memory` writes; the kind is not among them. */
  function Overwrite(old_: Record, r: Record, revision: nat): Record {
    old_.(content := r.content, embedding := r.embedding, importance := r.importance, expiresAt := r.expiresAt,
          status := r.status, revision := revision, metadata := r.metadata)
  }

  /** `update_memory`: a compare-and-set on the revision. */
  function UpdateMemory(db: Db, r: Record, expected: nat, op: Option<string>): Tx {
    if !InScope(db, r.scope, r.id) || db.memories[r.id].status == Deleted then RolledBack(NotFound)
    else if db.memories[r.id].revision != expected then RolledBack(RevisionConflict)
    else Journaled(db.(memories := db.memories[r.id := Overwrite(db.memories[r.id], r, expected + 1)]), op,
                 Operation(r.id, Update, false))
  }

  /** `delete_memory(_batch)`: tombstone what is in scope, journal the deletion as applied. */
  function DeleteMemory(db: Db, scope: Scope, ids: seq<string>, ops: seq<Option<string>>): Tx
    requires |ids| == |ops|
    decreases |ids|
  {
    if ids == [] then Committed(db)
    else
      var id := ids[0];
      var db0 := if InScope(db, scope, id)
                 then db.(memories := db.memories[id := db.memories[id].(status := Deleted)]) else db;
      match Journaled(db0, ops[0], Operation(id, Delete, true))
      case RolledBack(e) => RolledBack(e)
      case Committed(db1) => DeleteMemory(db1, scope, ids[1..], ops[1..])
  }

  /** The rows a vacuum may purge at time `now`. */
  predicate Purgeable(r: Record, now: int) {
    r.status == Deleted || (r.expiresAt.Some? && r.expiresAt.value <= now)
  }

  function Eligible(db: Db, now: int): set<string> {
    set id | id in db.memories && Purgeable(db.memories[id], now)
  }

  /** What the `LIMIT` may pick. */
  predicate VacuumPick(db: Db, batch: nat, now: int, victims: set<string>) {
    victims <= Eligible(db, now) && |victims| == if batch < |Eligible(db, now)| then batch else |Eligible(db, now)|
  }

  function Purge(db: Db, victims: set<string>): Db {
    db.(memories := db.memories - victims)
  }

  /** `get_pending_operations`. */
  function PendingOps(db: Db): set<string> {
    set o | o in db.operations && !db.operations[o].applied
  }

  /** `get_all_active_records`, as the map from id to embedding that the index should hold. */
  function ActiveEmbeddings(db: Db): map<string, seq<real>> {
    map id | id in db.memories && db.memories[id].status == Active :: db.memories[id].embedding
  }

  /** The effect of one accepted insertion on both tables. */
  lemma InsertedOne(db: Db, r: Record, op: Option<string>)
    requires InsertOne(db, r, op).Committed?
    ensures var t := InsertOne(db, r, op).db;
            && r.id !in db.memories && t.memories == db.memories[r.id := r]
            && match op
               case None => t.operations == db.operations
               case Some(o) =>
                 o !in db.operations && t.operations == db.operations[o := Operation(r.id, Remember, false)]
  {
  }

  /** The rows of an accepted batch. */
  ghost predicate RowsInserted(db: Db, records: seq<Record>, t: Db) {
    && (forall i :: 0 <= i < |records| ==>
          records[i].id !in db.memories && records[i].id in t.memories && t.memories[records[i].id] == records[i])
    && (forall id :: id in db.memories ==> id in t.memories && t.memories[id] == db.memories[id])
    && forall id :: id in t.memories ==> id in db.memories || exists i :: 0 <= i < |records| && records[i].id == id
  }

  /** The journal entries of an accepted batch. */
  ghost predicate OpsInserted(db: Db, records: seq<Record>, ops: seq<Option<string>>, t: Db)
    requires |records| == |ops|
  {
    && (forall o :: o in db.operations ==> o in t.operations && t.operations[o] == db.operations[o])
    && (forall i :: 0 <= i < |ops| && ops[i].Some? ==>
          ops[i].value !in db.operations && ops[i].value in t.operations &&
          t.operations[ops[i].value] == Operation(records[i].id, Remember, false))
    && forall o :: o in t.operations ==> o in db.operations || Some(o) in ops
  }

  /** No operation id is used already, or given twice. */
  predicate FreshOps(db: Db, ops: seq<Option<string>>) {
    && (forall i :: 0 <= i < |ops| && ops[i].Some? ==> ops[i].value !in db.operations)
    && forall i, j :: 0 <= i < j < |ops| && ops[i].Some? ==> ops[i] != ops[j]
  }

  lemma FirstFresh(db: Db, ops: seq<Option<string>>)
    requires ops != [] && ops[0].Some? && ops[0].value in db.operations
    ensures !FreshOps(db, ops)
  {
  }

  lemma RestFresh(db: Db, db1: Db, ops: seq<Option<string>>, entry: Operation)
    requires ops != [] && (ops[0].Some? ==> ops[0].value !in db.operations)
    requires db1.operations == if ops[0].Some? then db.operations[ops[0].value := entry] else db.operations
    ensures FreshOps(db1, ops[1..]) <==> FreshOps(db, ops)
  {
    var rest := ops[1..];
    if FreshOps(db1, rest) {
      forall i | 0 <= i < |ops| && ops[i].Some? ensures ops[i].value !in db.operations {
        if i > 0 { assert rest[i - 1] == ops[i]; }
      }
      forall i, j | 0 <= i < j < |ops| && ops[i].Some? ensures ops[i] != ops[j] {
        assert rest[j - 1] == ops[j];
        if i > 0 { assert rest[i - 1] == ops[i]; }
      }
    }
    if FreshOps(db, ops) {
      forall i | 0 <= i < |rest| && rest[i].Some? ensures rest[i].value !in db1.operations {
        assert rest[i] == ops[i + 1] && ops[0] != ops[i + 1];
      }
      forall i, j | 0 <= i < j < |rest| && rest[i].Some? ensures rest[i] != rest[j] {
        assert rest[i] == ops[i + 1] && rest[j] == ops[j + 1];
      }
    }
  }

  /** No row id exists already, or is given twice. */
  predicate FreshRows(db: Db, records: seq<Record>) {
    && (forall i :: 0 <= i < |records| ==> records[i].id !in db.memories)
    && forall i, j :: 0 <= i < j < |records| ==> records[i].id != records[j].id
  }

  lemma RestFreshRows(db: Db, db1: Db, records: seq<Record>)
    requires records != [] && records[0].id !in db.memories && db1.memories == db.memories[records[0].id := records[0]]
    ensures FreshRows(db1, records[1..]) <==> FreshRows(db, records)
  {
    var rest := records[1..];
    if FreshRows(db1, rest) {
      forall i | 0 <= i < |records| ensures records[i].id !in db.memories {
        if i > 0 { assert rest[i - 1] == records[i]; }
      }
      forall i, j | 0 <= i < j < |records| ensures records[i].id != records[j].id {
        assert rest[j - 1] == records[j];
        if i > 0 { assert rest[i - 1] == records[i]; }
      }
    }
  }

  /** A batch is accepted exactly if all its row ids and all its operation ids are fresh. */
  lemma {:induction false} BatchCommits(db: Db, records: seq<Record>, ops: seq<Option<string>>)
    requires |records| == |ops|
    ensures InsertPending(db, records, ops).Committed? <==> FreshRows(db, records) && FreshOps(db, ops)
    decreases |records|
  {
    if records == [] {
    } else if records[0].id in db.memories {
    } else if ops[0].Some? && ops[0].value in db.operations {
      FirstFresh(db, ops);
    } else {
      hide FreshRows, FreshOps;
      var db1 := InsertOne(db, records[0], ops[0]).db;
      BatchCommits(db1, records[1..], ops[1..]);
      RestFreshRows(db, db1, records);
      RestFresh(db, db1, ops, Operation(records[0].id, Remember, false));
    }
  }

  lemma RowsInsertedStep(db: Db, db1: Db, records: seq<Record>, t: Db)
    requires records != [] && records[0].id !in db.memories
    requires db1.memories == db.memories[records[0].id := records[0]] && RowsInserted(db1, records[1..], t)
    ensures RowsInserted(db, records, t)
  {
    var r := records[0];
    assert r.id in db1.memories && t.memories[r.id] == r;
    forall i | 0 <= i < |records|
      ensures records[i].id !in db.memories && records[i].id in t.memories && t.memories[records[i].id] == records[i]
    {
      if i > 0 { assert records[i] == records[1..][i - 1]; }
    }
    forall id | id in t.memories && id !in db.memories
      ensures exists i :: 0 <= i < |records| && records[i].id == id
    {
      if id != r.id {
        var j :| 0 <= j < |records[1..]| && records[1..][j].id == id;
        assert records[j + 1].id == id;
      }
    }
  }

  lemma OpsInsertedStep(db: Db, db1: Db, records: seq<Record>, ops: seq<Option<string>>, t: Db)
    requires |records| == |ops| && records != []
    requires match ops[0]
             case None => db1.operations == db.operations
             case Some(o) =>
               o !in db.operations && db1.operations == db.operations[o := Operation(records[0].id, Remember, false)]
    requires OpsInserted(db1, records[1..], ops[1..], t)
    ensures OpsInserted(db, records, ops, t)
  {
    assert ops == [ops[0]] + ops[1..];
    forall i | 0 <= i < |ops| && ops[i].Some?
      ensures ops[i].value !in db.operations && ops[i].value in t.operations
      ensures t.operations[ops[i].value] == Operation(records[i].id, Remember, false)
    {
      if i > 0 {
        assert ops[i] == ops[1..][i - 1] && records[i] == records[1..][i - 1];
      }
    }
  }

  /** A batch that is accepted inserts exactly its rows and journal entries, none of which existed. */
  lemma {:induction false} InsertedBatch(db: Db, records: seq<Record>, ops: seq<Option<string>>)
    requires |records| == |ops| && InsertPending(db, records, ops).Committed?
    ensures RowsInserted(db, records, InsertPending(db, records, ops).db)
    ensures OpsInserted(db, records, ops, InsertPending(db, records, ops).db)
    decreases |records|
  {
    if records == [] {
    } else {
      hide InsertOne, Journaled, RowsInserted, OpsInserted;
      var db1 := InsertOne(db, records[0], ops[0]).db;
      var t := InsertPending(db, records, ops).db;
      InsertedOne(db, records[0], ops[0]);
      InsertedBatch(db1, records[1..], ops[1..]);
      RowsInsertedStep(db, db1, records, t);
      OpsInsertedStep(db, db1, records, ops, t);
    }
  }

  /** No two entries of an accepted batch share a row id or an operation id. */
  lemma {:induction false} BatchKeysDistinct(db: Db, records: seq<Record>, ops: seq<Option<string>>, i: nat, j: nat)
    requires |records| == |ops| && InsertPending(db, records, ops).Committed? && i < j < |records|
    ensures records[i].id != records[j].id
    ensures ops[i].Some? ==> ops[i] != ops[j]
    decreases |records|
  {
    var db1 := InsertOne(db, records[0], ops[0]).db;
    InsertedOne(db, records[0], ops[0]);
    assert records[j] == records[1..][j - 1] && ops[j] == ops[1..][j - 1];
    if i == 0 {
      InsertedBatch(db1, records[1..], ops[1..]);
    } else {
      assert records[i] == records[1..][i - 1] && ops[i] == ops[1..][i - 1];
      BatchKeysDistinct(db1, records[1..], ops[1..], i - 1, j - 1);
    }
  }

  /** A batch naming a used operation id, or one twice, is rejected as a whole. */
  lemma UsedOperationRejectsBatch(db: Db, records: seq<Record>, ops: seq<Option<string>>, i: nat)
    requires |records| == |ops| && i < |ops| && ops[i].Some?
    requires ops[i].value in db.operations || exists j :: 0 <= j < |ops| && j != i && ops[j] == ops[i]
    ensures InsertPending(db, records, ops).RolledBack?
  {
    if InsertPending(db, records, ops).Committed? {
      InsertedBatch(db, records, ops);
      var j :| 0 <= j < |ops| && j != i && ops[j] == ops[i];
      if i < j { BatchKeysDistinct(db, records, ops, i, j); } else { BatchKeysDistinct(db, records, ops, j, i); }
    }
  }

  /** The two tables behind one lock: every method is one transaction. */
  class Repository {
    var db: Db

    constructor ()
      ensures db == Db(map[], map[])
    {
      db := Db(map[], map[]);
    }

    method InsertPendingMemories(records: seq<Record>, ops: seq<Option<string>>) returns (r: Option<Error>)
      modifies this
      ensures match InsertPending(old(db), records, Padded(ops, |records|))
              case Committed(t) => r == None && db == t
              case RolledBack(e) => r == Some(e) && db == old(db)
    {
      ghost var padded := Padded(ops, |records|);
      var work := db;
      for i := 0 to |records|
        invariant db == old(db)
        invariant InsertPending(old(db), records, padded) == InsertPending(work, records[i..], padded[i..])
      {
        var step := InsertOne(work, records[i], if i < |ops| then ops[i] else None);
        if step.RolledBack? {
          return Some(step.error);
        }
        work := step.db;
        assert records[i..][1..] == records[i + 1..] && padded[i..][1..] == padded[i + 1..];
      }
      db := work;
      return None;
    }

    lemma OneMoreStatus(was: Db, now: Db, ids: seq<string>, i: nat, status: Status)
      requires i < |ids| && now == SetStatus(was, ids[..i], status)
      ensures SetStatus(was, ids[..i + 1], status) ==
              if ids[i] in now.memories
              then now.(memories := now.memories[ids[i] := now.memories[ids[i]].(status := status)]) else now
    {
      assert ids[..i + 1] == ids[..i] + [ids[i]];
    }

    method SetStatuses(ids: seq<string>, status: Status)
      modifies this
      ensures db == SetStatus(old(db), ids, status)
    {
      for i := 0 to |ids|
        invariant db == SetStatus(old(db), ids[..i], status)
      {
        hide SetStatus;
        OneMoreStatus(old(db), db, ids, i, status);
        if ids[i] in db.memories {
          db := db.(memories := db.memories[ids[i] := db.memories[ids[i]].(status := status)]);
        }
      }
      assert ids[..|ids|] == ids;
    }

    method MarkOperationsApplied(ops: seq<string>)
      modifies this
      ensures db == MarkApplied(old(db), ops)
    {
      for i := 0 to |ops|
        invariant db == MarkApplied(old(db), ops[..i])
      {
        if ops[i] in db.operations {
          db := db.(operations := db.operations[ops[i] := db.operations[ops[i]].(applied := true)]);
        }
        assert ops[..i + 1] == ops[..i] + [ops[i]];
      }
      assert ops[..|ops|] == ops;
    }

    /** Find the row by scope, test its status, compare the revision, write the columns, insert the journal
        entry; a used operation id rolls the columns back. */
    method UpdateRow(r: Record, expected: nat, op: Option<string>) returns (e: Option<Error>)
      modifies this
      ensures match UpdateMemory(old(db), r, expected, op)
              case Committed(t) => e == None && db == t
              case RolledBack(err) => e == Some(err) && db == old(db)
    {
      if r.id !in db.memories {
        return Some(NotFound);
      }
      var row := db.memories[r.id];
      if row.scope.tenant != r.scope.tenant || row.scope.namespace != r.scope.namespace {
        return Some(NotFound);
      }
      if row.status == Deleted {
        return Some(NotFound);
      }
      if row.revision != expected {
        return Some(RevisionConflict);
      }
      var before := db;
      row := row.(content := r.content);
      row := row.(embedding := r.embedding);
      row := row.(importance := r.importance);
      row := row.(expiresAt := r.expiresAt);
      row := row.(status := r.status);
      row := row.(revision := expected + 1);
      row := row.(metadata := r.metadata);
      db := db.(memories := db.memories[r.id := row]);
      if op.Some? {
        if op.value in db.operations {
          db := before;
          return Some(Constraint);
        }
        db := db.(operations := db.operations[op.value := Operation(r.id, Update, false)]);
      }
      return None;
    }

    method DeleteRows(scope: Scope, ids: seq<string>, ops: seq<Option<string>>) returns (r: Option<Error>)
      modifies this
      ensures match DeleteMemory(old(db), scope, ids, Padded(ops, |ids|))
              case Committed(t) => r == None && db == t
              case RolledBack(e) => r == Some(e) && db == old(db)
    {
      ghost var padded := Padded(ops, |ids|);
      var work := db;
      for i := 0 to |ids|
        invariant db == old(db)
        invariant DeleteMemory(old(db), scope, ids, padded) == DeleteMemory(work, scope, ids[i..], padded[i..])
      {
        assert ids[i..][1..] == ids[i + 1..] && padded[i..][1..] == padded[i + 1..];
        var id := ids[i];
        if InScope(work, scope, id) {
          work := work.(memories := work.memories[id := work.memories[id].(status := Deleted)]);
        }
        var step := Journaled(work, if i < |ops| then ops[i] else None, Operation(id, Delete, true));
        if step.RolledBack? {
          return Some(step.error);
        }
        work := step.db;
      }
      db := work;
      return None;
    }

    /** The rows purged are any pick that the limit allows. */
    method Vacuum(batch: nat, now: int) returns (purged: nat, victims: set<string>)
      modifies this
      ensures VacuumPick(old(db), batch, now, victims) && purged == |victims|
      ensures db == Purge(old(db), victims)
    {
      var left := Eligible(db, now);
      victims := {};
      while left != {} && |victims| < batch
        invariant victims !! left && victims + left == Eligible(db, now) && |victims| <= batch
        invariant |victims| + |left| == |Eligible(db, now)|
        decreases |left|
      {
        var id :| id in left;
        left, victims := left - {id}, victims + {id};
      }
      purged := |victims|;
      db := Purge(db, victims);
    }
  }
}
