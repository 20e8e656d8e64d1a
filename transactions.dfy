// The operation log of src/mongoose/transactions.js. A Transaction queues
// insert, update and remove operations; `run` executes them in order, stopping
// at the first one the database rejects, and `rollback` undoes the executed
// ones newest first. Every answer of the database is an input here: one
// `StepOutcome` per step of `run`, one `Reply` per step of `rollback`.
module Transactions {
  import opened Wrappers
  import opened Json
  import Domain

  /** The states of an operation. */
  datatype Status = Pending | Success | Error | Rollback | ErrorRollback

  /** The `type` and the `rollbackType` of an operation. */
  datatype Kind = InsertOp | UpdateOp | RemoveOp

  /** The rollback type that belongs to each type: an insert is undone by a
      removal, a removal by an insert, an update by an update. */
  function Inverse(k: Kind): (r: Kind)
    ensures r == k <==> k == UpdateOp
  {
    match k
    case InsertOp => RemoveOp
    case UpdateOp => UpdateOp
    case RemoveOp => InsertOp
  }

  /** Undoing the undo gives back the original type. */
  lemma InverseInvolutive(k: Kind)
    ensures Inverse(Inverse(k)) == k
  {
  }

  /** One queued operation. The mongoose model handle is represented by its
      model name. */
  datatype Operation = Operation(
    kind: Kind,
    rollbackKind: Kind,
    modelName: string,
    findId: Value,
    data: Value,
    oldModel: Value,
    options: Value,
    status: Status)

  /** The shape every queued operation keeps: its rollback type undoes its
      type, a removal carries no data, and an insert carries the document
      whose `_id` is the id it is found by. */
  predicate WellFormed(op: Operation)
  {
    && op.rollbackKind == Inverse(op.kind)
    && (op.kind == RemoveOp ==> op.data == Null)
    && (op.kind == InsertOp ==> op.data.Obj? && Get(op.data.fields, "_id") == op.findId)
  }

  /** A database write. */
  datatype Write =
    | InsertDoc(model: string, doc: Value)
    | UpdateDoc(model: string, id: Value, doc: Value)
    | RemoveDoc(model: string, id: Value)

  /** The write `run` issues for an operation. */
  function RunWrite(op: Operation): Write
  {
    match op.kind
    case InsertOp => InsertDoc(op.modelName, op.data)
    case UpdateOp => UpdateDoc(op.modelName, op.findId, op.data)
    case RemoveOp => RemoveDoc(op.modelName, op.findId)
  }

  /** The write `rollback` issues for an operation: the document the lookup
      found before the operation ran is written back. */
  function UndoWrite(op: Operation): Write
  {
    match op.rollbackKind
    case InsertOp => InsertDoc(op.modelName, op.oldModel)
    case UpdateOp => UpdateDoc(op.modelName, op.findId, op.oldModel)
    case RemoveOp => RemoveDoc(op.modelName, op.findId)
  }

  /** `options = {}`: the default applies only when no options are passed. */
  function OptionsOrDefault(options: Value): (r: Value)
    ensures !r.Undefined?
    ensures !options.Undefined? ==> r == options
  {
    if options.Undefined? then Obj([]) else options
  }

  // ---------------------------------------------------------------------------
  // Enqueueing

  /** The id `insert` returns: the document's own `_id` when truthy, otherwise
      the freshly generated one. */
  function InsertedId(data: seq<Entry<Value>>, newId: string): Value
  {
    if Truthy(Get(data, "_id")) then Get(data, "_id") else Str(newId)
  }

  /** The document after `if (!data._id) data._id = uuid.v1()`. */
  function WithId(data: seq<Entry<Value>>, newId: string): (r: seq<Entry<Value>>)
    ensures Get(r, "_id") == InsertedId(data, newId)
    ensures forall key | key != "_id" :: Find(r, key) == Find(data, key)
    ensures Truthy(Get(data, "_id")) ==> r == data
  {
    if Truthy(Get(data, "_id")) then data else Put(data, "_id", Str(newId))
  }

  function InsertOperation(modelName: string, data: seq<Entry<Value>>, options: Value, newId: string): Operation
  {
    Operation(InsertOp, RemoveOp, modelName, InsertedId(data, newId), Obj(WithId(data, newId)),
              Null, OptionsOrDefault(options), Pending)
  }

  function UpdateOperation(modelName: string, findId: Value, data: Value, options: Value): Operation
  {
    Operation(UpdateOp, UpdateOp, modelName, findId, data, Null, OptionsOrDefault(options), Pending)
  }

  function RemoveOperation(modelName: string, findId: Value, options: Value): Operation
  {
    Operation(RemoveOp, InsertOp, modelName, findId, Null, Null, OptionsOrDefault(options), Pending)
  }

  /** Undoing a queued insert removes exactly the document it inserts, under
      the id `insert` returned; undoing a queued removal or update writes back
      what the lookup of `run` found. */
  lemma UndoReversesWrite(op: Operation, found: Value)
    requires WellFormed(op)
    ensures op.kind == InsertOp ==>
      RunWrite(op) == InsertDoc(op.modelName, op.data) &&
      UndoWrite(op) == RemoveDoc(op.modelName, Get(op.data.fields, "_id"))
    ensures op.kind == UpdateOp ==>
      UndoWrite(op.(oldModel := found)) == UpdateDoc(op.modelName, op.findId, found) &&
      RunWrite(op).id == op.findId
    ensures op.kind == RemoveOp ==>
      UndoWrite(op.(oldModel := found)) == InsertDoc(op.modelName, found) &&
      RunWrite(op) == RemoveDoc(op.modelName, op.findId)
  {
  }

  /** Every operation the three enqueue calls build is well formed and
      pending; `insert` finds its document by the id it returns. */
  lemma EnqueuedWellFormed(modelName: string, data: seq<Entry<Value>>, findId: Value, update: Value,
                           options: Value, newId: string)
    ensures WellFormed(InsertOperation(modelName, data, options, newId))
    ensures WellFormed(UpdateOperation(modelName, findId, update, options))
    ensures WellFormed(RemoveOperation(modelName, findId, options))
    ensures InsertOperation(modelName, data, options, newId).findId == InsertedId(data, newId)
    ensures newId != "" ==> Truthy(InsertOperation(modelName, data, options, newId).findId)
  {
  }

  // ---------------------------------------------------------------------------
  // Errors

  /** What the database answers to one write. */
  datatype Reply = Resolved(result: Value) | Rejected(error: Value)

  /** What the database answers to one step of `run`: `found` is the result of
      the lookup that precedes an update or a removal (None when that lookup is
      rejected; unused for an insert), `reply` the answer to the write. */
  datatype StepOutcome = StepOutcome(found: Option<Value>, reply: Reply)

  /** The object `transactionError` builds. */
  datatype Report = Report(data: Value, error: Value, executed: int, remaining: int)

  /** Why a step of `run` or `rollback` was rejected. */
  datatype Cause =
    | LookupRejected
    | CreateRejected(error: Value)
    | WriteRejected(report: Report)

  datatype TxError =
    | NoModel          // `connection.model(...)` on a missing connection: TypeError
    | NoOperations     // `operations` is undefined: TypeError
    | NoSuchOperation  // `operations[index]` is undefined: TypeError
    | StepFailed(index: nat, cause: Cause)

  /** `transactionError(error, data)`: the operations up to `rollbackIndex`
      count as executed, the others as remaining. */
  function ErrorReport(error: Value, data: Value, rollbackIndex: int, count: nat): (r: Report)
    ensures r.executed == rollbackIndex + 1
    ensures r.executed + r.remaining == count
  {
    Report(data, error, rollbackIndex + 1, count - (rollbackIndex + 1))
  }

  function ResultOf(reply: Reply): Value
  {
    match reply
    case Resolved(v) => v
    case Rejected(_) => Undefined
  }

  function ErrorOf(reply: Reply): Value
  {
    match reply
    case Resolved(_) => Undefined
    case Rejected(e) => e
  }

  /** The `data` of a report: `{ id, data }` from `updateTransaction`, the
      id alone from `removeTransaction`. */
  function ReportData(kind: Kind, id: Value, data: Value): Value
  {
    if kind == UpdateOp then Obj([Entry("id", id), Entry("data", data)]) else id
  }

  // ---------------------------------------------------------------------------
  // run

  /** A step of `run` succeeds when its write resolves and, for an update or a
      removal, the lookup before it resolved too. */
  predicate Succeeds(op: Operation, out: StepOutcome)
  {
    out.reply.Resolved? && (op.kind == InsertOp || out.found.Some?)
  }

  /** How many steps from `i` on succeed before the first failure. */
  function CompletedFrom(ops: seq<Operation>, outcome: nat -> StepOutcome, i: nat): (r: nat)
    requires i <= |ops|
    ensures i <= r <= |ops|
    ensures forall j | i <= j < r :: Succeeds(ops[j], outcome(j))
    ensures r < |ops| ==> !Succeeds(ops[r], outcome(r))
    decreases |ops| - i
  {
    if i == |ops| || !Succeeds(ops[i], outcome(i)) then i else CompletedFrom(ops, outcome, i + 1)
  }

  lemma CompletedStep(ops: seq<Operation>, outcome: nat -> StepOutcome, i: nat)
    requires i < |ops|
    ensures Succeeds(ops[i], outcome(i)) ==> CompletedFrom(ops, outcome, i) == CompletedFrom(ops, outcome, i + 1)
    ensures !Succeeds(ops[i], outcome(i)) ==> CompletedFrom(ops, outcome, i) == i
  {
  }

  /** The operation after its step: an update or a removal keeps what its
      lookup found as `oldModel`, and the status records the outcome. */
  function Applied(op: Operation, out: StepOutcome): (r: Operation)
    ensures r.(oldModel := op.oldModel, status := op.status) == op
    ensures r.status == (if Succeeds(op, out) then Success else Error)
  {
    var looked := if op.kind != InsertOp && out.found.Some? then op.(oldModel := out.found.value) else op;
    looked.(status := if Succeeds(op, out) then Success else Error)
  }

  /** The queue after the first `n` steps of `run`. */
  function AfterSteps(ops: seq<Operation>, outcome: nat -> StepOutcome, n: nat): (r: seq<Operation>)
    ensures |r| == |ops|
  {
    seq(|ops|, j requires 0 <= j < |ops| => if j < n then Applied(ops[j], outcome(j)) else ops[j])
  }

  lemma AfterStepsStart(ops: seq<Operation>, outcome: nat -> StepOutcome)
    ensures AfterSteps(ops, outcome, 0) == ops
  {
  }

  /** One more step of `run` changes operation `i` alone. */
  lemma AfterStepsNext(ops: seq<Operation>, outcome: nat -> StepOutcome, i: nat)
    requires i < |ops|
    ensures AfterSteps(ops, outcome, i)[i := Applied(ops[i], outcome(i))] == AfterSteps(ops, outcome, i + 1)
  {
  }

  /** What `run` resolves with after `n` steps: the result of each, in order. */
  function Results(outcome: nat -> StepOutcome, n: nat): (r: seq<Value>)
    ensures |r| == n
  {
    if n == 0 then [] else Results(outcome, n - 1) + [ResultOf(outcome(n - 1).reply)]
  }

  /** `rollbackIndex` after `n` successful steps: the index of the last one. */
  function IndexAfter(start: int, n: nat): int
  {
    if n == 0 then start else n - 1
  }

  /** The error `run` throws when step `i` fails. */
  function StepCause(op: Operation, out: StepOutcome, rollbackIndex: int, count: nat): Cause
  {
    if op.kind == InsertOp then CreateRejected(ErrorOf(out.reply))
    else if out.found.None? then LookupRejected
    else WriteRejected(ErrorReport(ErrorOf(out.reply), ReportData(op.kind, op.findId, op.data), rollbackIndex, count))
  }

  // ---------------------------------------------------------------------------
  // rollback

  /** `Array.prototype.slice(0, end)`: a negative end counts from the back. */
  function SliceEnd(len: nat, end: int): (r: nat)
    ensures r <= len
    ensures 0 <= end ==> r == if end < len then end else len
  {
    if end < 0 then (if len + end < 0 then 0 else len + end)
    else if end < len then end else len
  }

  function Take<T>(s: seq<T>, end: int): (r: seq<T>)
    ensures |r| == SliceEnd(|s|, end)
  {
    s[..SliceEnd(|s|, end)]
  }

  /** The operations `rollback(howmany)` undoes, in order: the first
      `rollbackIndex + 1` operations reversed, cut to `howmany` when that
      differs from `rollbackIndex + 1` (None stands for the default). */
  function Window(ops: seq<Operation>, rollbackIndex: int, howmany: Option<int>): seq<Operation>
  {
    var executed := Domain.Reverse(Take(ops, rollbackIndex + 1));
    var h := howmany.GetOr(rollbackIndex + 1);
    if h != rollbackIndex + 1 then Take(executed, h) else executed
  }

  /** Once `rollbackIndex` is at least -1, the comparison with
      `rollbackIndex + 1` before the second slice changes nothing. */
  lemma WindowGuardRedundant(ops: seq<Operation>, rollbackIndex: int, howmany: Option<int>)
    requires -1 <= rollbackIndex
    ensures Window(ops, rollbackIndex, howmany) ==
            Take(Domain.Reverse(Take(ops, rollbackIndex + 1)), howmany.GetOr(rollbackIndex + 1))
  {
    var executed := Domain.Reverse(Take(ops, rollbackIndex + 1));
    assert |executed| <= rollbackIndex + 1;
    if howmany.GetOr(rollbackIndex + 1) == rollbackIndex + 1 {
      assert Take(executed, rollbackIndex + 1) == executed;
    }
  }

  /** The window holds at most `howmany` of the executed operations. */
  lemma WindowLength(ops: seq<Operation>, rollbackIndex: int, howmany: Option<int>)
    requires -1 <= rollbackIndex < |ops|
    ensures |Window(ops, rollbackIndex, howmany)| == SliceEnd(rollbackIndex + 1, howmany.GetOr(rollbackIndex + 1))
  {
    WindowGuardRedundant(ops, rollbackIndex, howmany);
  }

  /** The window holds the operations from `rollbackIndex` down, newest first. */
  lemma WindowNewestFirst(ops: seq<Operation>, rollbackIndex: int, howmany: Option<int>)
    requires -1 <= rollbackIndex < |ops|
    ensures forall k | 0 <= k < |Window(ops, rollbackIndex, howmany)| ::
      Window(ops, rollbackIndex, howmany)[k] == ops[rollbackIndex - k]
  {
    WindowGuardRedundant(ops, rollbackIndex, howmany);
  }

  /** How many undo steps from `i` on succeed before the first failure, in a
      window of `len`. */
  function UndoneFrom(undo: nat -> Reply, len: nat, i: nat): (r: nat)
    requires i <= len
    ensures i <= r <= len
    ensures forall k | i <= k < r :: undo(k).Resolved?
    ensures r < len ==> undo(r).Rejected?
    decreases len - i
  {
    if i == len || undo(i).Rejected? then i else UndoneFrom(undo, len, i + 1)
  }

  lemma UndoneStep(undo: nat -> Reply, len: nat, k: nat)
    requires k < len
    ensures undo(k).Resolved? ==> UndoneFrom(undo, len, k) == UndoneFrom(undo, len, k + 1)
    ensures undo(k).Rejected? ==> UndoneFrom(undo, len, k) == k
  {
  }

  /** The status an undo step leaves on the operation it undoes. */
  function UndoStatus(reply: Reply): Status
  {
    if reply.Resolved? then Status.Rollback else ErrorRollback
  }

  /** The queue after the first `n` undo steps from `top` down: step `k`
      marks operation `top - k`, the one it undid. */
  function Marked(ops: seq<Operation>, top: int, undo: nat -> Reply, n: nat): (r: seq<Operation>)
    ensures |r| == |ops|
  {
    seq(|ops|, j requires 0 <= j < |ops| =>
      if top - n < j <= top then ops[j].(status := UndoStatus(undo(top - j))) else ops[j])
  }

  lemma MarkedStart(ops: seq<Operation>, top: int, undo: nat -> Reply)
    ensures Marked(ops, top, undo, 0) == ops
  {
  }

  /** One more undo step changes operation `top - k` alone. */
  lemma MarkedNext(ops: seq<Operation>, top: int, undo: nat -> Reply, k: nat)
    requires 0 <= top - k < |ops|
    ensures Marked(ops, top, undo, k)[top - k := ops[top - k].(status := UndoStatus(undo(k)))] == Marked(ops, top, undo, k + 1)
  {
  }

  /** The queue after the first `n` undo steps as the source marks them:
      step `k` marks operation `k`, counting in the reversed window. */
  function MarkedAsWritten(ops: seq<Operation>, undo: nat -> Reply, n: nat): (r: seq<Operation>)
    ensures |r| == |ops|
    ensures forall j | n <= j < |ops| :: r[j] == ops[j]
  {
    seq(|ops|, j requires 0 <= j < |ops| => if j < n then ops[j].(status := UndoStatus(undo(j))) else ops[j])
  }

  function UndoResults(undo: nat -> Reply, n: nat): (r: seq<Value>)
    ensures |r| == n
  {
    if n == 0 then [] else UndoResults(undo, n - 1) + [ResultOf(undo(n - 1))]
  }

  /** The error `rollback` throws when undoing `op` fails. */
  function UndoCause(op: Operation, reply: Reply, rollbackIndex: int, count: nat): Cause
  {
    if op.rollbackKind == InsertOp then CreateRejected(ErrorOf(reply))
    else WriteRejected(ErrorReport(ErrorOf(reply), ReportData(op.rollbackKind, op.findId, op.oldModel), rollbackIndex, count))
  }

  // ---------------------------------------------------------------------------
  // The transaction

  class Transaction {
    /** `useDb`. */
    const useDb: bool
    /** Whether the enqueue calls can reach `connection.model(name)`. */
    const modelsReachable: bool
    /** `operations`; None while it is undefined. */
    var operations: Option<seq<Operation>>
    /** Index of the last operation `run` executed; -1 when none was. */
    var rollbackIndex: int
    var transactionId: Value

    /** The queued operations keep their shape, and `rollbackIndex` points at
        one of them or just before the first. */
    predicate Valid()
      reads this
    {
      operations.Some? ==>
        && -1 <= rollbackIndex < |operations.value|
        && forall j | 0 <= j < |operations.value| :: WellFormed(operations.value[j])
    }

    /** The constructor with the connection kept where the enqueue calls look
        for it and an empty queue. */
    constructor (useDb: bool, connected: bool)
      ensures this.useDb == useDb && modelsReachable == connected
      ensures operations == Some([]) && rollbackIndex == -1 && transactionId == Str("")
      ensures Valid()
    {
      this.useDb := useDb;
      modelsReachable := connected;
      operations := Some([]);
      rollbackIndex := -1;
      transactionId := Str("");
    }

    /** The constructor as written, called without a connection (with one it
        throws): the connection is stored as `_connection` while every reader
        asks for `connection`, and `operations` stays undefined. The source
        leaves `rollbackIndex` undefined too; the model, whose field is an
        `int`, starts it at -1, "nothing executed", as `Clean` does. */
    constructor AsWritten(useDb: bool)
      ensures this.useDb == useDb && !modelsReachable
      ensures operations == None && transactionId == Str("")
      ensures Valid()
    {
      this.useDb := useDb;
      modelsReachable := false;
      operations := None;
      rollbackIndex := -1;
      transactionId := Str("");
    }

    /** `clean()`: an empty queue, nothing executed, and the id the database
        assigns to the new transaction document when `useDb` is set. */
    method Clean(createdId: Value)
      modifies this
      ensures operations == Some([]) && rollbackIndex == -1
      ensures transactionId == if useDb then createdId else Str("")
      ensures Valid()
    {
      operations := Some([]);
      rollbackIndex := -1;
      transactionId := Str("");
      if useDb {
        transactionId := createdId;
      }
    }

    /** `insert(modelName, data, options)`: the document gets an id unless it
        has a truthy one, one pending insert is queued, and the id is returned. */
    method Insert(modelName: string, data: seq<Entry<Value>>, options: Value, newId: string)
      returns (r: Result<Value, TxError>)
      requires Valid()
      modifies this
      ensures Valid()
      ensures rollbackIndex == old(rollbackIndex) && transactionId == old(transactionId)
      ensures !modelsReachable ==> r == Err(NoModel) && operations == old(operations)
      ensures modelsReachable && old(operations).None? ==> r == Err(NoOperations) && operations == old(operations)
      ensures modelsReachable && old(operations).Some? ==>
        && r == Ok(InsertedId(data, newId))
        && operations == Some(old(operations).value + [InsertOperation(modelName, data, options, newId)])
    {
      if !modelsReachable {
        return Err(NoModel);
      }
      var doc := data;
      if !Truthy(Get(doc, "_id")) {
        doc := Put(doc, "_id", Str(newId));
      }
      var op := Operation(InsertOp, RemoveOp, modelName, Get(doc, "_id"), Obj(doc), Null, OptionsOrDefault(options), Pending);
      assert op == InsertOperation(modelName, data, options, newId);
      if operations.None? {
        return Err(NoOperations);
      }
      EnqueuedWellFormed(modelName, data, Null, Null, options, newId);
      operations := Some(operations.value + [op]);
      r := Ok(Get(doc, "_id"));
    }

    /** `update(modelName, findId, data, options)`: one pending update is
        queued. */
    method Update(modelName: string, findId: Value, data: Value, options: Value) returns (err: Option<TxError>)
      requires Valid()
      modifies this
      ensures Valid()
      ensures rollbackIndex == old(rollbackIndex) && transactionId == old(transactionId)
      ensures !modelsReachable ==> err == Some(NoModel) && operations == old(operations)
      ensures modelsReachable && old(operations).None? ==> err == Some(NoOperations) && operations == old(operations)
      ensures modelsReachable && old(operations).Some? ==>
        err.None? && operations == Some(old(operations).value + [UpdateOperation(modelName, findId, data, options)])
    {
      if !modelsReachable {
        return Some(NoModel);
      }
      if operations.None? {
        return Some(NoOperations);
      }
      operations := Some(operations.value + [Operation(UpdateOp, UpdateOp, modelName, findId, data, Null, OptionsOrDefault(options), Pending)]);
      err := None;
    }

    /** `remove(modelName, findId, options)`: one pending removal is queued. */
    method Remove(modelName: string, findId: Value, options: Value) returns (err: Option<TxError>)
      requires Valid()
      modifies this
      ensures Valid()
      ensures rollbackIndex == old(rollbackIndex) && transactionId == old(transactionId)
      ensures !modelsReachable ==> err == Some(NoModel) && operations == old(operations)
      ensures modelsReachable && old(operations).None? ==> err == Some(NoOperations) && operations == old(operations)
      ensures modelsReachable && old(operations).Some? ==>
        err.None? && operations == Some(old(operations).value + [RemoveOperation(modelName, findId, options)])
    {
      if !modelsReachable {
        return Some(NoModel);
      }
      if operations.None? {
        return Some(NoOperations);
      }
      operations := Some(operations.value + [Operation(RemoveOp, InsertOp, modelName, findId, Null, Null, OptionsOrDefault(options), Pending)]);
      err := None;
    }

    /** `updateOperationStatus(status, index)`: only the status of operation
        `index` changes. */
    method UpdateOperationStatus(status: Status, index: int) returns (err: Option<TxError>)
      requires Valid()
      modifies this
      ensures Valid()
      ensures rollbackIndex == old(rollbackIndex) && transactionId == old(transactionId)
      ensures old(operations).None? ==> err == Some(NoOperations) && operations == old(operations)
      ensures old(operations).Some? && !(0 <= index < |old(operations).value|) ==>
        err == Some(NoSuchOperation) && operations == old(operations)
      ensures old(operations).Some? && 0 <= index < |old(operations).value| ==>
        err.None? && operations == Some(old(operations).value[index := old(operations).value[index].(status := status)])
    {
      if operations.None? {
        return Some(NoOperations);
      }
      if !(0 <= index < |operations.value|) {
        return Some(NoSuchOperation);
      }
      var ops := operations.value;
      operations := Some(ops[index := ops[index].(status := status)]);
      err := None;
    }

    /** `transactionError(error, data)`. */
    function TransactionError(error: Value, data: Value): (r: Result<Report, TxError>)
      reads this
      ensures r.Ok? <==> operations.Some?
      ensures r.Ok? ==> r.value.executed == rollbackIndex + 1 &&
                        r.value.executed + r.value.remaining == |operations.value|
    {
      if operations.None? then Err(NoOperations)
      else Ok(ErrorReport(error, data, rollbackIndex, |operations.value|))
    }

    /** `run()`: the operations execute in order until one fails. Each
        executed one is marked Success and becomes `rollbackIndex`; the
        failing one is marked Error and its error is thrown. */
    method Run(outcome: nat -> StepOutcome) returns (r: Result<seq<Value>, TxError>)
      requires Valid()
      modifies this
      ensures Valid()
      ensures !useDb ==> transactionId == old(transactionId)
      ensures old(operations).None? ==>
        r == Err(NoOperations) && operations == old(operations) && rollbackIndex == old(rollbackIndex)
      ensures old(operations).Some? ==>
        var ops := old(operations).value;
        var n := CompletedFrom(ops, outcome, 0);
        && rollbackIndex == IndexAfter(old(rollbackIndex), n)
        && (n == |ops| ==> r == Ok(Results(outcome, n)) && operations == Some(AfterSteps(ops, outcome, n)))
        && (n < |ops| ==>
              && r == Err(StepFailed(n, StepCause(ops[n], outcome(n), IndexAfter(old(rollbackIndex), n), |ops|)))
              && operations == Some(AfterSteps(ops, outcome, n + 1)))
    {
      if operations.None? {
        return Err(NoOperations);
      }
      r := RunAll(operations.value, outcome);
    }

    /** The loop of `run` over the queue `ops`. */
    method RunAll(ops: seq<Operation>, outcome: nat -> StepOutcome) returns (r: Result<seq<Value>, TxError>)
      requires Valid() && operations == Some(ops)
      modifies this
      ensures Valid() && transactionId == old(transactionId)
      ensures var n := CompletedFrom(ops, outcome, 0);
        && rollbackIndex == IndexAfter(old(rollbackIndex), n)
        && (n == |ops| ==> r == Ok(Results(outcome, n)) && operations == Some(AfterSteps(ops, outcome, n)))
        && (n < |ops| ==>
              && r == Err(StepFailed(n, StepCause(ops[n], outcome(n), IndexAfter(old(rollbackIndex), n), |ops|)))
              && operations == Some(AfterSteps(ops, outcome, n + 1)))
    {
      ghost var start := rollbackIndex;
      var final: seq<Value> := [];
      AfterStepsStart(ops, outcome);
      ghost var n := CompletedFrom(ops, outcome, 0);
      var i := 0;
      while i < |ops|
        invariant 0 <= i <= |ops|
        invariant n == CompletedFrom(ops, outcome, i)
        invariant operations == Some(AfterSteps(ops, outcome, i))
        invariant rollbackIndex == IndexAfter(start, i)
        invariant final == Results(outcome, i)
        invariant transactionId == old(transactionId)
        invariant Valid()
      {
        var ok, cause := RunStep(ops, outcome, i, start);
        CompletedStep(ops, outcome, i);
        if !ok {
          r := Err(StepFailed(i, cause));
          assert n == i;
          return;
        }
        final := final + [ResultOf(outcome(i).reply)];
        i := i + 1;
      }
      r := Ok(final);
    }

    /** One iteration of the loop of `run`, on operation `i` after the first
        `i` steps succeeded: the error it would throw is worked out first, from
        the `rollbackIndex` before the step. */
    method RunStep(ghost ops: seq<Operation>, outcome: nat -> StepOutcome, i: nat, ghost start: int) returns (ok: bool, cause: Cause)
      requires Valid() && i < |ops|
      requires operations == Some(AfterSteps(ops, outcome, i)) && rollbackIndex == IndexAfter(start, i)
      modifies this
      ensures Valid() && transactionId == old(transactionId)
      ensures operations == Some(AfterSteps(ops, outcome, i + 1))
      ensures ok == Succeeds(ops[i], outcome(i))
      ensures rollbackIndex == if ok then IndexAfter(start, i + 1) else IndexAfter(start, i)
      ensures cause == StepCause(ops[i], outcome(i), IndexAfter(start, i), |ops|)
    {
      var out := outcome(i);
      assert operations.value[i] == ops[i];
      cause := StepCause(operations.value[i], out, rollbackIndex, |operations.value|);
      ok := ExecuteStep(i, out);
      AfterStepsNext(ops, outcome, i);
    }

    /** One step of `run` on operation `i`: an update or a removal keeps what
        its lookup found; the status becomes Success, with `rollbackIndex`
        moved to `i`, or Error. */
    method ExecuteStep(i: nat, out: StepOutcome) returns (ok: bool)
      requires Valid() && operations.Some? && i < |operations.value|
      modifies this
      ensures Valid()
      ensures ok == Succeeds(old(operations).value[i], out)
      ensures operations == Some(old(operations).value[i := Applied(old(operations).value[i], out)])
      ensures rollbackIndex == if ok then i else old(rollbackIndex)
      ensures transactionId == old(transactionId)
    {
      ghost var before := operations.value;
      var op := operations.value[i];
      if op.kind != InsertOp && out.found.Some? {
        operations := Some(operations.value[i := op.(oldModel := out.found.value)]);
      }
      ok := Succeeds(op, out);
      ghost var looked := operations.value;
      if ok {
        rollbackIndex := i;
        var _ := UpdateOperationStatus(Success, i);
      } else {
        var _ := UpdateOperationStatus(Error, i);
      }
      assert operations.value == looked[i := looked[i].(status := if ok then Success else Error)];
      assert looked[i].(status := if ok then Success else Error) == Applied(op, out);
      assert looked[i := Applied(op, out)] == before[i := Applied(op, out)];
    }

    /** `rollback(howmany)`: the window's operations are undone in order;
        each undone one is marked Rollback and `rollbackIndex` moves down past
        it; the one whose undo fails is marked ErrorRollback and its error is
        thrown. */
    method Rollback(howmany: Option<int>, undo: nat -> Reply) returns (r: Result<seq<Value>, TxError>)
      requires Valid()
      modifies this
      ensures Valid()
      ensures !useDb ==> transactionId == old(transactionId)
      ensures old(operations).None? ==>
        r == Err(NoOperations) && operations == old(operations) && rollbackIndex == old(rollbackIndex)
      ensures old(operations).Some? ==>
        var ops := old(operations).value;
        var w := Window(ops, old(rollbackIndex), howmany);
        var n := UndoneFrom(undo, |w|, 0);
        && rollbackIndex == old(rollbackIndex) - n
        && (n == |w| ==> r == Ok(UndoResults(undo, n)) && operations == Some(Marked(ops, old(rollbackIndex), undo, n)))
        && (n < |w| ==>
              && r == Err(StepFailed(n, UndoCause(w[n], undo(n), old(rollbackIndex) - n, |ops|)))
              && operations == Some(Marked(ops, old(rollbackIndex), undo, n + 1)))
    {
      if operations.None? {
        return Err(NoOperations);
      }
      var ops := operations.value;
      ghost var top := rollbackIndex;
      var window := Take(ops, rollbackIndex + 1);
      window := Domain.Reverse(window);
      var h := howmany.GetOr(rollbackIndex + 1);
      if h != rollbackIndex + 1 {
        window := Take(window, h);
      }
      assert window == Window(ops, top, howmany);
      WindowLength(ops, top, howmany);
      r := UndoEach(window, undo);
    }

    /** The undo loop of `rollback` over `window`, the operations from
        `rollbackIndex` down: it stops at the first rejected undo. */
    method UndoEach(window: seq<Operation>, undo: nat -> Reply) returns (r: Result<seq<Value>, TxError>)
      requires Valid() && operations.Some? && |window| <= rollbackIndex + 1
      modifies this
      ensures Valid()
      ensures transactionId == old(transactionId)
      ensures var n := UndoneFrom(undo, |window|, 0);
        && rollbackIndex == old(rollbackIndex) - n
        && (n == |window| ==> r == Ok(UndoResults(undo, n)) && operations == Some(Marked(old(operations).value, old(rollbackIndex), undo, n)))
        && (n < |window| ==>
              && r == Err(StepFailed(n, UndoCause(window[n], undo(n), old(rollbackIndex) - n, |old(operations).value|)))
              && operations == Some(Marked(old(operations).value, old(rollbackIndex), undo, n + 1)))
    {
      var ops := operations.value;
      ghost var top := rollbackIndex;
      MarkedStart(ops, top, undo);
      var final: seq<Value> := [];
      ghost var n := UndoneFrom(undo, |window|, 0);
      var k := 0;
      while k < |window|
        invariant 0 <= k <= |window|
        invariant n == UndoneFrom(undo, |window|, k)
        invariant operations == Some(Marked(ops, top, undo, k))
        invariant rollbackIndex == top - k
        invariant final == UndoResults(undo, k)
        invariant transactionId == old(transactionId)
        invariant Valid()
      {
        var reply := undo(k);
        var cause := UndoCause(window[k], reply, rollbackIndex, |ops|);
        var ok := UndoEachStep(ops, top, undo, k);
        UndoneStep(undo, |window|, k);
        if !ok {
          r := Err(StepFailed(k, cause));
          assert n == k;
          return;
        }
        final := final + [reply.result];
        k := k + 1;
      }
      r := Ok(final);
    }

    /** One iteration of the undo loop, after `k` undo steps succeeded. */
    method UndoEachStep(ghost ops: seq<Operation>, ghost top: int, undo: nat -> Reply, k: nat) returns (ok: bool)
      requires Valid() && operations == Some(Marked(ops, top, undo, k))
      requires rollbackIndex == top - k && 0 <= top - k
      modifies this
      ensures Valid() && transactionId == old(transactionId)
      ensures operations == Some(Marked(ops, top, undo, k + 1))
      ensures ok == undo(k).Resolved?
      ensures rollbackIndex == if ok then top - k - 1 else top - k
    {
      assert Marked(ops, top, undo, k)[top - k] == ops[top - k];
      ok := UndoStep(undo(k));
      MarkedNext(ops, top, undo, k);
    }

    /** One step of `rollback`, on the operation at `rollbackIndex`: when the
        undo resolves it is marked Rollback and `rollbackIndex` moves below
        it, otherwise it is marked ErrorRollback. */
    method UndoStep(reply: Reply) returns (ok: bool)
      requires Valid() && operations.Some? && 0 <= rollbackIndex
      modifies this
      ensures Valid()
      ensures ok == reply.Resolved?
      ensures operations == Some(old(operations).value[old(rollbackIndex) :=
                                   old(operations).value[old(rollbackIndex)].(status := UndoStatus(reply))])
      ensures rollbackIndex == if ok then old(rollbackIndex) - 1 else old(rollbackIndex)
      ensures transactionId == old(transactionId)
    {
      ok := reply.Resolved?;
      if ok {
        rollbackIndex := rollbackIndex - 1;
        var _ := UpdateOperationStatus(Status.Rollback, rollbackIndex + 1);
      } else {
        var _ := UpdateOperationStatus(ErrorRollback, rollbackIndex);
      }
    }
  }

  // ---------------------------------------------------------------------------
  // Properties across calls

  /** After a `run` from a clean queue, the default rollback window is exactly
      the operations that run executed, newest first. */
  lemma RollbackAfterRun(ops: seq<Operation>, outcome: nat -> StepOutcome, m: nat)
    requires m <= |ops|
    requires m == CompletedFrom(ops, outcome, 0) || m == CompletedFrom(ops, outcome, 0) + 1
    ensures var n := CompletedFrom(ops, outcome, 0);
      var after := AfterSteps(ops, outcome, m);
      Window(after, IndexAfter(-1, n), None) == Domain.Reverse(after[..n])
  {
    var n := CompletedFrom(ops, outcome, 0);
    var after := AfterSteps(ops, outcome, m);
    var top := n as int - 1;
    assert IndexAfter(-1, n) == top;
    WindowLength(after, top, None);
    WindowNewestFirst(after, top, None);
    var w := Window(after, top, None);
    var rev := Domain.Reverse(after[..n]);
    assert |w| == n == |rev|;
    forall k | 0 <= k < n
      ensures w[k] == rev[k]
    {
    }
    assert w == rev;
  }

  /** Every operation in that window is marked Success. */
  lemma RunMarksExecuted(ops: seq<Operation>, outcome: nat -> StepOutcome, m: nat)
    requires CompletedFrom(ops, outcome, 0) <= m
    ensures forall j | 0 <= j < CompletedFrom(ops, outcome, 0) :: AfterSteps(ops, outcome, m)[j].status == Success
  {
    var n := CompletedFrom(ops, outcome, 0);
    forall j | 0 <= j < n
      ensures AfterSteps(ops, outcome, m)[j].status == Success
    {
      assert Succeeds(ops[j], outcome(j));
    }
  }

  /** From a clean queue, a rejected write reports exactly the operations run
      executed before it, and the rest as remaining. */
  lemma FailureCountsFromClean(ops: seq<Operation>, outcome: nat -> StepOutcome)
    requires CompletedFrom(ops, outcome, 0) < |ops|
    ensures var n := CompletedFrom(ops, outcome, 0);
      StepCause(ops[n], outcome(n), IndexAfter(-1, n), |ops|).WriteRejected? ==>
        && StepCause(ops[n], outcome(n), IndexAfter(-1, n), |ops|).report.executed == n
        && StepCause(ops[n], outcome(n), IndexAfter(-1, n), |ops|).report.remaining == |ops| - n
  {
  }

  /** The state `clean()` leaves as written: `rollbackIndex` 0, as if the
      first operation had run, and, with `useDb`, the `undefined` that
      `createTransaction` resolves to as the transaction id. */
  function CleanAsWritten(useDb: bool): (r: (int, Value))
    ensures r.0 == IndexAfter(-1, 1)
    ensures useDb ==> r.1 == Undefined
  {
    (0, if useDb then Undefined else Str(""))
  }

  /** As written, a queue of one update whose write is rejected reports one
      executed operation, though none ran, and `rollback()` then undoes it. */
  lemma FirstFailureAsWritten(id: Value, doc: Value, found: Value, error: Value)
    ensures var ops := [UpdateOperation("note", id, doc, Undefined)];
      var outcome := (j: nat) => StepOutcome(Some(found), Rejected(error));
      var start := CleanAsWritten(false).0;
      && CompletedFrom(ops, outcome, 0) == 0
      && StepCause(ops[0], outcome(0), IndexAfter(start, 0), 1).report.executed == 1
      && |Window(AfterSteps(ops, outcome, 1), IndexAfter(start, 0), None)| == 1
  {
    var ops := [UpdateOperation("note", id, doc, Undefined)];
    var outcome := (j: nat) => StepOutcome(Some(found), Rejected(error));
    assert !Succeeds(ops[0], outcome(0));
    var after := AfterSteps(ops, outcome, 1);
    assert Take(after, 1) == after;
  }

  /** As written, undoing the newest of three executed operations marks the
      oldest one as rolled back and leaves the undone one marked Success. */
  lemma RollbackMarksAsWritten(a: Operation, b: Operation, c: Operation, result: Value)
    requires a.status == Success && b.status == Success && c.status == Success
    ensures var ops := [a, b, c];
      var undo := (k: nat) => Resolved(result);
      && |Window(ops, 2, Some(1))| == 1 && Window(ops, 2, Some(1))[0] == c
      && MarkedAsWritten(ops, undo, 1)[0].status == Status.Rollback
      && MarkedAsWritten(ops, undo, 1)[2].status == Success
      && Marked(ops, 2, undo, 1)[2].status == Status.Rollback
      && Marked(ops, 2, undo, 1)[0].status == Success
  {
    var ops := [a, b, c];
    var undo := (k: nat) => Resolved(result);
    WindowLength(ops, 2, Some(1));
    WindowNewestFirst(ops, 2, Some(1));
    assert UndoStatus(undo(0)) == Status.Rollback;
    assert MarkedAsWritten(ops, undo, 1)[0] == a.(status := Status.Rollback);
    assert Marked(ops, 2, undo, 1)[2] == c.(status := Status.Rollback);
    assert Marked(ops, 2, undo, 1)[0] == a;
    assert MarkedAsWritten(ops, undo, 1)[2] == c;
  }

  /** As written, nothing can be queued: the constructor leaves `operations`
      undefined, so `run` throws, and even after `clean()` every enqueue
      throws on the missing `connection`. */
  method ConstructionAsWritten()
  {
    var t := new Transaction.AsWritten(false);
    var ran := t.Run((j: nat) => StepOutcome(None, Resolved(Null)));
    assert ran == Err(NoOperations);
    t.Clean(Str(""));
    var id := t.Insert("note", [], Undefined, "0f6b1c2e");
    assert id == Err(NoModel);
    var fixed := new Transaction(false, true);
    id := fixed.Insert("note", [], Undefined, "0f6b1c2e");
    assert id == Ok(Str("0f6b1c2e"));
  }
}
