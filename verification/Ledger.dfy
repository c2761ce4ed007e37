/**
 * The in-memory operation ledger: admission with quotas, idempotent retry, and the coupled lives of
 * an operation, its process and its output spool.
 *
 * Every method of the source runs under one lock, so each is one step on the value below.
 */
module Ledger {
  import opened SandboxTypes
  import opened Sums
  import opened Admission

  datatype OperationState =
    | Accepted | Queued | Dispatched | Started | Succeeded | Failed | CancelledOp | Uncertain
    | CleanupPending | CleanupConfirmed | Expired | Tombstoned

  predicate Terminal(state: OperationState) {
    state.Succeeded? || state.Failed? || state.CancelledOp? || state.Uncertain? || state.Expired? || state.Tombstoned?
  }

  datatype ProcessState = ProcessAccepted | Starting | Running | Terminating | ProcessTerminal

  /** The part of an operation that changes after acceptance. */
  datatype Progress = Progress(state: OperationState, result: Option<ProcessResult>, failure: Option<FailureCode>,
        cursor: nat)

  /** `once` is the guard of the done channel, `closes` how often the channel was closed. */
  datatype Operation = Operation(
    request: Request, digest: string, spec: Spec, acceptedAt: int, progress: Progress, once: bool, closes: nat)

  /** What the ledger needs of a spool: its budget and whether it is finalized. */
  datatype SpoolState = SpoolState(produced: nat, producedLimit: nat, closed: bool)

  /** `output` is None where making the spool failed and the failure was dropped. */
  datatype Process = Process(operation: string, state: ProcessState, result: Option<ProcessResult>,
        output: Option<SpoolState>)

  datatype Principal = Principal(operations: map<string, Operation>, processes: map<string, Process>)

  type Book = map<string, Principal>

  datatype Client = Client(principal: string, now: int, closed: bool, policy: Policy)

  datatype Ref = Ref(id: string, acceptedAt: int)

  const NOBODY := Principal(map[], map[])

  function Of(book: Book, p: string): Principal {
    if p in book then book[p] else NOBODY
  }

  function RefOf(op: Operation): Ref {
    Ref(op.request.id, op.acceptedAt)
  }

  // ----- Process identifiers -----

  function ProcessIdFor(id: string): string
    requires |id| >= 3
  {
    "prc_" + id[3..]
  }

  lemma ProcessIdReads(name: string)
    ensures ProcessIdFor("op_" + name) == "prc_" + name
  {
    assert ("op_" + name)[3..] == name;
  }

  /** Valid operations never share a process identifier. */
  lemma ProcessIdInjective(a: string, b: string)
    requires ValidOperationId(a) && ValidOperationId(b) && ProcessIdFor(a) == ProcessIdFor(b)
    ensures a == b
  {
    assert ProcessIdFor(a)[4..] == a[3..] && ProcessIdFor(b)[4..] == b[3..];
    assert a == "op_" + a[3..] && b == "op_" + b[3..];
  }

  /** The derived identifier of an operation with the longest valid identifier is itself too long. */
  lemma LongestIdDerivesInvalid(id: string)
    requires ValidOperationId(id)
    ensures |ProcessIdFor(id)| <= 128 <==> |id| < 128
  {
  }

  // ----- Submit -----

  function OperationCounts(book: Book): map<string, nat> {
    map p | p in book :: |book[p].operations|
  }

  function ProcessCounts(book: Book): map<string, nat> {
    map p | p in book :: |book[p].processes|
  }

  predicate HeldElsewhere(book: Book, p: string, id: string) {
    exists q :: q in book && q != p && id in book[q].operations
  }

  ghost predicate QuotaFull(book: Book, client: Client, kind: Kind) {
    var mine := Of(book, client.principal);
    || |mine.operations| % U32 >= client.policy.maximumOperations
    || Total(OperationCounts(book)) % U32 >= client.policy.maximumGlobalOperations
    || (kind.ExecProcess? && |mine.processes| % U32 >= client.policy.maximumProcesses)
    || (kind.ExecProcess? && Total(ProcessCounts(book)) % U32 >= client.policy.maximumGlobalProcesses)
  }

  function NewOperation(o: Oracle, frozen: Request, spec: Spec, now: int): Operation {
    Operation(frozen, o.digest(frozen), spec, now, Progress(Accepted, None, None, 0), false, 0)
  }

  function NewProcess(op: Operation): Process {
    var limits := op.spec.limits;
    Process(op.request.id, ProcessAccepted, None,
            if SpoolLimits(limits.producedOutputBytes, limits.retainedOutputBytes)
            then Some(SpoolState(0, limits.producedOutputBytes, false)) else None)
  }

  function Accept(mine: Principal, op: Operation): Principal
    requires |op.request.id| >= 3
  {
    Principal(mine.operations[op.request.id := op],
              if op.request.kind.ExecProcess?
                  then mine.processes[ProcessIdFor(op.request.id) := NewProcess(op)] else mine.processes)
  }

  /** The answer to a request whose identifier the principal has used before. */
  function Retry(o: Oracle, prior: Operation, policy: Policy, request: Request): Result<Ref> {
    match Normalize(o, request, prior.spec.limits, prior.spec.limits)
    case Err(code) => Err(code)
    case Ok(frozen) =>
      if o.digest(frozen) != prior.digest then Err(OperationConflict)
      else if !Compatible(prior.spec, policy) then Err(IncompatiblePersistedPolicy)
      else Ok(RefOf(prior))
  }

  datatype Answer = Answer(result: Result<Ref>, book: Book)

  ghost function Submit(o: Oracle, book: Book, client: Client, request: Request): Answer {
    if client.closed then Answer(Err(Unavailable), book)
    else
      var p := client.principal;
      var mine := Of(book, p);
      var known := book[p := mine];
      if request.id in mine.operations then Answer(Retry(o, mine.operations[request.id], client.policy, request), known)
      else if HeldElsewhere(book, p, request.id) then Answer(Err(NotFoundOrDenied), known)
      else if QuotaFull(known, client, request.kind) then Answer(Err(ControlQuotaExceeded), known)
      else
        match Normalize(o, request, client.policy.defaults, client.policy.maximum)
        case Err(code) => Answer(Err(code), known)
        case Ok(frozen) =>
          match NewSpec(o, frozen, client.policy)
          case Err(code) => Answer(Err(code), known)
          case Ok(spec) =>
            var op := NewOperation(o, frozen, spec, client.now);
            Answer(Ok(RefOf(op)), known[p := Accept(mine, op)])
  }

  // ----- Process and operation lifecycle -----

  /** Closing the done channel through its once. */
  function Finish(op: Operation): Operation {
    if op.once then op else op.(once := true, closes := op.closes + 1)
  }

  /** Finalizes a process record, its spool and, if still open, its operation. */
  function CompleteLocked(mine: Principal, pid: string, result: ProcessResult): Principal
    requires pid in mine.processes && mine.processes[pid].output.Some?
  {
    var record := mine.processes[pid];
    var done := record.(state := ProcessTerminal, result := Some(result),
          output := Some(record.output.value.(closed := true)));
    var processes := mine.processes[pid := done];
    if record.operation in mine.operations && !Terminal(mine.operations[record.operation].progress.state) then
      var op := mine.operations[record.operation];
      Principal(mine.operations[record.operation :=
                  Finish(op.(progress := op.progress.(state := Succeeded, result := Some(result))))], processes)
    else Principal(mine.operations, processes)
  }

  datatype Step =
    | Submitting(request: Request)
    | BeginProcess(pid: string, cancelled: Option<FailureCode>)
    | Completing(pid: string, result: ProcessResult)
    | Writing(pid: string, stream: OutputKind, length: nat)
    | Scripting(id: string, state: OperationState, failure: Option<FailureCode>, reported: Option<ProcessResult>,
          cursor: nat)
    | Stamping(id: string, cursor: nat)

  function StartResult(now: int): ProcessResult {
    ProcessResult(CancelledRun, None, None, now, now)
  }

  function LimitResult(now: int): ProcessResult {
    ProcessResult(OutputLimit, None, None, now, now)
  }

  /** A record the ledger can act on: one whose spool exists.  Acting on another would dereference nil. */
  predicate Usable(mine: Principal, pid: string) {
    pid in mine.processes && mine.processes[pid].output.Some?
  }

  /** A start is acknowledged at once; a start whose context has ended finalizes the process. */
  function StartLocked(mine: Principal, pid: string, cancelled: Option<FailureCode>, now: int): Principal {
    if !Usable(mine, pid) || mine.processes[pid].state.ProcessTerminal? then mine
    else if cancelled.Some? then CompleteLocked(mine, pid, StartResult(now))
    else if !mine.processes[pid].state.ProcessAccepted? && !mine.processes[pid].state.Starting? then mine
    else mine.(processes := mine.processes[pid := mine.processes[pid].(state := Running)])
  }

  function CompleteStep(mine: Principal, pid: string, result: ProcessResult): Principal {
    if !ValidResult(result) || !Usable(mine, pid) || mine.processes[pid].state.ProcessTerminal? then mine
    else CompleteLocked(mine, pid, result)
  }

  /** A write over a limit finalizes the process with that reason. */
  function WriteStep(mine: Principal, pid: string, stream: OutputKind, length: nat, now: int): Principal {
    if !Usable(mine, pid) then mine
    else
      var record := mine.processes[pid];
      var spool := record.output.value;
      match WriteRefusal(spool.closed, stream, length, spool.produced, spool.producedLimit)
      case None =>
        var written := spool.(produced := (spool.produced + length) % U64);
        mine.(processes := mine.processes[pid := record.(output := Some(written))])
      case Some(code) =>
        if code.ResourceLimitExceeded?
            && !record.state.ProcessTerminal? then CompleteLocked(mine, pid, LimitResult(now)) else mine
  }

  /** The ledger's part of one scripted step.  A result for a record without a spool would dereference nil. */
  function ScriptStep(mine: Principal, id: string, state: OperationState, failure: Option<FailureCode>,
                      result: Option<ProcessResult>, cursor: nat): Principal
  {
    if id !in mine.operations || Terminal(mine.operations[id].progress.state) || |id| < 3 then mine
    else
      var op := mine.operations[id];
      var moved := mine.(operations := mine.operations[id := op.(progress := op.progress.(state := state,
            failure := failure))]);
      var pid := ProcessIdFor(id);
      if result.Some? && pid in mine.processes && mine.processes[pid].output.None? then mine
      else
        var finished := result.Some? && pid in mine.processes;
        var done := if finished then CompleteLocked(moved, pid, result.value) else moved;
        var ended := done.operations[id];
        var reported := ended.(progress := ended.progress.(result := if finished
              then result else ended.progress.result, cursor := cursor));
        done.(operations := done.operations[id := if Terminal(reported.progress.state)
              then Finish(reported) else reported])
  }

  function StampStep(mine: Principal, id: string, cursor: nat): Principal {
    if id !in mine.operations then mine
    else
      var op := mine.operations[id];
      mine.(operations := mine.operations[id := op.(progress := op.progress.(cursor := cursor))])
  }

  /** One principal's ledger after a step other than a submit. */
  function Local(mine: Principal, client: Client, step: Step): Principal {
    match step
    case Submitting(request) => mine
    case BeginProcess(pid, cancelled) => StartLocked(mine, pid, cancelled, client.now)
    case Completing(pid, result) => CompleteStep(mine, pid, result)
    case Writing(pid, stream, length) => WriteStep(mine, pid, stream, length, client.now)
    case Scripting(id, state, failure, result, cursor) => ScriptStep(mine, id, state, failure, result, cursor)
    case Stamping(id, cursor) => StampStep(mine, id, cursor)
  }

  /** A step other than a submit acts on the client's own principal, if the ledger has it. */
  function Stepped(book: Book, client: Client, step: Step): Book {
    if client.principal in book then book[client.principal := Local(book[client.principal], client, step)] else book
  }

  ghost function Next(o: Oracle, book: Book, client: Client, step: Step): Book {
    if step.Submitting? then Submit(o, book, client, step.request).book
    else Stepped(book, client, step)
  }

  /** A step and the client that takes it. */
  datatype Act = Act(client: Client, step: Step)

  ghost function Run(o: Oracle, book: Book, acts: seq<Act>): Book
    decreases |acts|
  {
    if acts == [] then book else Run(o, Next(o, book, acts[0].client, acts[0].step), acts[1..])
  }

  // ----- What every step keeps -----

  /** The done channel is closed, once, exactly when the operation is terminal. */
  predicate OperationOk(op: Operation) {
    op.once == Terminal(op.progress.state) && op.closes == if op.once then 1 else 0
  }

  /** A process belongs to its exec operation, and is terminal exactly when it has a result and a finalized spool. */
  predicate ProcessOk(mine: Principal, pid: string)
    requires pid in mine.processes
  {
    var record := mine.processes[pid];
    && record.operation in mine.operations && mine.operations[record.operation].request.kind.ExecProcess?
    && ValidOperationId(record.operation) && pid == ProcessIdFor(record.operation)
    && record.output.Some?
    && record.state.ProcessTerminal? == record.result.Some? == record.output.value.closed
    && (record.state.ProcessTerminal? ==> Terminal(mine.operations[record.operation].progress.state))
  }

  predicate PrincipalOk(mine: Principal) {
    && (forall id :: id in mine.operations ==>
          ValidOperationId(id) && mine.operations[id].request.id == id && OperationOk(mine.operations[id]))
    && (forall pid :: pid in mine.processes ==> ProcessOk(mine, pid))
    && (forall id :: id in mine.operations && mine.operations[id].request.kind.ExecProcess? ==>
          ProcessIdFor(id) in mine.processes)
  }

  /** What no step undoes: identity for ever, and the outcome once terminal. */
  predicate Evolved(a: Operation, b: Operation) {
    && a.request == b.request && a.digest == b.digest && a.spec == b.spec && a.acceptedAt == b.acceptedAt
    && (Terminal(a.progress.state) ==> b.progress == a.progress.(cursor := b.progress.cursor))
  }

  predicate ProcessEvolved(a: Process, b: Process) {
    a.operation == b.operation && (a.state.ProcessTerminal? ==> a == b)
  }

  predicate Evolves(a: Principal, b: Principal) {
    && (forall id :: id in a.operations ==> id in b.operations && Evolved(a.operations[id], b.operations[id]))
    && (forall pid :: pid in a.processes ==> pid in b.processes && ProcessEvolved(a.processes[pid], b.processes[pid]))
  }

  predicate SameKeys(a: Principal, b: Principal) {
    a.operations.Keys == b.operations.Keys && a.processes.Keys == b.processes.Keys
  }

  /** What a step may do to one principal. */
  predicate Keeps(a: Principal, b: Principal) {
    PrincipalOk(b) && Evolves(a, b) && SameKeys(a, b)
  }

  lemma EvolvesItself(mine: Principal)
    ensures Evolves(mine, mine)
  {
  }

  lemma EvolvesTransitive(a: Principal, b: Principal, c: Principal)
    requires Evolves(a, b) && Evolves(b, c)
    ensures Evolves(a, c)
  {
    forall id | id in a.operations ensures id in c.operations && Evolved(a.operations[id], c.operations[id]) {
      assert id in b.operations;
    }
    forall pid | pid in a.processes ensures pid in c.processes && ProcessEvolved(a.processes[pid], c.processes[pid]) {
      assert pid in b.processes;
    }
  }

  lemma KeepsTransitive(a: Principal, b: Principal, c: Principal)
    requires Keeps(a, b) && Keeps(b, c)
    ensures Keeps(a, c)
  {
    hide PrincipalOk;
    hide Evolves;
    EvolvesTransitive(a, b, c);
  }

  lemma UpdateTwice<K, V>(m: map<K, V>, k: K, a: V, b: V)
    ensures m[k := a][k := b] == m[k := b]
  {
  }

  lemma RewriteProcessOk(mine: Principal, id: string, op: Operation, pid: string)
    requires id in mine.operations && Evolved(mine.operations[id], op)
    requires pid in mine.processes && ProcessOk(mine, pid)
    ensures ProcessOk(mine.(operations := mine.operations[id := op]), pid)
  {
    hide ValidOperationId;
    hide ProcessIdFor;
  }

  lemma RewriteOk(mine: Principal, id: string, op: Operation)
    requires PrincipalOk(mine) && id in mine.operations && OperationOk(op) && Evolved(mine.operations[id], op)
    ensures PrincipalOk(mine.(operations := mine.operations[id := op]))
  {
    hide ProcessOk;
    hide OperationOk;
    var after := mine.(operations := mine.operations[id := op]);
    forall p | p in after.processes ensures ProcessOk(after, p) {
      EachProcessOk(mine, p);
      RewriteProcessOk(mine, id, op, p);
    }
    hide ValidOperationId;
    hide ProcessIdFor;
  }

  /** Rewriting one operation in a way that keeps its outcome. */
  lemma RewriteKeeps(mine: Principal, id: string, op: Operation)
    requires PrincipalOk(mine) && id in mine.operations && OperationOk(op) && Evolved(mine.operations[id], op)
    ensures Keeps(mine, mine.(operations := mine.operations[id := op]))
  {
    hide PrincipalOk;
    hide Evolved;
    hide ProcessEvolved;
    hide OperationOk;
    RewriteOk(mine, id, op);
    forall k | k in mine.operations ensures Evolved(mine.operations[k], mine.operations[id := op][k]) {
      SameEvolved(mine.operations[k]);
    }
    forall p | p in mine.processes ensures ProcessEvolved(mine.processes[p], mine.processes[p]) {
      SameProcessEvolved(mine.processes[p]);
    }
  }

  lemma SameEvolved(op: Operation)
    ensures Evolved(op, op)
  {
  }

  lemma SameProcessEvolved(record: Process)
    ensures ProcessEvolved(record, record)
  {
  }

  /** Rewriting one process record likewise. */
  lemma ReprocessKeeps(mine: Principal, pid: string, record: Process)
    requires PrincipalOk(mine) && pid in mine.processes && ProcessEvolved(mine.processes[pid], record)
    requires ProcessOk(mine.(processes := mine.processes[pid := record]), pid)
    ensures Keeps(mine, mine.(processes := mine.processes[pid := record]))
  {
    hide OperationOk;
    hide Evolved;
    hide ProcessEvolved;
    var after := mine.(processes := mine.processes[pid := record]);
    forall p | p in after.processes ensures ProcessOk(after, p) {
      if p != pid {
        assert ProcessOk(mine, p);
      }
    }
    forall k | k in mine.operations ensures Evolved(mine.operations[k], mine.operations[k]) {
      SameEvolved(mine.operations[k]);
    }
    forall p | p in mine.processes ensures ProcessEvolved(mine.processes[p], after.processes[p]) {
      SameProcessEvolved(mine.processes[p]);
    }
    hide ValidOperationId;
    hide ProcessIdFor;
    hide ProcessOk;
  }

  lemma CompleteKeeps(mine: Principal, pid: string, result: ProcessResult)
    requires PrincipalOk(mine) && pid in mine.processes && !mine.processes[pid].state.ProcessTerminal?
    ensures mine.processes[pid].output.Some? && Keeps(mine, CompleteLocked(mine, pid, result))
  {
    assert ProcessOk(mine, pid);
    var record := mine.processes[pid];
    var op := mine.operations[record.operation];
    var finished := Finish(op.(progress := op.progress.(state := Succeeded, result := Some(result))));
    var first := if Terminal(op.progress.state)
        then mine else mine.(operations := mine.operations[record.operation := finished]);
    if Terminal(op.progress.state) {
      KeepsItself(mine);
    } else {
      RewriteKeeps(mine, record.operation, finished);
    }
    var done := record.(state := ProcessTerminal, result := Some(result),
          output := Some(record.output.value.(closed := true)));
    hide PrincipalOk;
    hide Keeps;
    RecordDone(first, pid, record, done);
    KeepsTransitive(mine, first, first.(processes := first.processes[pid := done]));
  }

  lemma KeepsItself(mine: Principal)
    requires PrincipalOk(mine)
    ensures Keeps(mine, mine)
  {
  }

  lemma RecordDone(mine: Principal, pid: string, record: Process, done: Process)
    requires PrincipalOk(mine) && pid in mine.processes && mine.processes[pid] == record
    requires record.operation in mine.operations && Terminal(mine.operations[record.operation].progress.state)
    requires !record.state.ProcessTerminal? && record.output.Some? && done.operation == record.operation
    requires done.state.ProcessTerminal? && done.result.Some?
             && done.output == Some(record.output.value.(closed := true))
    ensures Keeps(mine, mine.(processes := mine.processes[pid := done]))
  {
    assert ProcessOk(mine, pid);
    ReprocessKeeps(mine, pid, done);
  }

  lemma StartKeeps(mine: Principal, pid: string, cancelled: Option<FailureCode>, now: int)
    requires PrincipalOk(mine)
    ensures Keeps(mine, StartLocked(mine, pid, cancelled, now))
  {
    KeepsItself(mine);
    if Usable(mine, pid) && !mine.processes[pid].state.ProcessTerminal? {
      assert ProcessOk(mine, pid);
      CompleteKeeps(mine, pid, StartResult(now));
      ReprocessKeeps(mine, pid, mine.processes[pid].(state := Running));
    }
    hide PrincipalOk;
    hide Evolves;
  }

  lemma ProduceKeeps(mine: Principal, pid: string, produced: nat)
    requires PrincipalOk(mine) && Usable(mine, pid)
    requires !mine.processes[pid].state.ProcessTerminal?
    ensures var record := mine.processes[pid];
            var written := record.(output := Some(record.output.value.(produced := produced)));
            Keeps(mine, mine.(processes := mine.processes[pid := written]))
  {
    assert ProcessOk(mine, pid);
    var record := mine.processes[pid];
    ReprocessKeeps(mine, pid, record.(output := Some(record.output.value.(produced := produced))));
  }

  lemma EachProcessOk(mine: Principal, pid: string)
    requires PrincipalOk(mine) && pid in mine.processes
    ensures ProcessOk(mine, pid)
  {
  }

  lemma WriteKeeps(mine: Principal, pid: string, stream: OutputKind, length: nat, now: int)
    requires PrincipalOk(mine)
    ensures Keeps(mine, WriteStep(mine, pid, stream, length, now))
  {
    hide PrincipalOk;
    hide Keeps;
    hide CompleteLocked;
    hide ProcessIdFor;
    hide ValidOperationId;
    KeepsItself(mine);
    if Usable(mine, pid) {
      EachProcessOk(mine, pid);
      var record := mine.processes[pid];
      if !record.state.ProcessTerminal? {
        CompleteKeeps(mine, pid, LimitResult(now));
        ProduceKeeps(mine, pid, (record.output.value.produced + length) % U64);
      }
    }
  }

  lemma CompleteStepKeeps(mine: Principal, pid: string, result: ProcessResult)
    requires PrincipalOk(mine)
    ensures Keeps(mine, CompleteStep(mine, pid, result))
  {
    KeepsItself(mine);
    if Usable(mine, pid) && !mine.processes[pid].state.ProcessTerminal? {
      CompleteKeeps(mine, pid, result);
    }
    hide PrincipalOk;
    hide Evolves;
  }

  lemma StampKeeps(mine: Principal, id: string, cursor: nat)
    requires PrincipalOk(mine)
    ensures Keeps(mine, StampStep(mine, id, cursor))
  {
    KeepsItself(mine);
    if id in mine.operations {
      var op := mine.operations[id];
      RewriteKeeps(mine, id, op.(progress := op.progress.(cursor := cursor)));
    }
  }

  lemma ScriptIdle(mine: Principal, id: string, state: OperationState, failure: Option<FailureCode>,
                   result: Option<ProcessResult>, cursor: nat)
    ensures |id| < 3 || id !in mine.operations || Terminal(mine.operations[id].progress.state) ==>
              ScriptStep(mine, id, state, failure, result, cursor) == mine
  {
  }

  lemma ScriptKeeps(mine: Principal, id: string, state: OperationState, failure: Option<FailureCode>,
                    result: Option<ProcessResult>, cursor: nat)
    requires PrincipalOk(mine)
    ensures Keeps(mine, ScriptStep(mine, id, state, failure, result, cursor))
  {
    hide PrincipalOk;
    hide Keeps;
    hide ScriptStep;
    KeepsItself(mine);
    ScriptIdle(mine, id, state, failure, result, cursor);
    if |id| >= 3 && id in mine.operations && !Terminal(mine.operations[id].progress.state) {
      if result.Some? && ProcessIdFor(id) in mine.processes {
        ScriptedProcess(mine, id, state, failure, result.value, cursor);
      } else {
        ScriptedOperation(mine, id, state, failure, result, cursor);
      }
    }
  }

  /** A scripted step without a process to finalize rewrites its operation once. */
  lemma ScriptedOperation(mine: Principal, id: string, state: OperationState, failure: Option<FailureCode>,
                          result: Option<ProcessResult>, cursor: nat)
    requires PrincipalOk(mine) && id in mine.operations && !Terminal(mine.operations[id].progress.state)
    requires |id| >= 3 && (result.None? || ProcessIdFor(id) !in mine.processes)
    ensures Keeps(mine, ScriptStep(mine, id, state, failure, result, cursor))
  {
    var op := mine.operations[id];
    var reported := op.(progress := Progress(state, op.progress.result, failure, cursor));
    var last := if Terminal(state) then Finish(reported) else reported;
    RewriteKeeps(mine, id, last);
    hide PrincipalOk;
    hide Keeps;
    hide ProcessIdFor;
    hide CompleteLocked;
    UpdateTwice(mine.operations, id, op.(progress := op.progress.(state := state, failure := failure)), last);
  }

  /** A scripted step with a process result ends in the same ledger as finishing the operation, then its process. */
  lemma ScriptedProcess(mine: Principal, id: string, state: OperationState, failure: Option<FailureCode>,
                        result: ProcessResult, cursor: nat)
    requires PrincipalOk(mine) && id in mine.operations && !Terminal(mine.operations[id].progress.state)
    requires |id| >= 3 && ProcessIdFor(id) in mine.processes
    ensures Keeps(mine, ScriptStep(mine, id, state, failure, Some(result), cursor))
  {
    var pid := ProcessIdFor(id);
    assert ProcessOk(mine, pid);
    var record, op := mine.processes[pid], mine.operations[id];
    ProcessIdInjective(record.operation, id);
    var ended := if Terminal(state) then state else Succeeded;
    var finished := Finish(op.(progress := Progress(ended, Some(result), failure, cursor)));
    var first := mine.(operations := mine.operations[id := finished]);
    RewriteKeeps(mine, id, finished);
    var done := record.(state := ProcessTerminal, result := Some(result),
          output := Some(record.output.value.(closed := true)));
    hide PrincipalOk;
    hide Keeps;
    RecordDone(first, pid, record, done);
    var last := first.(processes := first.processes[pid := done]);
    KeepsTransitive(mine, first, last);
    ScriptedProcessIs(mine, id, state, failure, result, cursor, last);
  }

  lemma ScriptedProcessIs(mine: Principal, id: string, state: OperationState, failure: Option<FailureCode>,
                          result: ProcessResult,
                          cursor: nat, last: Principal)
    requires id in mine.operations && !Terminal(mine.operations[id].progress.state) && !mine.operations[id].once
             && |id| >= 3
    requires Usable(mine, ProcessIdFor(id)) && mine.processes[ProcessIdFor(id)].operation == id
    requires var record, op := mine.processes[ProcessIdFor(id)], mine.operations[id];
             var ended := if Terminal(state) then state else Succeeded;
             var finished := Finish(op.(progress := Progress(ended, Some(result), failure, cursor)));
             var done := record.(state := ProcessTerminal, result := Some(result),
                                 output := Some(record.output.value.(closed := true)));
             last == Principal(mine.operations[id := finished], mine.processes[ProcessIdFor(id) := done])
    ensures ScriptStep(mine, id, state, failure, Some(result), cursor) == last
  {
    hide ProcessIdFor;
    var after := ScriptStep(mine, id, state, failure, Some(result), cursor);
    assert after.processes == last.processes;
    assert after.operations.Keys == last.operations.Keys;
    forall k | k in last.operations ensures after.operations[k] == last.operations[k] {
    }
    assert after.operations == last.operations;
  }

  lemma LocalKeeps(mine: Principal, client: Client, step: Step)
    requires PrincipalOk(mine)
    ensures Keeps(mine, Local(mine, client, step))
  {
    hide PrincipalOk;
    hide Keeps;
    hide StartLocked;
    hide CompleteStep;
    hide WriteStep;
    hide ScriptStep;
    hide StampStep;
    match step
    case Submitting(request) => KeepsItself(mine);
    case BeginProcess(pid, cancelled) => StartKeeps(mine, pid, cancelled, client.now);
    case Completing(pid, result) => CompleteStepKeeps(mine, pid, result);
    case Writing(pid, stream, length) => WriteKeeps(mine, pid, stream, length, client.now);
    case Scripting(id, state, failure, result, cursor) => ScriptKeeps(mine, id, state, failure, result, cursor);
    case Stamping(id, cursor) => StampKeeps(mine, id, cursor);
  }
}
