/** What each step on a process does to its record, its operation and nothing else, field by field. */
module LedgerSteps {
  import opened SandboxTypes
  import opened Admission
  import opened Ledger

  /** The states an operation can still leave. */
  lemma OpenStates(state: OperationState)
    ensures !Terminal(state) <==>
            state in {Accepted, Queued, Dispatched, Started, CleanupPending, CleanupConfirmed}
  {
  }

  /** Nothing but one process record and its operation may differ. */
  predicate OnlyTouches(mine: Principal, after: Principal, pid: string)
    requires pid in mine.processes
  {
    && after.operations.Keys == mine.operations.Keys && after.processes.Keys == mine.processes.Keys
    && (forall p :: p in mine.processes && p != pid ==> after.processes[p] == mine.processes[p])
    && (forall id :: id in mine.operations && id != mine.processes[pid].operation ==>
          after.operations[id] == mine.operations[id])
  }

  /** The process and its spool are finalized with `result`, and its operation, if open, succeeds with it. */
  predicate Finalized(mine: Principal, after: Principal, pid: string, result: ProcessResult)
    requires pid in mine.processes && mine.processes[pid].operation in mine.operations
    requires mine.processes[pid].output.Some?
  {
    && OnlyTouches(mine, after, pid)
    && var id := mine.processes[pid].operation;
       var record, was, op := after.processes[pid], mine.operations[id], after.operations[id];
       && record.state.ProcessTerminal? && record.result == Some(result) && record.operation == id
       && record.output == Some(mine.processes[pid].output.value.(closed := true))
       && if Terminal(was.progress.state) then op == was
          else
            && op.progress == Progress(Succeeded, Some(result), was.progress.failure, was.progress.cursor)
            && op.request == was.request && op.spec == was.spec && op.acceptedAt == was.acceptedAt && op.closes == 1
  }

  lemma CompleteFinalizes(mine: Principal, pid: string, result: ProcessResult)
    requires PrincipalOk(mine) && pid in mine.processes && !mine.processes[pid].state.ProcessTerminal?
    ensures mine.processes[pid].operation in mine.operations && mine.processes[pid].output.Some?
    ensures Finalized(mine, CompleteLocked(mine, pid, result), pid, result)
  {
    EachProcessOk(mine, pid);
    assert OperationOk(mine.operations[mine.processes[pid].operation]);
    hide PrincipalOk;
    hide ValidOperationId;
    hide ProcessIdFor;
  }

  /** A valid result finalizes an open process; an invalid result, an unknown or a finished process changes nothing. */
  lemma CompletingOutcome(mine: Principal, client: Client, pid: string, result: ProcessResult)
    requires PrincipalOk(mine)
    ensures var after := Local(mine, client, Completing(pid, result));
            if pid in mine.processes && !mine.processes[pid].state.ProcessTerminal? && ValidResult(result)
            then mine.processes[pid].operation in mine.operations && mine.processes[pid].output.Some?
                 && Finalized(mine, after, pid, result)
            else after == mine
  {
    if pid in mine.processes && !mine.processes[pid].state.ProcessTerminal? {
      CompleteFinalizes(mine, pid, result);
    }
    hide PrincipalOk;
    hide Finalized;
    hide CompleteLocked;
    hide ValidResult;
  }

  /**
   * A start whose context has ended finalizes the process as cancelled, at the client's time and with
   * neither exit code nor signal.  A live start sets an accepted or starting process running and
   * changes nothing else, and anything else is left alone.
   */
  lemma StartOutcome(mine: Principal, client: Client, pid: string, cancelled: Option<FailureCode>)
    requires PrincipalOk(mine)
    ensures var after := Local(mine, client, BeginProcess(pid, cancelled));
            if pid !in mine.processes || mine.processes[pid].state.ProcessTerminal? then after == mine
            else if cancelled.Some? then
              && mine.processes[pid].operation in mine.operations && mine.processes[pid].output.Some?
              && Finalized(mine, after, pid, ProcessResult(CancelledRun, None, None, client.now, client.now))
            else if mine.processes[pid].state.ProcessAccepted? || mine.processes[pid].state.Starting? then
              after == mine.(processes := mine.processes[pid := mine.processes[pid].(state := Running)])
            else after == mine
  {
    if pid in mine.processes && !mine.processes[pid].state.ProcessTerminal? {
      CompleteFinalizes(mine, pid, StartResult(client.now));
    }
    hide PrincipalOk;
    hide Finalized;
    hide CompleteLocked;
  }

  /**
   * An accepted write adds its length to what was produced and changes nothing else.  One over a limit
   * finalizes the process as stopped by the output limit.  Any other refusal changes nothing.
   */
  lemma WriteOutcome(mine: Principal, client: Client, pid: string, stream: OutputKind, length: nat)
    requires PrincipalOk(mine)
    ensures var after := Local(mine, client, Writing(pid, stream, length));
            if pid !in mine.processes || mine.processes[pid].state.ProcessTerminal? || stream.OtherStream?
            then after == mine
            else
              && mine.processes[pid].operation in mine.operations && mine.processes[pid].output.Some?
              && var record := mine.processes[pid];
                 var spool := record.output.value;
                 if length <= 262144 && (spool.produced + length) % U64 <= spool.producedLimit then
                   var written := SpoolState((spool.produced + length) % U64, spool.producedLimit, spool.closed);
                   after == mine.(processes := mine.processes[pid := record.(output := Some(written))])
                 else Finalized(mine, after, pid, ProcessResult(OutputLimit, None, None, client.now, client.now))
  {
    hide PrincipalOk;
    hide Finalized;
    hide CompleteLocked;
    hide ValidOperationId;
    hide ProcessIdFor;
    if pid in mine.processes {
      EachProcessOk(mine, pid);
      if !mine.processes[pid].state.ProcessTerminal? {
        CompleteFinalizes(mine, pid, LimitResult(client.now));
      }
    }
  }
}
