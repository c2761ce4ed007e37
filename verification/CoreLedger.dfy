/** The shared ledger object and the client methods that change it, each under the ledger's lock. */
module CoreLedgers {
  import opened SandboxTypes
  import opened Sums
  import opened Admission
  import opened Ledger

  class CoreLedger {
    var principals: Book

    constructor ()
      ensures principals == map[]
    {
      principals := map[];
    }

    /** Makes the principal's ledger on first use. */
    method PrincipalLedger(p: string) returns (mine: Principal)
      modifies this
      ensures mine == Of(old(principals), p) && principals == old(principals)[p := mine]
    {
      if p !in principals {
        principals := principals[p := NOBODY];
      }
      mine := principals[p];
      assert old(principals)[p := mine] == principals;
    }

    method OtherPrincipalHasOperation(p: string, id: string) returns (held: bool)
      ensures held <==> HeldElsewhere(principals, p, id)
    {
      var rest := principals.Keys;
      while rest != {}
        invariant rest <= principals.Keys
        invariant forall q :: q in principals && q != p && q !in rest ==> id !in principals[q].operations
        decreases |rest|
      {
        var q :| q in rest;
        if q != p && id in principals[q].operations {
          return true;
        }
        rest := rest - {q};
      }
      held := false;
    }

    method AdmissionQuotaFull(client: Client, kind: Kind) returns (full: bool)
      ensures full <==> QuotaFull(principals, client, kind)
    {
      var mine := Of(principals, client.principal);
      if |mine.operations| % U32 >= client.policy.maximumOperations {
        return true;
      }
      var operations := CountWrapping(OperationCounts(principals));
      if operations >= client.policy.maximumGlobalOperations {
        return true;
      }
      if kind.ExecProcess? && |mine.processes| % U32 >= client.policy.maximumProcesses {
        return true;
      }
      var processes := CountWrapping(ProcessCounts(principals));
      full := kind.ExecProcess? && processes >= client.policy.maximumGlobalProcesses;
    }

    method Submit(o: Oracle, client: Client, request: Request) returns (result: Result<Ref>)
      modifies this
      ensures Answer(result, principals) == Ledger.Submit(o, old(principals), client, request)
    {
      hide Normalize;
      hide NewSpec;
      hide QuotaFull;
      hide Compatible;
      if client.closed {
        return Err(Unavailable);
      }
      var p := client.principal;
      var mine := PrincipalLedger(p);
      if request.id in mine.operations {
        result := RetryPrior(o, mine.operations[request.id], client.policy, request);
        return;
      }
      var held := OtherPrincipalHasOperation(p, request.id);
      assert held <==> HeldElsewhere(old(principals), p, request.id) by {
        SameHolders(old(principals), p, request.id);
      }
      if held {
        return Err(NotFoundOrDenied);
      }
      var full := AdmissionQuotaFull(client, request.kind);
      if full {
        return Err(ControlQuotaExceeded);
      }
      var normal := Normalize(o, request, client.policy.defaults, client.policy.maximum);
      if normal.Err? {
        return Err(normal.code);
      }
      NormalForm(o, request, client.policy.defaults, client.policy.maximum);
      var spec := NewSpec(o, normal.value, client.policy);
      if spec.Err? {
        return Err(spec.code);
      }
      var op := NewOperation(o, normal.value, spec.value, client.now);
      var reserved := Reserve(mine, op);
      principals := principals[p := reserved];
      result := Ok(RefOf(op));
    }

    /** Puts a finalized process, and its operation if still open, on the principal's ledger. */
    method CompleteProcessLocked(p: string, pid: string, outcome: ProcessResult)
      requires p in principals && Usable(principals[p], pid)
      modifies this
      ensures principals == old(principals)[p := CompleteLocked(old(principals)[p], pid, outcome)]
    {
      var mine := principals[p];
      var record := mine.processes[pid];
      var spool := record.output.value;
      record := record.(state := ProcessTerminal, result := Some(outcome));
      record := record.(output := Some(spool.(closed := true)));
      mine := mine.(processes := mine.processes[pid := record]);
      if record.operation in mine.operations && !Terminal(mine.operations[record.operation].progress.state) {
        var entry := mine.operations[record.operation];
        entry := entry.(progress := entry.progress.(state := Succeeded, result := Some(outcome)));
        mine := mine.(operations := mine.operations[record.operation := Finish(entry)]);
      }
      principals := principals[p := mine];
    }

    method CompleteProcess(client: Client, pid: string, outcome: ProcessResult) returns (error: Option<FailureCode>)
      requires HasSpool(principals, client.principal, pid)
      modifies this
      ensures principals == Stepped(old(principals), client, Completing(pid, outcome))
      ensures error.None? <==> ValidResult(outcome) && Open(old(principals), client.principal, pid)
      ensures error.Some? ==> error.value == if !ValidResult(outcome) then InvalidArgument else
                                              if Known(old(principals), client.principal, pid)
                                                  then AlreadyTerminal else NotFoundOrDenied
    {
      if !ValidResult(outcome) {
        assert principals == Stepped(principals, client, Completing(pid, outcome));
        return Some(InvalidArgument);
      }
      var p := client.principal;
      if p !in principals || pid !in principals[p].processes {
        assert principals == Stepped(principals, client, Completing(pid, outcome));
        return Some(NotFoundOrDenied);
      }
      if principals[p].processes[pid].state.ProcessTerminal? {
        assert principals == Stepped(principals, client, Completing(pid, outcome));
        return Some(AlreadyTerminal);
      }
      CompleteProcessLocked(p, pid, outcome);
      error := None;
    }

    method StartProcess(client: Client, pid: string,
                        cancelled: Option<FailureCode>) returns (error: Option<FailureCode>)
      requires HasSpool(principals, client.principal, pid)
      modifies this
      ensures principals == Stepped(old(principals), client, BeginProcess(pid, cancelled))
      ensures error.None? <==>
              && Open(old(principals), client.principal, pid) && cancelled.None?
              && var state := old(principals)[client.principal].processes[pid].state;
                 state.ProcessAccepted? || state.Starting?
      ensures error.Some? ==>
              error.value == if !Known(old(principals), client.principal, pid) then NotFoundOrDenied else
                                              if Open(old(principals), client.principal, pid)
                                                  && cancelled.Some? then cancelled.value
                                              else AlreadyTerminal
    {
      var p := client.principal;
      if p !in principals || pid !in principals[p].processes {
        assert principals == Stepped(principals, client, BeginProcess(pid, cancelled));
        return Some(NotFoundOrDenied);
      }
      var record := principals[p].processes[pid];
      if record.state.ProcessTerminal? {
        assert principals == Stepped(principals, client, BeginProcess(pid, cancelled));
        return Some(AlreadyTerminal);
      }
      if cancelled.Some? {
        CompleteProcessLocked(p, pid, StartResult(client.now));
        return cancelled;
      }
      if !record.state.ProcessAccepted? && !record.state.Starting? {
        assert principals == Stepped(principals, client, BeginProcess(pid, cancelled));
        return Some(AlreadyTerminal);
      }
      record := record.(state := Starting);
      record := record.(state := Running);
      principals := principals[p := principals[p].(processes := principals[p].processes[pid := record])];
      error := None;
    }

    /** The chunk's bytes go to the spool; the ledger sees its length. */
    method AppendProcessOutput(client: Client, pid: string, stream: OutputKind,
                               length: nat) returns (error: Option<FailureCode>)
      requires HasSpool(principals, client.principal, pid)
      modifies this
      ensures principals == Stepped(old(principals), client, Writing(pid, stream, length))
      ensures Known(old(principals), client.principal, pid) ==>
                var spool := old(principals)[client.principal].processes[pid].output.value;
                error == WriteRefusal(spool.closed, stream, length, spool.produced, spool.producedLimit)
      ensures !Known(old(principals), client.principal, pid) ==> error == Some(NotFoundOrDenied)
    {
      var p := client.principal;
      if p !in principals || pid !in principals[p].processes {
        assert principals == Stepped(principals, client, Writing(pid, stream, length));
        return Some(NotFoundOrDenied);
      }
      var record := principals[p].processes[pid];
      var spool := record.output.value;
      error := WriteRefusal(spool.closed, stream, length, spool.produced, spool.producedLimit);
      if error.Some? {
        if error.value.ResourceLimitExceeded? && !record.state.ProcessTerminal? {
          CompleteProcessLocked(p, pid, LimitResult(client.now));
        } else {
          assert principals == Stepped(principals, client, Writing(pid, stream, length));
        }
        return;
      }
      spool := spool.(produced := (spool.produced + length) % U64);
      record := record.(output := Some(spool));
      principals := principals[p := principals[p].(processes := principals[p].processes[pid := record])];
    }
  }

  predicate Known(book: Book, p: string, pid: string) {
    p in book && pid in book[p].processes
  }

  predicate Open(book: Book, p: string, pid: string) {
    Known(book, p, pid) && !book[p].processes[pid].state.ProcessTerminal?
  }

  /** The source dereferences the record's spool without a check. */
  predicate HasSpool(book: Book, p: string, pid: string) {
    Known(book, p, pid) ==> book[p].processes[pid].output.Some?
  }

  lemma SameHolders(book: Book, p: string, id: string)
    ensures HeldElsewhere(book[p := Of(book, p)], p, id) <==> HeldElsewhere(book, p, id)
  {
    if HeldElsewhere(book, p, id) {
      var q :| q in book && q != p && id in book[q].operations;
      assert q in book[p := Of(book, p)] && id in book[p := Of(book, p)][q].operations;
    }
  }

  /** The answer to an identifier the principal has used before. */
  method RetryPrior(o: Oracle, prior: Operation, policy: Policy, request: Request) returns (result: Result<Ref>)
    ensures result == Retry(o, prior, policy, request)
  {
    hide Normalize;
    hide Compatible;
    var normal := Normalize(o, request, prior.spec.limits, prior.spec.limits);
    if normal.Err? {
      return Err(normal.code);
    }
    var digest := o.digest(normal.value);
    if digest != prior.digest || !Compatible(prior.spec, policy) {
      if digest == prior.digest {
        return Err(IncompatiblePersistedPolicy);
      }
      return Err(OperationConflict);
    }
    result := Ok(RefOf(prior));
  }

  /** Enters the operation and, for an exec, its process record. */
  method Reserve(mine: Principal, op: Operation) returns (after: Principal)
    requires |op.request.id| >= 3
    ensures after == Accept(mine, op)
  {
    after := mine.(operations := mine.operations[op.request.id := op]);
    if op.request.kind.ExecProcess? {
      after := after.(processes := after.processes[ProcessIdFor(op.request.id) := NewProcess(op)]);
    }
  }
}
