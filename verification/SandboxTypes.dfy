/** Values shared by the output spool, the operation ledger and the scripted control. */
module SandboxTypes {

  const U16: nat := 0x1_0000
  const U32: nat := 0x1_0000_0000
  const U64: nat := 0x1_0000_0000_0000_0000

  datatype Option<+T> = None | Some(value: T)
  datatype Result<+T> = Ok(value: T) | Err(code: FailureCode)

  datatype FailureCode =
    | InvalidArgument | NotFoundOrDenied | OperationConflict | AlreadyTerminal | CursorExpired | OutputGap
    | CapabilityUnavailable | ResourceLimitExceeded | ControlQuotaExceeded | IncompatiblePersistedPolicy
    | GrantDenied | Cancelled | DeadlineExceeded | Unavailable

  datatype OutputKind = Stdout | Stderr | OtherStream(name: string)

  datatype TerminationReason =
    | Exited | Signaled | TimedOut | OomKilled | OutputLimit | CancelledRun | KilledByCaller
    | SandboxClosed | SandboxLost | StartupFailed | InfrastructureFailed | OutcomeUncertain
    | OtherReason(text: string)

  datatype Signal = Interrupt | Terminate | Kill | Hangup | OtherSignal(text: string)

  datatype ProcessResult = ProcessResult(
    reason: TerminationReason, exitCode: Option<int>, signal: Option<Signal>, startedAt: int, finishedAt: int)

  /** A result the ledger accepts: exit code exactly for an exit, a portable signal exactly for a signal. */
  predicate ValidResult(result: ProcessResult) {
    && !result.reason.OtherReason?
    && (result.reason.Exited? <==> result.exitCode.Some?)
    && (result.reason.Signaled? <==> result.signal.Some?)
    && (result.signal.Some? ==> !result.signal.value.OtherSignal?)
  }

  /** The checks of a process result, one after the other. */
  method ValidateProcessResult(result: ProcessResult) returns (error: Option<FailureCode>)
    ensures error == if ValidResult(result) then None else Some(InvalidArgument)
  {
    if result.reason.OtherReason? {
      return Some(InvalidArgument);
    }
    if result.reason.OutcomeUncertain? && (result.exitCode.Some? || result.signal.Some?) {
      return Some(InvalidArgument);
    }
    if result.reason.Exited? {
      if result.exitCode.None? || result.signal.Some? {
        return Some(InvalidArgument);
      }
    } else if result.exitCode.Some? {
      return Some(InvalidArgument);
    }
    if result.reason.Signaled? {
      if result.signal.None? || result.signal.value.OtherSignal? {
        return Some(InvalidArgument);
      }
    } else if result.signal.Some? {
      return Some(InvalidArgument);
    }
    return None;
  }

  // ----- The produced-output budget -----

  const MAX_CHUNK: nat := 0x4_0000

  /** Why a spool refuses a write, in the order the checks are made; the sum is a 64-bit one. */
  function WriteRefusal(closed: bool, stream: OutputKind, length: nat, produced: nat, limit: nat): Option<FailureCode> {
    if closed then Some(AlreadyTerminal)
    else if stream.OtherStream? then Some(InvalidArgument)
    else if length > MAX_CHUNK then Some(ResourceLimitExceeded)
    else if (produced + length) % U64 > limit then Some(ResourceLimitExceeded)
    else None
  }

  /**
   * Every refusal and its code: a finalized spool is terminal, an unknown stream invalid, and a chunk over
   * 256 KiB or over the budget exceeds a limit; the two streams are treated alike.
   */
  lemma RefusalCodes(closed: bool, stream: OutputKind, length: nat, produced: nat, limit: nat)
    ensures var refusal := WriteRefusal(closed, stream, length, produced, limit);
            && (refusal == Some(AlreadyTerminal) <==> closed)
            && (refusal == Some(InvalidArgument) <==> !closed && stream != Stdout && stream != Stderr)
            && (refusal == Some(ResourceLimitExceeded) <==>
                  && !closed && (stream == Stdout || stream == Stderr)
                  && (length > 262144 || (produced + length) % 0x1_0000_0000_0000_0000 > limit))
            && (refusal.Some? ==> refusal.value in {AlreadyTerminal, InvalidArgument, ResourceLimitExceeded})
  {
  }

  /** Under this limit the 64-bit sum of the budget check cannot wrap. */
  predicate BudgetHolds(limit: nat) {
    limit + MAX_CHUNK < U64
  }

  /**
   * The check refuses exactly the writes that overrun the budget if and only if the limit leaves room
   * for one chunk.
   */
  lemma BudgetCheckExact(limit: nat)
    requires limit < U64
    ensures BudgetHolds(limit) <==>
            forall produced: nat, length: nat :: produced <= limit && length <= MAX_CHUNK ==>
              && (WriteRefusal(false, Stdout, length, produced, limit).None? <==> produced + length <= limit)
              && (WriteRefusal(false, Stderr, length, produced, limit).None? <==> produced + length <= limit)
  {
    if !BudgetHolds(limit) {
      assert (limit + MAX_CHUNK) % U64 == limit + MAX_CHUNK - U64;
      assert WriteRefusal(false, Stdout, MAX_CHUNK, limit, limit).None?;
    }
  }

  /** The limits a spool accepts; the product is a 64-bit one. */
  predicate SpoolLimits(producedLimit: nat, retainedLimit: nat) {
    producedLimit != 0 && retainedLimit != 0 && retainedLimit <= producedLimit * 16 % U64
  }

  /** Where sixteen times the produced limit fits 64 bits the limits fit exactly as they read. */
  lemma SpoolLimitsExact(producedLimit: nat, retainedLimit: nat)
    requires producedLimit < 0x1000_0000_0000_0000
    ensures SpoolLimits(producedLimit, retainedLimit) <==> 0 < producedLimit && 0 < retainedLimit <= 16 * producedLimit
  {
  }

  /** Above that the product wraps: two to the sixty produced bytes leave no room for any retained byte. */
  lemma SpoolLimitsWrap(retainedLimit: nat)
    ensures !SpoolLimits(0x1000_0000_0000_0000, retainedLimit)
  {
  }

  /** A valid result has an exit code, a known signal or neither, as its reason says. */
  lemma ResultForms(result: ProcessResult)
    ensures ValidResult(result) <==>
            match result.reason
            case Exited => result.exitCode.Some? && result.signal.None?
            case Signaled => result.exitCode.None? && result.signal.Some? && !result.signal.value.OtherSignal?
            case OtherReason(_) => false
            case _ => result.exitCode.None? && result.signal.None?
  {
  }
}
