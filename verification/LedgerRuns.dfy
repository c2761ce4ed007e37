/** What holds of every ledger reached by any run of submits, process steps and scripted steps of any clients. */
module LedgerRuns {
  import opened SandboxTypes
  import opened Sums
  import opened Admission
  import opened Ledger
  import F = CanonicalFields

  /** Bounds that no client's own quotas exceed. */
  datatype Caps = Caps(operations: nat, processes: nat, globalOperations: nat, globalProcesses: nat)

  predicate CapsFit(caps: Caps) {
    caps.operations < U32 && caps.processes < U32 && caps.globalOperations < U32 && caps.globalProcesses < U32
  }

  predicate GoodPolicy(policy: Policy, caps: Caps) {
    && ValidPolicy(policy) && SpoolLimits(policy.defaults.producedOutputBytes, policy.defaults.retainedOutputBytes)
    && policy.maximumOperations <= caps.operations < U32 && policy.maximumProcesses <= caps.processes < U32
    && policy.maximumGlobalOperations <= caps.globalOperations < U32
        && policy.maximumGlobalProcesses <= caps.globalProcesses < U32
  }

  ghost predicate GoodActs(acts: seq<Act>, caps: Caps) {
    forall i :: 0 <= i < |acts| ==> GoodPolicy(acts[i].client.policy, caps)
  }

  // ----- The invariant -----

  /** A stored request is its own normal form under the limits it was accepted with. */
  predicate EntryOk(o: Oracle, op: Operation) {
    op.digest == o.digest(op.request) && Normalize(o, op.request, op.spec.limits, op.spec.limits) == Ok(op.request)
  }

  predicate EntriesOk(o: Oracle, mine: Principal) {
    forall id :: id in mine.operations ==> EntryOk(o, mine.operations[id])
  }

  predicate Sized(mine: Principal, caps: Caps) {
    |mine.operations| <= caps.operations && |mine.processes| <= caps.processes
  }

  predicate PrincipalsOk(o: Oracle, book: Book, caps: Caps) {
    forall p :: p in book ==> PrincipalOk(book[p]) && EntriesOk(o, book[p]) && Sized(book[p], caps)
  }

  predicate Unique(book: Book) {
    forall p, id :: p in book && id in book[p].operations ==> !HeldElsewhere(book, p, id)
  }

  ghost predicate Bounded(book: Book, caps: Caps) {
    Total(OperationCounts(book)) <= caps.globalOperations && Total(ProcessCounts(book)) <= caps.globalProcesses
  }

  ghost predicate Inv(o: Oracle, book: Book, caps: Caps) {
    PrincipalsOk(o, book, caps) && Unique(book) && Bounded(book, caps)
  }

  predicate BookEvolves(a: Book, b: Book) {
    forall p :: p in a ==> p in b && Evolves(a[p], b[p])
  }

  lemma BookEvolvesTransitive(a: Book, b: Book, c: Book)
    requires BookEvolves(a, b) && BookEvolves(b, c)
    ensures BookEvolves(a, c)
  {
    hide Evolves;
    forall p | p in a ensures p in c && Evolves(a[p], c[p]) {
      EvolvesTransitive(a[p], b[p], c[p]);
    }
  }

  lemma BookEvolvesItself(book: Book)
    ensures BookEvolves(book, book)
  {
    hide Evolves;
    forall p | p in book ensures Evolves(book[p], book[p]) {
      EvolvesItself(book[p]);
    }
  }

  // ----- Replacing one principal's ledger -----

  /** The operations gained are held by no other principal. */
  predicate Gains(book: Book, p: string, mine: Principal) {
    forall id :: id in mine.operations && id !in Of(book, p).operations ==> !HeldElsewhere(book, p, id)
  }

  lemma PutUnique(book: Book, p: string, mine: Principal)
    requires Unique(book) && Gains(book, p, mine)
    ensures Unique(book[p := mine])
  {
    var after := book[p := mine];
    forall q, id | q in after && id in after[q].operations ensures !HeldElsewhere(after, q, id) {
      forall r | r in after && r != q ensures id !in after[r].operations {
        if q == p {
          assert r in book && after[r] == book[r];
          if id in Of(book, p).operations {
            assert !HeldElsewhere(book, p, id);
          }
        } else if r == p {
          assert !HeldElsewhere(book, q, id);
        } else {
          assert !HeldElsewhere(book, q, id);
        }
      }
    }
  }

  lemma PutOperations(book: Book, p: string, mine: Principal)
    ensures Total(OperationCounts(book[p := mine]))
            == Total(OperationCounts(book)) - |Of(book, p).operations| + |mine.operations|
  {
    assert OperationCounts(book[p := mine]) == OperationCounts(book)[p := |mine.operations|];
    TotalSet(OperationCounts(book), p, |mine.operations|);
  }

  lemma PutProcesses(book: Book, p: string, mine: Principal)
    ensures Total(ProcessCounts(book[p := mine]))
            == Total(ProcessCounts(book)) - |Of(book, p).processes| + |mine.processes|
  {
    assert ProcessCounts(book[p := mine]) == ProcessCounts(book)[p := |mine.processes|];
    TotalSet(ProcessCounts(book), p, |mine.processes|);
  }

  lemma PutPrincipals(o: Oracle, book: Book, caps: Caps, p: string, mine: Principal)
    requires PrincipalsOk(o, book, caps) && Evolves(Of(book, p), mine)
    requires PrincipalOk(mine) && EntriesOk(o, mine) && Sized(mine, caps)
    ensures PrincipalsOk(o, book[p := mine], caps) && BookEvolves(book, book[p := mine])
  {
    hide PrincipalOk;
    hide EntriesOk;
    hide Sized;
    hide Evolves;
    BookEvolvesItself(book);
  }

  lemma PutKeeps(o: Oracle, book: Book, caps: Caps, p: string, mine: Principal)
    requires Inv(o, book, caps)
    requires PrincipalOk(mine) && EntriesOk(o, mine) && Sized(mine, caps) && Gains(book, p, mine)
             && Evolves(Of(book, p), mine)
    requires Total(OperationCounts(book)) - |Of(book, p).operations| + |mine.operations| <= caps.globalOperations
    requires Total(ProcessCounts(book)) - |Of(book, p).processes| + |mine.processes| <= caps.globalProcesses
    ensures Inv(o, book[p := mine], caps) && BookEvolves(book, book[p := mine])
  {
    hide PrincipalsOk;
    hide Unique;
    hide Gains;
    hide PrincipalOk;
    hide EntriesOk;
    hide Sized;
    hide Evolves;
    hide BookEvolves;
    PutPrincipals(o, book, caps, p, mine);
    PutUnique(book, p, mine);
    PutOperations(book, p, mine);
    PutProcesses(book, p, mine);
  }

  lemma SameSizes(a: Principal, b: Principal)
    requires SameKeys(a, b)
    ensures |a.operations| == |b.operations| && |a.processes| == |b.processes|
  {
    assert |a.operations| == |a.operations.Keys| && |b.operations| == |b.operations.Keys|;
    assert |a.processes| == |a.processes.Keys| && |b.processes| == |b.processes.Keys|;
  }

  /** Entry facts depend only on what no step changes. */
  lemma EntriesStay(o: Oracle, a: Principal, b: Principal)
    requires EntriesOk(o, a) && Evolves(a, b) && SameKeys(a, b)
    ensures EntriesOk(o, b)
  {
    hide Normalize;
    forall id | id in b.operations ensures EntryOk(o, b.operations[id]) {
      assert id in a.operations && Evolved(a.operations[id], b.operations[id]);
    }
  }

  lemma LocalStepKeeps(o: Oracle, book: Book, caps: Caps, client: Client, step: Step)
    requires Inv(o, book, caps) && client.principal in book
    ensures var after := book[client.principal := Local(book[client.principal], client, step)];
            Inv(o, after, caps) && BookEvolves(book, after)
  {
    var p := client.principal;
    var after := Local(book[p], client, step);
    hide Local;
    hide PrincipalOk;
    hide Evolves;
    hide EntriesOk;
    LocalKeeps(book[p], client, step);
    SameSizes(book[p], after);
    EntriesStay(o, book[p], after);
    PutKeeps(o, book, caps, p, after);
  }

  // ----- Submitting -----

  predicate Admitted(o: Oracle, client: Client, request: Request, op: Operation) {
    var normal := Normalize(o, request, client.policy.defaults, client.policy.maximum);
    && normal.Ok? && NewSpec(o, normal.value, client.policy).Ok?
    && op == NewOperation(o, normal.value, NewSpec(o, normal.value, client.policy).value, client.now)
  }

  /** A submit either leaves every ledger as it was or admits one new operation. */
  lemma SubmitEffect(o: Oracle, book: Book, client: Client, request: Request)
    ensures var answer := Submit(o, book, client, request);
            var p, mine := client.principal, Of(book, client.principal);
            || answer.book == book
            || answer.book == book[p := mine]
            || (exists op :: && Admitted(o, client, request, op) && |op.request.id| >= 3
                  && answer.book == book[p := mine][p := Accept(mine, op)]
                             && answer.result == Ok(RefOf(op))
                             && request.id !in mine.operations && !HeldElsewhere(book, p, request.id)
                             && !QuotaFull(book[p := mine], client, request.kind))
  {
    hide Normalize;
    hide NewSpec;
    hide Retry;
    hide QuotaFull;
    hide Accept;
    hide HeldElsewhere;
    NormalForm(o, request, client.policy.defaults, client.policy.maximum);
    if Submit(o, book, client, request).book != book[client.principal := Of(book, client.principal)] && !client.closed {
      var normal := Normalize(o, request, client.policy.defaults, client.policy.maximum);
      assert Admitted(o, client, request,
            NewOperation(o, normal.value, NewSpec(o, normal.value, client.policy).value, client.now));
    }
  }

  /** An admitted operation is a good entry, and an admitted exec has a spool. */
  lemma AdmittedOk(o: Oracle, client: Client, request: Request, op: Operation)
    requires Admitted(o, client, request, op) && ValidPolicy(client.policy)
    ensures EntryOk(o, op) && Normalize(o, request, op.spec.limits, op.spec.limits) == Ok(op.request)
    ensures op.request.id == request.id && op.request.kind == request.kind && ValidOperationId(op.request.id)
            && OperationOk(op)
    ensures op.request.kind.ExecProcess? ==> op.spec.limits == client.policy.defaults
  {
    NormalForm(o, request, client.policy.defaults, client.policy.maximum);
    RetryNormalizes(o, request, client.policy);
    hide Normalize;
    hide ValidPolicy;
    hide AdmitImage;
  }

  lemma AcceptedProcess(mine: Principal, op: Operation, pid: string)
    requires PrincipalOk(mine) && ValidOperationId(op.request.id) && op.request.id !in mine.operations
    requires op.request.kind.ExecProcess? ==> NewProcess(op).output.Some?
    requires pid in Accept(mine, op).processes
    ensures ProcessOk(Accept(mine, op), pid)
  {
    var id := op.request.id;
    if !(op.request.kind.ExecProcess? && pid == ProcessIdFor(id)) {
      EachProcessOk(mine, pid);
      assert mine.processes[pid].operation != id;
    }
    hide PrincipalOk;
    hide ProcessIdFor;
    hide ValidOperationId;
    hide SpoolLimits;
  }

  lemma AcceptOk(mine: Principal, op: Operation)
    requires PrincipalOk(mine) && ValidOperationId(op.request.id) && op.request.id !in mine.operations
             && OperationOk(op)
    requires op.request.kind.ExecProcess? ==> NewProcess(op).output.Some?
    ensures PrincipalOk(Accept(mine, op))
  {
    var after := Accept(mine, op);
    forall pid | pid in after.processes ensures ProcessOk(after, pid) {
      AcceptedProcess(mine, op, pid);
    }
    hide ProcessOk;
    hide ValidOperationId;
    hide OperationOk;
    hide NewProcess;
  }

  /** A new process record never replaces another. */
  lemma FreshProcess(mine: Principal, id: string)
    requires PrincipalOk(mine) && ValidOperationId(id) && id !in mine.operations
    ensures ProcessIdFor(id) !in mine.processes
  {
    var pid := ProcessIdFor(id);
    if pid in mine.processes {
      EachProcessOk(mine, pid);
      ProcessIdInjective(mine.processes[pid].operation, id);
    }
  }

  lemma AcceptEvolves(mine: Principal, op: Operation)
    requires PrincipalOk(mine) && ValidOperationId(op.request.id) && op.request.id !in mine.operations
    ensures Evolves(mine, Accept(mine, op))
  {
    FreshProcess(mine, op.request.id);
    hide PrincipalOk;
    hide ProcessIdFor;
    hide NewProcess;
    hide Evolved;
    hide ProcessEvolved;
    EvolvesItself(mine);
    hide ValidOperationId;
  }

  lemma AcceptGrows(mine: Principal, op: Operation)
    requires PrincipalOk(mine) && ValidOperationId(op.request.id) && op.request.id !in mine.operations
    ensures |Accept(mine, op).operations| == |mine.operations| + 1
    ensures |Accept(mine, op).processes| == |mine.processes| + if op.request.kind.ExecProcess? then 1 else 0
  {
    hide PrincipalOk;
    hide NewProcess;
    FreshProcess(mine, op.request.id);
    hide ValidOperationId;
    hide ProcessIdFor;
  }

  lemma AcceptEntries(o: Oracle, mine: Principal, op: Operation)
    requires EntriesOk(o, mine) && EntryOk(o, op) && |op.request.id| >= 3
    ensures EntriesOk(o, Accept(mine, op))
  {
    hide EntryOk;
    hide NewProcess;
    hide ProcessIdFor;
  }

  /** The quotas as a caller would read them: the true counts, without wrapping, against the client's own maxima. */
  ghost predicate AtQuota(book: Book, client: Client, kind: Kind) {
    var mine, policy := Of(book, client.principal), client.policy;
    || |mine.operations| >= policy.maximumOperations
    || Total(OperationCounts(book)) >= policy.maximumGlobalOperations
    || (kind.ExecProcess? && |mine.processes| >= policy.maximumProcesses)
    || (kind.ExecProcess? && Total(ProcessCounts(book)) >= policy.maximumGlobalProcesses)
  }

  /** The 32-bit counts decide as the true ones would: no admission slips past a quota, and none is refused below it. */
  lemma QuotaExact(o: Oracle, book: Book, caps: Caps, client: Client, kind: Kind)
    requires Inv(o, book, caps) && CapsFit(caps)
    ensures QuotaFull(book, client, kind) <==> AtQuota(book, client, kind)
  {
    hide PrincipalOk;
    hide EntriesOk;
    hide Unique;
    var mine := Of(book, client.principal);
    KnownPrincipal(o, book, caps, client.principal);
    hide PrincipalsOk;
    SmallCount(|mine.operations|);
    SmallCount(|mine.processes|);
    SmallCount(Total(OperationCounts(book)));
    SmallCount(Total(ProcessCounts(book)));
    hide OperationCounts;
    hide ProcessCounts;
    hide Total;
  }

  lemma SmallCount(n: nat)
    requires n < U32
    ensures n % U32 == n
  {
  }

  lemma AdmitKeeps(o: Oracle, book: Book, caps: Caps, client: Client, request: Request, op: Operation)
    requires Inv(o, book, caps) && GoodPolicy(client.policy, caps) && client.principal in book
    requires Admitted(o, client, request, op)
    requires request.id !in book[client.principal].operations && !HeldElsewhere(book, client.principal, request.id)
    requires !QuotaFull(book, client, request.kind)
    ensures ValidOperationId(op.request.id)
    ensures var after := book[client.principal := Accept(book[client.principal], op)];
            Inv(o, after, caps) && BookEvolves(book, after)
  {
    var p := client.principal;
    var mine := book[p];
    QuotaExact(o, book, caps, client, request.kind);
    AdmittedOk(o, client, request, op);
    assert NewProcess(op).output.Some? || !op.request.kind.ExecProcess?;
    assert PrincipalOk(mine) && EntriesOk(o, mine) && Sized(mine, caps);
    hide PrincipalOk;
    hide EntriesOk;
    hide Evolves;
    hide OperationOk;
    hide EntryOk;
    hide QuotaFull;
    hide Admitted;
    hide PrincipalsOk;
    hide Unique;
    hide ValidPolicy;
    AcceptOk(mine, op);
    AcceptEvolves(mine, op);
    AcceptGrows(mine, op);
    AcceptEntries(o, mine, op);
    PutKeeps(o, book, caps, p, Accept(mine, op));
  }

  /** Making an empty ledger for a new principal changes nothing else. */
  lemma KnownKeeps(o: Oracle, book: Book, caps: Caps, p: string)
    requires Inv(o, book, caps)
    ensures Inv(o, book[p := Of(book, p)], caps) && BookEvolves(book, book[p := Of(book, p)])
  {
    var mine := Of(book, p);
    KnownPrincipal(o, book, caps, p);
    EvolvesItself(mine);
    hide PrincipalOk;
    hide EntriesOk;
    hide Evolves;
    hide Sized;
    hide PrincipalsOk;
    hide BookEvolves;
    PutKeeps(o, book, caps, p, mine);
  }

  lemma KnownPrincipal(o: Oracle, book: Book, caps: Caps, p: string)
    requires PrincipalsOk(o, book, caps)
    ensures PrincipalOk(Of(book, p)) && EntriesOk(o, Of(book, p)) && Sized(Of(book, p), caps)
  {
    if p in book {
      hide PrincipalOk;
      hide EntriesOk;
      hide Sized;
      assert PrincipalOk(book[p]) && EntriesOk(o, book[p]) && Sized(book[p], caps);
    }
  }

  lemma KnownHolders(book: Book, p: string, id: string)
    requires !HeldElsewhere(book, p, id)
    ensures !HeldElsewhere(book[p := Of(book, p)], p, id)
  {
  }

  lemma SubmitKeeps(o: Oracle, book: Book, caps: Caps, client: Client, request: Request)
    requires Inv(o, book, caps) && GoodPolicy(client.policy, caps)
    ensures var after := Submit(o, book, client, request).book;
            Inv(o, after, caps) && BookEvolves(book, after)
  {
    hide Submit;
    hide Inv;
    hide BookEvolves;
    hide QuotaFull;
    hide GoodPolicy;
    hide Admitted;
    var p, mine := client.principal, Of(book, client.principal);
    var after := Submit(o, book, client, request).book;
    SubmitEffect(o, book, client, request);
    KnownKeeps(o, book, caps, p);
    BookEvolvesItself(book);
    if after != book && after != book[p := mine] {
      var op :| && Admitted(o, client, request, op) && |op.request.id| >= 3
          && after == book[p := mine][p := Accept(mine, op)]
                && request.id !in mine.operations && !HeldElsewhere(book, p, request.id)
                && !QuotaFull(book[p := mine], client, request.kind);
      KnownHolders(book, p, request.id);
      AdmitKeeps(o, book[p := mine], caps, client, request, op);
      BookEvolvesTransitive(book, book[p := mine], after);
    }
  }

  // ----- Every run -----

  lemma NextKeeps(o: Oracle, book: Book, caps: Caps, client: Client, step: Step)
    requires Inv(o, book, caps) && GoodPolicy(client.policy, caps)
    ensures Inv(o, Next(o, book, client, step), caps) && BookEvolves(book, Next(o, book, client, step))
  {
    hide Inv;
    hide BookEvolves;
    hide Submit;
    hide Local;
    hide GoodPolicy;
    BookEvolvesItself(book);
    if step.Submitting? {
      SubmitKeeps(o, book, caps, client, step.request);
    } else if client.principal in book {
      LocalStepKeeps(o, book, caps, client, step);
    }
  }

  lemma {:induction false} RunKeeps(o: Oracle, book: Book, caps: Caps, acts: seq<Act>)
    requires Inv(o, book, caps) && GoodActs(acts, caps)
    ensures Inv(o, Run(o, book, acts), caps) && BookEvolves(book, Run(o, book, acts))
    decreases |acts|
  {
    hide Inv;
    hide BookEvolves;
    hide Next;
    hide GoodPolicy;
    BookEvolvesItself(book);
    if acts != [] {
      var next := Next(o, book, acts[0].client, acts[0].step);
      NextKeeps(o, book, caps, acts[0].client, acts[0].step);
      RunKeeps(o, next, caps, acts[1..]);
      BookEvolvesTransitive(book, next, Run(o, book, acts));
    }
  }

  lemma EmptyInv(o: Oracle, caps: Caps)
    ensures Inv(o, map[], caps)
  {
    assert OperationCounts(map[]) == map[] && ProcessCounts(map[]) == map[];
  }

  /** Exec operations and process records match one to one. */
  predicate Paired(mine: Principal) {
    && (forall id :: id in mine.operations && mine.operations[id].request.kind.ExecProcess? ==>
          |id| >= 3 && ProcessIdFor(id) in mine.processes
          && forall pid :: pid in mine.processes ==> (mine.processes[pid].operation == id <==> pid == ProcessIdFor(id)))
    && (forall pid :: pid in mine.processes ==>
          mine.processes[pid].operation in mine.operations
              && mine.operations[mine.processes[pid].operation].request.kind.ExecProcess?)
  }

  lemma OkIsPaired(mine: Principal)
    requires PrincipalOk(mine)
    ensures Paired(mine)
  {
    forall id, pid | id in mine.operations && mine.operations[id].request.kind.ExecProcess? && pid in mine.processes
      ensures mine.processes[pid].operation == id <==> pid == ProcessIdFor(id)
    {
      EachProcessOk(mine, pid);
      if pid == ProcessIdFor(id) {
        ProcessIdInjective(mine.processes[pid].operation, id);
      }
    }
    forall pid | pid in mine.processes
      ensures mine.processes[pid].operation in mine.operations
      ensures mine.operations[mine.processes[pid].operation].request.kind.ExecProcess?
    {
      EachProcessOk(mine, pid);
    }
    hide ProcessOk;
  }

  /**
   * Every reachable ledger: an operation identifier belongs to at most one principal, exec operations
   * pair with process records, counts stay within the quotas and the 32-bit sums are the true sums.
   */
  lemma ReachableLedger(o: Oracle, caps: Caps, acts: seq<Act>)
    requires GoodActs(acts, caps) && CapsFit(caps)
    ensures var book := Run(o, map[], acts);
            && Unique(book) && Bounded(book, caps)
            && (forall p :: p in book ==> Paired(book[p]) && Sized(book[p], caps))
            && Total(OperationCounts(book)) % U32 == Total(OperationCounts(book))
            && Total(ProcessCounts(book)) % U32 == Total(ProcessCounts(book))
  {
    hide Run;
    hide PrincipalOk;
    hide EntriesOk;
    hide Sized;
    hide Paired;
    hide Unique;
    EmptyInv(o, caps);
    RunKeeps(o, map[], caps, acts);
    var book := Run(o, map[], acts);
    forall p | p in book ensures Paired(book[p]) {
      OkIsPaired(book[p]);
    }
    SmallCount(Total(OperationCounts(book)));
    SmallCount(Total(ProcessCounts(book)));
  }

  lemma Lasts(o: Oracle, caps: Caps, before: seq<Act>, after: seq<Act>, p: string)
    requires GoodActs(before, caps) && GoodActs(after, caps) && p in Run(o, map[], before)
    ensures var early := Run(o, map[], before); var late := Run(o, early, after);
            p in late && PrincipalOk(early[p]) && PrincipalOk(late[p]) && Evolves(early[p], late[p])
  {
    hide Run;
    hide PrincipalOk;
    hide Evolves;
    EmptyInv(o, caps);
    RunKeeps(o, map[], caps, before);
    RunKeeps(o, Run(o, map[], before), caps, after);
  }

  /**
   * No run changes what an operation is, nor its outcome once terminal; its channel is closed once,
   * exactly when terminal.
   */
  lemma OperationOutcomeStands(o: Oracle, caps: Caps, before: seq<Act>, after: seq<Act>, p: string, id: string)
    requires GoodActs(before, caps) && GoodActs(after, caps)
    requires p in Run(o, map[], before) && id in Run(o, map[], before)[p].operations
    ensures var early := Run(o, map[], before); var late := Run(o, early, after);
            && p in late && id in late[p].operations
            && var x, y := early[p].operations[id], late[p].operations[id];
               && y.request == x.request && y.spec == x.spec && y.acceptedAt == x.acceptedAt
               && (Terminal(x.progress.state) ==>
                     && y.progress.state == x.progress.state && y.progress.result == x.progress.result
                     && y.progress.failure == x.progress.failure)
               && y.closes == (if Terminal(y.progress.state) then 1 else 0)
  {
    Lasts(o, caps, before, after, p);
    hide Run;
    hide ProcessOk;
    hide ValidOperationId;
  }

  /** A terminal process record is final, and implies a terminal operation, a result and a finalized spool. */
  lemma ProcessOutcomeStands(o: Oracle, caps: Caps, before: seq<Act>, after: seq<Act>, p: string, pid: string)
    requires GoodActs(before, caps) && GoodActs(after, caps)
    requires p in Run(o, map[], before) && pid in Run(o, map[], before)[p].processes
    ensures var early := Run(o, map[], before); var late := Run(o, early, after);
            && p in late && pid in late[p].processes
            && var x, y := early[p].processes[pid], late[p].processes[pid];
               && y.operation == x.operation && y.output.Some?
               && (x.state.ProcessTerminal? ==> y == x)
               && (y.result.Some? <==> y.state.ProcessTerminal?)
                   && (y.output.value.closed <==> y.state.ProcessTerminal?)
               && y.operation in late[p].operations
               && (y.state.ProcessTerminal? ==> Terminal(late[p].operations[y.operation].progress.state))
  {
    Lasts(o, caps, before, after, p);
    EachProcessOk(Run(o, Run(o, map[], before), after)[p], pid);
    hide Run;
    hide PrincipalOk;
    hide ValidOperationId;
    hide ProcessIdFor;
  }

  // ----- Waiting -----

  function GetOperation(book: Book, client: Client, id: string): Result<Operation> {
    if client.closed then Err(Unavailable)
    else if client.principal !in book || id !in book[client.principal].operations then Err(NotFoundOrDenied)
    else Ok(book[client.principal].operations[id])
  }

  /**
   * A wait that starts in `book`.  The acts taken while it blocks are `during`; if the done channel
   * was closed by then, the operation is read again after the further acts `between`, through the
   * client as it is by then.  Otherwise the wait ends with its context.
   */
  ghost function WaitOperation(o: Oracle, book: Book, client: Client, id: string, during: seq<Act>, between: seq<Act>,
                               later: Client, ended: FailureCode): Result<Operation>
  {
    match GetOperation(book, client, id)
    case Err(code) => Err(code)
    case Ok(op) =>
      if Terminal(op.progress.state) then Ok(op)
      else
        var woken := GetOperation(Run(o, book, during), client, id);
        if woken.Ok? && woken.value.closes > 0
        then GetOperation(Run(o, Run(o, book, during), between), later, id)
        else Err(ended)
  }

  /** Whatever happens while it waits, a wait that succeeds returns a terminal operation. */
  lemma WaitReturnsTerminal(o: Oracle, caps: Caps, before: seq<Act>, client: Client, id: string, during: seq<Act>,
                            between: seq<Act>,
                            later: Client, ended: FailureCode)
    requires GoodActs(before, caps) && GoodActs(during, caps) && GoodActs(between, caps)
    requires later.principal == client.principal
    ensures var got := WaitOperation(o, Run(o, map[], before), client, id, during, between, later, ended);
            got.Ok? ==> Terminal(got.value.progress.state) && got.value.request.id == id
  {
    var start := Run(o, map[], before);
    hide Run;
    var p := client.principal;
    if p in start && id in start[p].operations {
      DoneStays(o, caps, before, p, id, during, between);
    }
  }

  lemma DoneStays(o: Oracle, caps: Caps, before: seq<Act>, p: string, id: string, during: seq<Act>, between: seq<Act>)
    requires GoodActs(before, caps) && GoodActs(during, caps) && GoodActs(between, caps)
    requires p in Run(o, map[], before) && id in Run(o, map[], before)[p].operations
    ensures var start := Run(o, map[], before); var woken := Run(o, start, during); var last := Run(o, woken, between);
            && p in woken && id in woken[p].operations && p in last && id in last[p].operations
            && start[p].operations[id].request.id == id && last[p].operations[id].request.id == id
            && (woken[p].operations[id].closes > 0 ==> Terminal(last[p].operations[id].progress.state))
  {
    hide Run;
    hide PrincipalOk;
    hide Evolves;
    var start := Run(o, map[], before);
    var woken := Run(o, start, during);
    EmptyInv(o, caps);
    RunKeeps(o, map[], caps, before);
    RunKeeps(o, start, caps, during);
    RunKeeps(o, woken, caps, between);
    ClosedMeansTerminal(start[p], woken[p], Run(o, woken, between)[p], id);
  }

  lemma ClosedMeansTerminal(a: Principal, b: Principal, c: Principal, id: string)
    requires PrincipalOk(a) && PrincipalOk(b) && PrincipalOk(c) && Evolves(a, b) && Evolves(b, c) && id in a.operations
    ensures id in b.operations && id in c.operations
    ensures b.operations[id].closes > 0 ==> Terminal(c.operations[id].progress.state)
    ensures a.operations[id].request.id == id && c.operations[id].request.id == id
  {
    hide ProcessOk;
    hide ValidOperationId;
  }

  // ----- Retrying -----

  /** The only answers a request already accepted can get. */
  function RetryAnswer(op: Operation, policy: Policy): Result<Ref> {
    if Compatible(op.spec, policy) then Ok(RefOf(op)) else Err(IncompatiblePersistedPolicy)
  }

  lemma SubmitKnown(o: Oracle, book: Book, client: Client, request: Request)
    requires !client.closed && client.principal in book && request.id in book[client.principal].operations
    ensures Submit(o, book, client, request) ==
            Answer(Retry(o, book[client.principal].operations[request.id], client.policy, request), book)
  {
    assert book[client.principal := book[client.principal]] == book;
    hide Retry;
    hide Normalize;
    hide NewSpec;
    hide QuotaFull;
    hide HeldElsewhere;
  }

  /** The entry behind an accepted submit, and that the request's digest is the entry's. */
  lemma SubmittedEntry(o: Oracle, book: Book, client: Client, request: Request)
    requires ValidPolicy(client.policy) && Submit(o, book, client, request).result.Ok?
    ensures var answer := Submit(o, book, client, request);
            && client.principal in answer.book && request.id in answer.book[client.principal].operations
            && var op := answer.book[client.principal].operations[request.id];
               && answer.result == Ok(RefOf(op))
               && var normal := Normalize(o, request, op.spec.limits, op.spec.limits);
                  normal.Ok? && o.digest(normal.value) == op.digest
  {
    hide QuotaFull;
    hide HeldElsewhere;
    hide ValidPolicy;
    hide Compatible;
    var mine := Of(book, client.principal);
    if request.id !in mine.operations {
      NormalForm(o, request, client.policy.defaults, client.policy.maximum);
      hide Normalize;
      hide NewSpec;
      hide ProcessIdFor;
      hide NewProcess;
      var frozen := Normalize(o, request, client.policy.defaults, client.policy.maximum).value;
      var op := NewOperation(o, frozen, NewSpec(o, frozen, client.policy).value, client.now);
      AdmittedOk(o, client, request, op);
    } else {
      hide Normalize;
      hide NewSpec;
    }
  }

  /** A submit changes no entry the ledger already has. */
  lemma SubmitLeavesEntries(o: Oracle, book: Book, client: Client, request: Request, id: string)
    requires ValidPolicy(client.policy) && id in Of(book, client.principal).operations
    ensures var mine := Of(Submit(o, book, client, request).book, client.principal);
            id in mine.operations && mine.operations[id] == Of(book, client.principal).operations[id]
  {
    hide Submit;
    hide QuotaFull;
    hide HeldElsewhere;
    hide Admitted;
    hide ValidPolicy;
    hide ProcessIdFor;
    var p, mine := client.principal, Of(book, client.principal);
    var answer := Submit(o, book, client, request);
    SubmitEffect(o, book, client, request);
    if answer.book != book && answer.book != book[p := mine] {
      var op :| && Admitted(o, client, request, op) && |op.request.id| >= 3
          && answer.book == book[p := mine][p := Accept(mine, op)]
                && request.id !in mine.operations;
      AdmittedOk(o, client, request, op);
    }
  }

  /**
   * Once a submit has succeeded, the same request submitted after any run, through any open client of
   * the same principal and under any policy, gets the original reference if the persisted spec is
   * still compatible and incompatible-persisted-policy if not, and changes nothing.
   */
  lemma RetryIsIdempotent(o: Oracle, caps: Caps, before: seq<Act>, client: Client, request: Request, after: seq<Act>,
                          again: Client)
    requires GoodActs(before, caps) && GoodPolicy(client.policy, caps) && GoodActs(after, caps)
    requires Submit(o, Run(o, map[], before), client, request).result.Ok?
    requires !again.closed && again.principal == client.principal
    ensures var first := Submit(o, Run(o, map[], before), client, request);
            var book := Run(o, first.book, after);
            && client.principal in first.book && request.id in first.book[client.principal].operations
            && var op := first.book[client.principal].operations[request.id];
               && first.result == Ok(RefOf(op))
               && Submit(o, book, again, request) == Answer(RetryAnswer(op, again.policy), book)
  {
    var start := Run(o, map[], before);
    var first := Submit(o, start, client, request);
    SubmittedEntry(o, start, client, request);
    hide Submit;
    hide Run;
    hide PrincipalOk;
    hide EntriesOk;
    hide Normalize;
    hide Compatible;
    EmptyInv(o, caps);
    RunKeeps(o, map[], caps, before);
    SubmitKeeps(o, start, caps, client, request);
    RunKeeps(o, first.book, caps, after);
    var book := Run(o, first.book, after);
    hide Evolves;
    assert Evolves(first.book[client.principal], book[client.principal]);
    hide Inv;
    hide BookEvolves;
    RetryLasts(o, first.book[client.principal], book[client.principal], again.policy, request);
    SubmitKnown(o, book, again, request);
  }

  /** A later entry answers a retry as the earlier one would. */
  lemma RetryLasts(o: Oracle, a: Principal, b: Principal, policy: Policy, request: Request)
    requires Evolves(a, b) && request.id in a.operations
    ensures request.id in b.operations
    ensures Retry(o, b.operations[request.id], policy, request) == Retry(o, a.operations[request.id], policy, request)
  {
    hide Normalize;
    hide Compatible;
    assert Evolved(a.operations[request.id], b.operations[request.id]);
  }

  /**
   * Which requests count as the same: with a digest that tells requests apart, a retry succeeds or is
   * incompatible exactly when it normalizes to the stored request, and conflicts exactly when it
   * normalizes to another one.
   */
  lemma RetryTellsApart(o: Oracle, caps: Caps, acts: seq<Act>, again: Client, request: Request)
    requires GoodActs(acts, caps) && !again.closed
    requires again.principal in Run(o, map[], acts) && request.id in Run(o, map[], acts)[again.principal].operations
    requires forall a, b :: o.digest(a) == o.digest(b) ==> a == b
    ensures var book := Run(o, map[], acts);
            var op := book[again.principal].operations[request.id];
            var normal := Normalize(o, request, op.spec.limits, op.spec.limits);
            var result := Submit(o, book, again, request).result;
            && (normal == Ok(op.request) ==> result == RetryAnswer(op, again.policy))
            && (normal.Ok? && normal.value != op.request ==> result == Err(OperationConflict))
            && (normal.Err? ==> result == Err(normal.code))
            && (request == op.request ==> normal == Ok(op.request))
  {
    EmptyInv(o, caps);
    RunKeeps(o, map[], caps, acts);
    hide Submit;
    hide Run;
    hide PrincipalOk;
    hide Normalize;
    hide Compatible;
    var book := Run(o, map[], acts);
    assert EntriesOk(o, book[again.principal]);
    SubmitKnown(o, book, again, request);
  }

  // ----- Every answer of a submit -----

  /** The new entry, and for an exec its process record, and nothing else. */
  predicate Entered(book: Book, after: Book, client: Client, frozen: Request, spec: Spec, digest: string) {
    var p := client.principal;
    && p in after && frozen.id in after[p].operations
    && (forall q :: q in book && q != p ==> q in after && after[q] == book[q])
    && (forall q :: q in after ==> q in book || q == p)
    && var was, mine := Of(book, p), after[p];
       var op := mine.operations[frozen.id];
       && mine.operations == was.operations[frozen.id := op]
       && op.request == frozen && op.spec == spec && op.digest == digest && op.acceptedAt == client.now
       && op.progress == Progress(Accepted, None, None, 0) && !op.once && op.closes == 0
       && |frozen.id| >= 3
       && if !frozen.kind.ExecProcess? then mine.processes == was.processes
          else
            var pid := ProcessIdFor(frozen.id);
            && pid in mine.processes && mine.processes == was.processes[pid := mine.processes[pid]]
            && var record := mine.processes[pid];
               && record.operation == frozen.id && record.state.ProcessAccepted? && record.result.None?
               && (record.output.Some? ==> record.output.value == SpoolState(0, spec.limits.producedOutputBytes, false))
  }

  /**
   * A submit with an identifier new to the principal.  It is unavailable on a closed client, not found
   * where another principal holds the identifier, over quota exactly where a true count has reached one
   * of the client's maxima, refused as normalization or admission refuse it, and accepted otherwise,
   * with the client's time.
   */
  lemma SubmitNew(o: Oracle, book: Book, caps: Caps, client: Client, request: Request)
    requires Inv(o, book, caps) && CapsFit(caps) && request.id !in Of(book, client.principal).operations
    ensures var answer := Submit(o, book, client, request);
            var p := client.principal;
            var normal := Normalize(o, request, client.policy.defaults, client.policy.maximum);
            if client.closed then answer == Answer(Err(Unavailable), book)
            else if exists q :: q in book && q != p && request.id in book[q].operations
            then answer == Answer(Err(NotFoundOrDenied), book[p := Of(book, p)])
            else if AtQuota(book, client, request.kind)
            then answer == Answer(Err(ControlQuotaExceeded), book[p := Of(book, p)])
            else if normal.Err? then answer == Answer(Err(normal.code), book[p := Of(book, p)])
            else
              && |normal.value.bodies| == 1
              && match NewSpec(o, normal.value, client.policy)
                 case Err(code) => answer == Answer(Err(code), book[p := Of(book, p)])
                 case Ok(spec) =>
                   && answer.result == Ok(Ref(request.id, client.now))
                   && Entered(book, answer.book, client, normal.value, spec, o.digest(normal.value))
  {
    NormalForm(o, request, client.policy.defaults, client.policy.maximum);
    hide Normalize;
    hide NewSpec;
    hide Compatible;
    KnownQuota(o, book, caps, client, request.kind);
    hide QuotaFull;
    hide AtQuota;
    hide Inv;
    var normal := Normalize(o, request, client.policy.defaults, client.policy.maximum);
    if !client.closed && !HeldElsewhere(book, client.principal, request.id) && !AtQuota(book, client, request.kind)
       && normal.Ok? && NewSpec(o, normal.value, client.policy).Ok?
    {
      var spec := NewSpec(o, normal.value, client.policy).value;
      EntersOne(o, book, client, normal.value, spec);
    }
    hide Entered;
    hide Accept;
  }

  lemma EntersOne(o: Oracle, book: Book, client: Client, frozen: Request, spec: Spec)
    requires ValidOperationId(frozen.id)
    ensures var mine := Of(book, client.principal);
            var op := NewOperation(o, frozen, spec, client.now);
            Entered(book, book[client.principal := mine][client.principal := Accept(mine, op)], client, frozen, spec,
                    o.digest(frozen))
  {
  }

  /** The quota on the ledger that a first use has made the same as on the ledger without. */
  lemma KnownQuota(o: Oracle, book: Book, caps: Caps, client: Client, kind: Kind)
    requires Inv(o, book, caps) && CapsFit(caps)
    ensures QuotaFull(book[client.principal := Of(book, client.principal)], client, kind) <==>
            AtQuota(book, client, kind)
  {
    var p := client.principal;
    var known := book[p := Of(book, p)];
    KnownKeeps(o, book, caps, p);
    hide Inv;
    QuotaExact(o, known, caps, client, kind);
    PutOperations(book, p, Of(book, p));
    PutProcesses(book, p, Of(book, p));
    hide QuotaFull;
    hide OperationCounts;
    hide ProcessCounts;
    hide Total;
  }

  /** A step of a client leaves every other principal's ledger alone. */
  lemma OthersUntouched(o: Oracle, book: Book, client: Client, step: Step, q: string)
    requires q in book && q != client.principal
    ensures var after := Next(o, book, client, step); q in after && after[q] == book[q]
  {
    hide Normalize;
    hide NewSpec;
    hide Retry;
    hide QuotaFull;
    hide HeldElsewhere;
    hide Accept;
    hide Local;
    if step.Submitting? {
      NormalForm(o, step.request, client.policy.defaults, client.policy.maximum);
    }
  }

  // ----- The unchecked spool ratio -----

  /**
   * An exec accepted under a valid policy gets a spool exactly when the policy's default output limits
   * fit each other.
   */
  lemma SpoolExactlyWhenLimitsFit(o: Oracle, book: Book, client: Client, request: Request)
    requires ValidPolicy(client.policy) && request.kind.ExecProcess?
    requires request.id !in Of(book, client.principal).operations && Submit(o, book, client, request).result.Ok?
    ensures var processes := Submit(o, book, client, request).book[client.principal].processes;
            && |request.id| >= 3 && ProcessIdFor(request.id) in processes
            && (processes[ProcessIdFor(request.id)].output.Some? <==>
                  SpoolLimits(client.policy.defaults.producedOutputBytes, client.policy.defaults.retainedOutputBytes))
  {
    NormalForm(o, request, client.policy.defaults, client.policy.maximum);
    hide Normalize;
    hide QuotaFull;
    hide HeldElsewhere;
    hide SpoolLimits;
    hide ValidPolicy;
  }

  /** A policy whose default output limits are one byte produced and seventeen retained. */
  function UnfitPolicy(): Policy {
    var limits := F.Limits(1, 1, 1, 1, 1, 1, 1, 1, 1, 1, 1, 17, 1, 1, 1, 1);
    Policy(limits, limits, "", "", None, "", 1, 1, 1, 1)
  }

  function PlainExec(): Request {
    var body := Body(ExecProcess, ZERO, "", Unset, "");
    Request("op_a", ExecProcess, [body])
  }

  /**
   * The policy is valid, and an exec accepted under it on an empty ledger has no spool: validity does
   * not look at the ratio.
   */
  lemma UncheckedRatio(o: Oracle, now: int)
    requires o.bodyRefusal("op_a", ExecProcess, "").None?
    ensures var answer := Submit(o, map[], Client("p", now, false, UnfitPolicy()), PlainExec());
            && ValidPolicy(UnfitPolicy()) && answer.result == Ok(Ref("op_a", now)) && "p" in answer.book
            && ProcessIdFor("op_a") in answer.book["p"].processes
            && answer.book["p"].processes[ProcessIdFor("op_a")].output.None?
  {
    var client := Client("p", now, false, UnfitPolicy());
    UnfitIsValid();
    EmptyBookHasRoom(client, ExecProcess);
    PlainIsNormal(o, client.policy);
    hide Normalize;
    hide NewSpec;
    hide QuotaFull;
    hide ValidPolicy;
    hide UnfitPolicy;
    hide SpoolLimits;
    hide ProcessIdFor;
    hide NewProcess;
    SpoolExactlyWhenLimitsFit(o, map[], client, PlainExec());
  }

  lemma UnfitIsValid()
    ensures var policy := UnfitPolicy();
            && ValidPolicy(policy)
                && !SpoolLimits(policy.defaults.producedOutputBytes, policy.defaults.retainedOutputBytes)
            && policy.maximumOperations > 0 && policy.maximumProcesses > 0
            && policy.maximumGlobalOperations > 0 && policy.maximumGlobalProcesses > 0
  {
  }

  lemma PlainIsNormal(o: Oracle, policy: Policy)
    requires o.bodyRefusal("op_a", ExecProcess, "").None?
    ensures Normalize(o, PlainExec(), policy.defaults, policy.maximum) == Ok(PlainExec())
    ensures NewSpec(o, PlainExec(), policy).Ok?
  {
  }

  lemma EmptyBookHasRoom(client: Client, kind: Kind)
    requires client.policy.maximumOperations > 0 && client.policy.maximumProcesses > 0
    requires client.policy.maximumGlobalOperations > 0 && client.policy.maximumGlobalProcesses > 0
    ensures !QuotaFull(map[][client.principal := NOBODY], client, kind)
  {
    EmptyTotals(client.principal);
    hide OperationCounts;
    hide ProcessCounts;
    hide Total;
    SmallCount(0);
  }

  lemma EmptyTotals(p: string)
    ensures Total(OperationCounts(map[][p := NOBODY])) == 0 && Total(ProcessCounts(map[][p := NOBODY])) == 0
  {
    var none: map<string, nat> := map[];
    TotalSet(none, p, 0);
    assert OperationCounts(map[][p := NOBODY]) == none[p := 0] && ProcessCounts(map[][p := NOBODY]) == none[p := 0];
  }
}
