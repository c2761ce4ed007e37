/** The fake control client: a core client on a ledger of its own, a manually advanced clock and scripted timelines. */
module FakeControlClients {
  import opened SandboxTypes
  import opened Admission
  import opened Ledger
  import opened LedgerRuns
  import opened FakeControl
  import opened CoreLedgers
  import Paging

  class FakeClock {
    var now: int

    constructor (start: int)
      ensures now == start
    {
      now := start;
    }

    method Advance(delta: int) returns (error: Option<FailureCode>)
      modifies this
      ensures error == if delta < 0 then Some(InvalidArgument) else None
      ensures now == if delta < 0 then old(now) else old(now) + delta
    {
      if delta < 0 {
        return Some(InvalidArgument);
      }
      now := now + delta;
      error := None;
    }
  }

  /** Bounds that are the policy's own quotas. */
  function OwnCaps(policy: Policy): Caps {
    Caps(policy.maximumOperations, policy.maximumProcesses, policy.maximumGlobalOperations,
          policy.maximumGlobalProcesses)
  }

  lemma EntryNamed(o: Oracle, book: Book, caps: Caps, p: string, id: string)
    requires Inv(o, book, caps) && p in book && id in book[p].operations
    ensures book[p].operations[id].request.id == id
  {
    assert PrincipalOk(book[p]);
    hide ProcessOk;
    hide ValidOperationId;
  }

  class FakeControlClient {
    const core: CoreLedger
    const clock: FakeClock
    const oracle: Oracle
    const client: Client
    const scripts: map<string, seq<ScriptedStep>>
    var timelines: map<string, Timeline>
    var closed: bool

    /** The core client as it is now. */
    function Now(): Client
      reads this
    {
      client.(closed := closed)
    }

    ghost function Contents(): World
      reads this, core
    {
      World(Of(core.principals, client.principal), timelines)
    }

    ghost predicate Valid()
      reads this, core
    {
      && GoodPolicy(client.policy, OwnCaps(client.policy)) && Inv(oracle, core.principals, OwnCaps(client.policy))
      && (forall id :: id in timelines ==> id in Contents().mine.operations)
    }

    constructor (oracle: Oracle, clock: FakeClock, principal: string, policy: Policy,
                 scripts: map<string, seq<ScriptedStep>>)
      requires GoodPolicy(policy, OwnCaps(policy))
      ensures Valid() && fresh(core) && this.clock == clock && Contents() == World(NOBODY, map[]) && !closed
      ensures this.oracle == oracle && this.scripts == scripts && client == Client(principal, clock.now, false, policy)
    {
      core := new CoreLedger();
      this.clock := clock;
      this.oracle := oracle;
      client := Client(principal, clock.now, false, policy);
      this.scripts := scripts;
      timelines := map[];
      closed := false;
      new;
      EmptyInv(oracle, OwnCaps(policy));
    }

    lemma ContentsOk()
      requires Valid()
      ensures WorldOk(Contents())
    {
      KnownPrincipal(oracle, core.principals, OwnCaps(client.policy), client.principal);
    }

    /** Catches every scripted operation up to the clock. */
    method ApplyDueTransitions()
      requires Valid()
      modifies this`timelines, core
      ensures Valid() && WorldOk(old(Contents())) && Settled(old(Contents()), clock.now, Contents())
    {
      hide Inv;
      hide GoodPolicy;
      hide WorldOk;
      hide Settles;
      hide Paging.Ascending;
      ContentsOk();
      ghost var start := Contents();
      var now := clock.now;
      var ids := Paging.SortKeys(timelines.Keys);
      SettlesNone(start, now);
      ghost var done := {};
      for k := 0 to |ids|
        invariant Valid() && WorldOk(start) && timelines.Keys == start.timelines.Keys
        invariant (forall id :: id in done <==> id in ids[..k]) && Settles(start, now, done, Contents())
      {
        var id := ids[k];
        Paging.AscendingIsDistinct(ids, k);
        assert ids[..k + 1] == ids[..k] + [id];
        CatchUp(id, now, start, done);
        done := done + {id};
      }
      assert ids[..|ids|] == ids && done == start.timelines.Keys;
    }

    /** The inner loop: one operation's due steps, in script order. */
    method CatchUp(id: string, now: int, ghost start: World, ghost done: set<string>)
      requires Valid() && id in timelines && WorldOk(start) && id !in done
      requires Settles(start, now, done, Contents())
      modifies this`timelines, core
      ensures Valid() && timelines.Keys == old(timelines.Keys) && Settles(start, now, done + {id}, Contents())
    {
      ContentsOk();
      ghost var w := Contents();
      CatchingUpStart(w, id, now);
      while timelines[id].next < |timelines[id].script|
            && timelines[id].acceptedAt + timelines[id].script[timelines[id].next].at <= now
        invariant Valid() && id in timelines && timelines.Keys == w.timelines.Keys
        invariant CatchingUp(w, id, now, Contents())
        decreases |timelines[id].script| - timelines[id].next
      {
        CatchingUpStep(w, id, now, Contents());
        ApplyStep(id);
      }
      CatchingUpEnds(start, now, done, w, id, Contents());
    }

    /** One scripted step of one operation. */
    method ApplyStep(id: string)
      requires Valid() && id in timelines && timelines[id].next < |timelines[id].script|
      modifies this`timelines, core
      ensures Valid() && Contents() == StepWorld(old(Contents()), id)
    {
      hide Inv;
      hide GoodPolicy;
      hide PrincipalOk;
      hide ScriptStep;
      hide BookEvolves;
      hide Evolves;
      hide ValidOperationId;
      hide ProcessIdFor;
      var p := client.principal;
      var line := timelines[id];
      var step := line.script[line.next];
      ContentsOk();
      StepWorldOk(Contents(), id);
      ScriptIdle(Contents().mine, id, step.state, step.failure, step.reported, LastCursor(line, step));
      if p in core.principals && id in core.principals[p].operations
         && !Terminal(core.principals[p].operations[id].progress.state)
      {
        OkIsReady(core.principals[p], id);
        LocalStepKeeps(oracle, core.principals, OwnCaps(client.policy), client,
                       Scripting(id, step.state, step.failure, step.reported, LastCursor(line, step)));
        var progress := StepEntry(p, id, step, LastCursor(line, step));
        var cursor := |line.events| + 1;
        assert StepEvents(old(Contents()).mine, id, line, step)
            == [Update(cursor, progress.(cursor := cursor))]
               + if step.gap.Some? then [Missing(cursor + 1, step.gap.value)] else [];
        line := line.(events := line.events + [Update(cursor, progress.(cursor := cursor))]);
        if step.gap.Some? {
          line := line.(events := line.events + [Missing(cursor + 1, step.gap.value)]);
        }
      }
      timelines := timelines[id := line.(next := line.next + 1)];
      ghost var was := old(Contents());
      assert Contents().mine == StepLedger(was.mine, id, was.timelines[id], step);
      assert line.events == was.timelines[id].events + StepEvents(was.mine, id, was.timelines[id], step);
    }

    /** The entry's own changes, and its process's, in the source's order. */
    method StepEntry(p: string, id: string, step: ScriptedStep, cursor: nat) returns (progress: Progress)
      requires p in core.principals && Ready(core.principals[p], id)
      modifies core
      ensures core.principals == old(core.principals)[p :=
                ScriptStep(old(core.principals)[p], id, step.state, step.failure, step.reported, cursor)]
      ensures id in core.principals[p].operations && progress == core.principals[p].operations[id].progress
    {
      var pid := ProcessIdFor(id);
      var entry := core.principals[p].operations[id];
      entry := entry.(progress := entry.progress.(state := step.state, failure := step.failure));
      var mine := core.principals[p];
      core.principals := core.principals[p := mine.(operations := mine.operations[id := entry])];
      if step.reported.Some? && pid in core.principals[p].processes {
        core.CompleteProcessLocked(p, pid, step.reported.value);
        entry := core.principals[p].operations[id];
        entry := entry.(progress := entry.progress.(result := step.reported));
      }
      entry := entry.(progress := entry.progress.(cursor := cursor));
      if Terminal(entry.progress.state) {
        entry := Finish(entry);
      }
      progress := entry.progress;
      mine := core.principals[p];
      core.principals := core.principals[p := mine.(operations := mine.operations[id := entry])];
    }

    /** Moves the clock and catches up; a negative advance is refused and moves nothing. */
    method Advance(delta: int) returns (error: Option<FailureCode>)
      requires Valid() && HistoriesOk(Contents())
      modifies this`timelines, core, clock
      ensures Valid() && HistoriesOk(Contents())
      ensures delta < 0 ==>
              error == Some(InvalidArgument) && Contents() == old(Contents()) && clock.now == old(clock.now)
      ensures delta >= 0 ==>
                && error.None? && clock.now == old(clock.now) + delta
                && WorldOk(old(Contents())) && Settled(old(Contents()), clock.now, Contents())
    {
      hide Inv;
      hide GoodPolicy;
      hide WorldOk;
      hide HistoriesOk;
      hide Settled;
      ghost var was := Contents();
      error := clock.Advance(delta);
      if error.Some? {
        return;
      }
      ApplyDueTransitions();
      SettledHistories(was, clock.now, Contents());
    }

    /**
     * Accepts through the core client, gives a new operation its timeline, and catches up.  Each of the
     * three is a locked region of its own that keeps the client consistent from any consistent state.
     */
    method Submit(request: Request) returns (result: Result<Ref>)
      requires Valid() && HistoriesOk(Contents())
      modifies this, core
      ensures Valid() && HistoriesOk(Contents()) && closed == old(closed)
      ensures result == Ledger.Submit(oracle, old(core.principals), old(Now()), request).result
      ensures result.Err? ==>
                && timelines == old(timelines)
                && core.principals == Ledger.Submit(oracle, old(core.principals), old(Now()), request).book
      ensures result.Ok? ==>
                var book := Ledger.Submit(oracle, old(core.principals), old(Now()), request).book;
                var w := World(Of(book, client.principal), old(timelines));
                && result.value.id in w.mine.operations
                && var script := if result.value.id in scripts then scripts[result.value.id] else [];
                   var started := Enrolled(w, result.value.id, result.value.acceptedAt, script);
                   WorldOk(started) && Settled(started, clock.now, Contents())
    {
      hide Inv;
      hide GoodPolicy;
      hide Ledger.Submit;
      hide WorldOk;
      hide HistoriesOk;
      hide Settled;
      hide Enrolled;
      result := SubmitCore(request);
      if result.Err? {
        return;
      }
      Enrol(result.value.id, result.value.acceptedAt);
      ghost var started := Contents();
      ContentsOk();
      ApplyDueTransitions();
      SettledHistories(started, clock.now, Contents());
    }

    /** The first region: the core client's own submit. */
    method SubmitCore(request: Request) returns (result: Result<Ref>)
      requires Valid() && HistoriesOk(Contents())
      modifies core
      ensures Valid() && HistoriesOk(Contents())
      ensures Answer(result, core.principals) == Ledger.Submit(oracle, old(core.principals), Now(), request)
      ensures result.Ok? ==> result.value.id in Contents().mine.operations
    {
      hide Inv;
      hide GoodPolicy;
      hide Ledger.Submit;
      hide HistoriesOk;
      SubmitFacts(request);
      result := core.Submit(oracle, Now(), request);
    }

    /** Closing stops submits; scripted steps are still applied. */
    method Close()
      requires Valid()
      modifies this`closed
      ensures Valid() && closed && Contents() == old(Contents())
    {
      closed := true;
    }

    /** What the core submit leaves for the timeline: a good ledger that still has every operation it had. */
    lemma SubmitFacts(request: Request)
      requires Valid() && HistoriesOk(Contents())
      ensures var answer := Ledger.Submit(oracle, core.principals, Now(), request);
              var w := World(Of(answer.book, client.principal), timelines);
              && Inv(oracle, answer.book, OwnCaps(client.policy)) && HistoriesOk(w)
              && (forall id :: id in timelines ==> id in w.mine.operations)
              && (answer.result.Ok? ==> answer.result.value.id in w.mine.operations)
    {
      assert ValidPolicy(client.policy);
      hide GoodPolicy;
      hide ValidPolicy;
      hide Ledger.Submit;
      hide Inv;
      hide Normalize;
      var answer := Ledger.Submit(oracle, core.principals, Now(), request);
      SubmitKeeps(oracle, core.principals, OwnCaps(client.policy), Now(), request);
      forall id | id in timelines
        ensures id in Of(answer.book, client.principal).operations
        ensures Of(answer.book, client.principal).operations[id] == Contents().mine.operations[id]
      {
        SubmitLeavesEntries(oracle, core.principals, Now(), request, id);
      }
      if answer.result.Ok? {
        SubmittedEntry(oracle, core.principals, Now(), request);
        EntryNamed(oracle, answer.book, OwnCaps(client.policy), client.principal, request.id);
      }
    }

    /** Gives an operation its timeline, unless it has one. */
    method Enrol(id: string, acceptedAt: int)
      requires Valid() && HistoriesOk(Contents()) && id in Contents().mine.operations
      modifies this`timelines, core
      ensures Valid() && HistoriesOk(Contents())
              && Contents() == Enrolled(old(Contents()), id, acceptedAt, if id in scripts then scripts[id] else [])
    {
      hide Inv;
      hide GoodPolicy;
      hide PrincipalOk;
      hide HistoriesOk;
      if id in timelines {
        return;
      }
      var p := client.principal;
      ContentsOk();
      EnrolledOk(Contents(), id, acceptedAt, ScriptFor(id));
      LocalStepKeeps(oracle, core.principals, OwnCaps(client.policy), client, Stamping(id, 1));
      var entry := core.principals[p].operations[id];
      entry := entry.(progress := entry.progress.(cursor := 1));
      var mine := core.principals[p];
      core.principals := core.principals[p := mine.(operations := mine.operations[id := entry])];
      timelines := timelines[id := Timeline(acceptedAt, ScriptFor(id), 0, [Update(1, entry.progress)])];
    }

    function ScriptFor(id: string): seq<ScriptedStep> {
      if id in scripts then scripts[id] else []
    }

    /** Replays an operation's history from a cursor, after catching up. */
    method WatchOperation(id: string, from: string) returns (answer: Result<seq<Event>>)
      requires Valid() && HistoriesOk(Contents())
      modifies this`timelines, core
      ensures Valid() && HistoriesOk(Contents()) && WorldOk(old(Contents()))
              && Settled(old(Contents()), clock.now, Contents())
      ensures if id in timelines then Answers(timelines[id].events, from, answer) else answer == Err(NotFoundOrDenied)
    {
      hide Inv;
      hide WorldOk;
      hide HistoriesOk;
      hide Settled;
      ghost var was := Contents();
      ApplyDueTransitions();
      SettledHistories(was, clock.now, Contents());
      if id !in timelines {
        return Err(NotFoundOrDenied);
      }
      answer := EventsAfter(timelines[id].events, from);
    }
  }

  /**
   * Makes a client, refusing an empty principal, a bad script and a bad policy.  That the policy's
   * output limits fit each other is not looked at, and everything after relies on it.
   */
  method NewFakeControlClient(shapes: Shapes, oracle: Oracle, clock: FakeClock, principal: string, policy: Policy,
                              scripts: map<string, seq<ScriptedStep>>)
    returns (made: FakeControlClient?, error: Option<FailureCode>)
    requires SpoolLimits(policy.defaults.producedOutputBytes, policy.defaults.retainedOutputBytes)
    ensures (made == null) == error.Some?
    ensures error == if principal != "" && ValidPolicy(policy) && (forall id :: id in scripts ==>
                                                                     ValidOperationId(id) && ValidScript(shapes,
                                                                           scripts[id]))
                     then None else Some(InvalidArgument)
    ensures made != null ==>
              && fresh(made) && fresh(made.core) && made.clock == clock && made.scripts == scripts
              && made.Valid() && HistoriesOk(made.Contents()) && made.Contents() == World(NOBODY, map[])
              && made.client == Client(principal, clock.now, false, policy)
  {
    if principal == "" {
      return null, Some(InvalidArgument);
    }
    var valid := ValidateScripts(shapes, scripts);
    if !valid || !ValidPolicy(policy) {
      return null, Some(InvalidArgument);
    }
    made := new FakeControlClient(oracle, clock, principal, policy, scripts);
    error := None;
  }
}
