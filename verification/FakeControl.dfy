/**
 * The scripted timeline: which steps are due at an instant, what a step does to its operation, and why
 * the order in which operations are visited, and how an advance is cut up, make no difference.
 */
module FakeControl {
  import opened SandboxTypes
  import opened Admission
  import opened Ledger
  import F = CanonicalFields

  datatype Gap = Gap(earliestRetained: string, reason: string)

  datatype ScriptedStep = ScriptedStep(
    at: int, state: OperationState, failure: Option<FailureCode>, reported: Option<ProcessResult>, gap: Option<Gap>)

  /** An update carries the operation as it was right after the step. */
  datatype Event = Update(cursor: nat, progress: Progress) | Missing(cursor: nat, gap: Gap)

  datatype Timeline = Timeline(acceptedAt: int, script: seq<ScriptedStep>, next: nat, events: seq<Event>)

  /** One operation's part of the ledger and its timeline. */
  datatype Slice = Slice(mine: Principal, line: Timeline)

  datatype World = World(mine: Principal, timelines: map<string, Timeline>)

  // ----- One step -----

  predicate Applies(mine: Principal, id: string) {
    id in mine.operations && !Terminal(mine.operations[id].progress.state)
  }

  function LastCursor(line: Timeline, step: ScriptedStep): nat {
    |line.events| + if step.gap.Some? then 2 else 1
  }

  function StepLedger(mine: Principal, id: string, line: Timeline, step: ScriptedStep): Principal {
    ScriptStep(mine, id, step.state, step.failure, step.reported, LastCursor(line, step))
  }

  function StepEvents(mine: Principal, id: string, line: Timeline, step: ScriptedStep): seq<Event> {
    var after := StepLedger(mine, id, line, step);
    if !Applies(mine, id) || id !in after.operations then []
    else
      var cursor := |line.events| + 1;
      [Update(cursor, after.operations[id].progress.(cursor := cursor))]
      + if step.gap.Some? then [Missing(cursor + 1, step.gap.value)] else []
  }

  predicate Due(line: Timeline, now: int) {
    line.next < |line.script| && line.acceptedAt + line.script[line.next].at <= now
  }

  function StepSlice(s: Slice, id: string): (r: Slice)
    requires s.line.next < |s.line.script|
    ensures r.line.script == s.line.script && r.line.acceptedAt == s.line.acceptedAt && r.line.next == s.line.next + 1
  {
    var step := s.line.script[s.line.next];
    Slice(StepLedger(s.mine, id, s.line, step),
          s.line.(next := s.line.next + 1, events := s.line.events + StepEvents(s.mine, id, s.line, step)))
  }

  /** Every step that is due, in script order. */
  function DueSlice(s: Slice, id: string, now: int): (r: Slice)
    decreases |s.line.script| - s.line.next
  {
    if Due(s.line, now) then DueSlice(StepSlice(s, id), id, now) else s
  }

  /** Catching up in two moves is catching up in one. */
  lemma {:induction false} DueComposes(s: Slice, id: string, now: int, later: int)
    requires now <= later
    ensures DueSlice(DueSlice(s, id, now), id, later) == DueSlice(s, id, later)
    decreases |s.line.script| - s.line.next
  {
    if Due(s.line, now) {
      DueComposes(StepSlice(s, id), id, now, later);
    }
  }

  // ----- A step concerns its own operation only -----

  function Restrict(mine: Principal, id: string): Principal
    requires |id| >= 3
  {
    var pid := ProcessIdFor(id);
    Principal(if id in mine.operations then map[id := mine.operations[id]] else map[],
              if pid in mine.processes then map[pid := mine.processes[pid]] else map[])
  }

  /** What a step needs of the operation it steps: an open channel while it runs, and a process record of its own. */
  predicate Ready(mine: Principal, id: string) {
    |id| >= 3 && id in mine.operations && !Terminal(mine.operations[id].progress.state) && !mine.operations[id].once
    && (ProcessIdFor(id) in mine.processes ==>
          mine.processes[ProcessIdFor(id)].operation == id && mine.processes[ProcessIdFor(id)].output.Some?)
  }

  function SteppedOperation(op: Operation, state: OperationState, failure: Option<FailureCode>,
                            result: Option<ProcessResult>,
                            cursor: nat): Operation
  {
    var ended := if result.Some? && !Terminal(state) then Succeeded else state;
    var reported := op.(progress := Progress(ended, if result.Some? then result else op.progress.result, failure,
          cursor));
    if Terminal(ended) then Finish(reported) else reported
  }

  function SteppedProcess(record: Process, result: ProcessResult): Process
    requires record.output.Some?
  {
    record.(state := ProcessTerminal, result := Some(result), output := Some(record.output.value.(closed := true)))
  }

  /** A scripted step is one update of its operation and at most one of its process record. */
  lemma ScriptIs(mine: Principal, id: string, state: OperationState, failure: Option<FailureCode>,
                 result: Option<ProcessResult>,
                 cursor: nat)
    requires Ready(mine, id)
    ensures var pid := ProcessIdFor(id);
            var given := if pid in mine.processes then result else None;
            && ScriptStep(mine, id, state, failure, result, cursor).operations
               == mine.operations[id := SteppedOperation(mine.operations[id], state, failure, given, cursor)]
            && ScriptStep(mine, id, state, failure, result, cursor).processes
               == if given.Some? then mine.processes[pid := SteppedProcess(mine.processes[pid], given.value)]
                   else mine.processes
  {
    hide ProcessIdFor;
    var op := mine.operations[id];
    var given := if ProcessIdFor(id) in mine.processes then result else None;
    var last := SteppedOperation(op, state, failure, given, cursor);
    var moved := op.(progress := op.progress.(state := state, failure := failure));
    UpdateTwice(mine.operations, id, moved, last);
    if given.Some? {
      var middle := if Terminal(state)
          then moved else Finish(moved.(progress := moved.progress.(state := Succeeded, result := given)));
      UpdateTwice(mine.operations, id, moved, middle);
      UpdateTwice(mine.operations, id, middle, last);
    }
  }

  lemma OkIsReady(mine: Principal, id: string)
    requires PrincipalOk(mine) && Applies(mine, id)
    ensures Ready(mine, id)
  {
    if ProcessIdFor(id) in mine.processes {
      EachProcessOk(mine, ProcessIdFor(id));
      ProcessIdInjective(mine.processes[ProcessIdFor(id)].operation, id);
    }
  }

  /** The step's effect on its own operation can be computed from that operation's slice alone. */
  lemma StepFromSlice(mine: Principal, id: string, line: Timeline, step: ScriptedStep)
    requires PrincipalOk(mine) && ValidOperationId(id)
    ensures Restrict(StepLedger(mine, id, line, step), id) == StepLedger(Restrict(mine, id), id, line, step)
    ensures StepEvents(mine, id, line, step) == StepEvents(Restrict(mine, id), id, line, step)
  {
    hide PrincipalOk;
    hide ScriptStep;
    hide SteppedOperation;
    hide SteppedProcess;
    var small := Restrict(mine, id);
    if Applies(mine, id) {
      OkIsReady(mine, id);
      ScriptIs(mine, id, step.state, step.failure, step.reported, LastCursor(line, step));
      ScriptIs(small, id, step.state, step.failure, step.reported, LastCursor(line, step));
      assert StepLedger(small, id, line, step).operations == Restrict(StepLedger(mine, id, line, step), id).operations;
      assert StepLedger(small, id, line, step).processes == Restrict(StepLedger(mine, id, line, step), id).processes;
    } else {
      ScriptIdle(mine, id, step.state, step.failure, step.reported, LastCursor(line, step));
      ScriptIdle(small, id, step.state, step.failure, step.reported, LastCursor(line, step));
    }
    hide ProcessIdFor;
    hide ValidOperationId;
  }

  lemma ProcessIdsDiffer(a: string, b: string)
    requires ValidOperationId(a) && ValidOperationId(b) && a != b
    ensures ProcessIdFor(a) != ProcessIdFor(b)
  {
    if ProcessIdFor(a) == ProcessIdFor(b) {
      ProcessIdInjective(a, b);
    }
  }

  /** No other operation, and no other operation's process, sees the step. */
  lemma StepElsewhere(mine: Principal, id: string, line: Timeline, step: ScriptedStep, other: string)
    requires PrincipalOk(mine) && ValidOperationId(id) && ValidOperationId(other) && other != id
    ensures Restrict(StepLedger(mine, id, line, step), other) == Restrict(mine, other)
  {
    if Applies(mine, id) {
      OkIsReady(mine, id);
      ProcessIdsDiffer(id, other);
      ScriptIs(mine, id, step.state, step.failure, step.reported, LastCursor(line, step));
      hide PrincipalOk;
      hide ScriptStep;
      hide ProcessIdFor;
      hide SteppedOperation;
      hide SteppedProcess;
    }
  }

  // ----- All operations -----

  predicate WorldOk(w: World) {
    PrincipalOk(w.mine) && forall id :: id in w.timelines ==> ValidOperationId(id) && id in w.mine.operations
  }

  function SliceOf(w: World, id: string): Slice
    requires |id| >= 3 && id in w.timelines
  {
    Slice(Restrict(w.mine, id), w.timelines[id])
  }

  function StepWorld(w: World, id: string): World
    requires id in w.timelines && w.timelines[id].next < |w.timelines[id].script|
  {
    var line := w.timelines[id];
    var stepped := StepSlice(Slice(w.mine, line), id);
    World(stepped.mine, w.timelines[id := stepped.line])
  }

  lemma StepWorldOk(w: World, id: string)
    requires WorldOk(w) && id in w.timelines && w.timelines[id].next < |w.timelines[id].script|
    ensures WorldOk(StepWorld(w, id)) && Evolves(w.mine, StepWorld(w, id).mine)
    ensures StepWorld(w, id).mine.operations.Keys == w.mine.operations.Keys
    ensures StepWorld(w, id).timelines.Keys == w.timelines.Keys
  {
    var line := w.timelines[id];
    var step := line.script[line.next];
    ScriptKeeps(w.mine, id, step.state, step.failure, step.reported, LastCursor(line, step));
    hide PrincipalOk;
    hide ScriptStep;
    hide Evolves;
    hide ValidOperationId;
  }

  lemma StepWorldSlice(w: World, id: string)
    requires WorldOk(w) && id in w.timelines && w.timelines[id].next < |w.timelines[id].script|
    ensures SliceOf(StepWorld(w, id), id) == StepSlice(SliceOf(w, id), id)
  {
    var line := w.timelines[id];
    var step := line.script[line.next];
    StepFromSlice(w.mine, id, line, step);
    hide PrincipalOk;
    hide StepLedger;
    hide StepEvents;
    hide Restrict;
  }

  lemma StepWorldElsewhere(w: World, id: string, other: string)
    requires WorldOk(w) && id in w.timelines && w.timelines[id].next < |w.timelines[id].script|
    requires ValidOperationId(other) && other != id
    ensures Restrict(StepWorld(w, id).mine, other) == Restrict(w.mine, other)
  {
    var line := w.timelines[id];
    StepElsewhere(w.mine, id, line, line.script[line.next], other);
    hide PrincipalOk;
    hide StepLedger;
    hide StepEvents;
    hide Restrict;
  }

  /** What an operation is after it has caught up. */
  function Caught(w: World, id: string, now: int): Slice
    requires |id| >= 3 && id in w.timelines
  {
    DueSlice(SliceOf(w, id), id, now)
  }

  /** `a` is `w` with the operations in `done` caught up and nothing else changed. */
  ghost predicate Settles(w: World, now: int, done: set<string>, a: World)
    requires WorldOk(w)
  {
    && WorldOk(a) && a.mine.operations.Keys == w.mine.operations.Keys && a.timelines.Keys == w.timelines.Keys
    && Evolves(w.mine, a.mine)
    && (forall id :: id in w.timelines ==> SliceOf(a, id) == if id in done then Caught(w, id, now) else SliceOf(w, id))
    && (forall id :: id in w.mine.operations && id !in w.timelines ==> Restrict(a.mine, id) == Restrict(w.mine, id))
  }

  /** `a` is `w` with every scripted operation caught up to `now`. */
  ghost predicate Settled(w: World, now: int, a: World)
    requires WorldOk(w)
  {
    Settles(w, now, w.timelines.Keys, a)
  }

  lemma SettlesNone(w: World, now: int)
    requires WorldOk(w)
    ensures Settles(w, now, {}, w)
  {
    hide PrincipalOk;
    hide Restrict;
    hide Caught;
    EvolvesItself(w.mine);
    hide Evolves;
  }

  /** `a` is `w` part way through one operation's due steps. */
  ghost predicate CatchingUp(w: World, id: string, now: int, a: World)
    requires WorldOk(w) && id in w.timelines
  {
    && WorldOk(a) && a.mine.operations.Keys == w.mine.operations.Keys && a.timelines.Keys == w.timelines.Keys
    && Evolves(w.mine, a.mine)
    && Caught(a, id, now) == Caught(w, id, now)
    && (forall k :: k in w.mine.operations && k != id ==> Restrict(a.mine, k) == Restrict(w.mine, k))
    && (forall k :: k in w.timelines && k != id ==> a.timelines[k] == w.timelines[k])
  }

  lemma CatchingUpStart(w: World, id: string, now: int)
    requires WorldOk(w) && id in w.timelines
    ensures CatchingUp(w, id, now, w)
  {
    hide PrincipalOk;
    hide Restrict;
    hide Caught;
    EvolvesItself(w.mine);
    hide Evolves;
  }

  lemma IdsValid(mine: Principal)
    requires PrincipalOk(mine)
    ensures forall id :: id in mine.operations ==> ValidOperationId(id)
  {
    hide ProcessOk;
  }

  lemma DueTakes(s: Slice, id: string, now: int)
    requires Due(s.line, now)
    ensures DueSlice(s, id, now) == DueSlice(StepSlice(s, id), id, now)
  {
  }

  lemma CatchingUpStep(w: World, id: string, now: int, a: World)
    requires WorldOk(w) && id in w.timelines && CatchingUp(w, id, now, a) && Due(a.timelines[id], now)
    ensures CatchingUp(w, id, now, StepWorld(a, id))
  {
    hide PrincipalOk;
    hide Restrict;
    hide Evolves;
    hide DueSlice;
    IdsValid(w.mine);
    var b := StepWorld(a, id);
    DueTakes(SliceOf(a, id), id, now);
    StepWorldOk(a, id);
    StepWorldSlice(a, id);
    EvolvesTransitive(w.mine, a.mine, b.mine);
    forall k | k in w.mine.operations && k != id ensures Restrict(b.mine, k) == Restrict(w.mine, k) {
      StepWorldElsewhere(a, id, k);
    }
    hide StepSlice;
  }

  lemma CatchingUpEnds(start: World, now: int, done: set<string>, w: World, id: string, a: World)
    requires WorldOk(start) && Settles(start, now, done, w) && id in w.timelines && id !in done
    requires CatchingUp(w, id, now, a) && !Due(a.timelines[id], now)
    ensures Settles(start, now, done + {id}, a)
  {
    hide PrincipalOk;
    hide Restrict;
    hide Evolves;
    EvolvesTransitive(start.mine, w.mine, a.mine);
    assert SliceOf(a, id) == Caught(a, id, now);
    assert SliceOf(w, id) == SliceOf(start, id);
    hide DueSlice;
    forall k | k in start.timelines
      ensures SliceOf(a, k) == if k in done + {id} then Caught(start, k, now) else SliceOf(start, k)
    {
      if k != id {
        assert SliceOf(a, k) == SliceOf(w, k);
      }
    }
  }

  /** A ledger is determined by the slices of its operations. */
  lemma SlicesDetermine(a: Principal, b: Principal)
    requires PrincipalOk(a) && PrincipalOk(b) && a.operations.Keys == b.operations.Keys
    requires forall id :: id in a.operations ==> Restrict(a, id) == Restrict(b, id)
    ensures a == b
  {
    forall id | id in a.operations ensures a.operations[id] == b.operations[id] {
      SliceOperation(a, b, id);
    }
    assert a.operations == b.operations;
    forall pid | pid in a.processes ensures pid in b.processes && a.processes[pid] == b.processes[pid] {
      EachProcessOk(a, pid);
      SliceProcess(a, b, a.processes[pid].operation);
    }
    forall pid | pid in b.processes ensures pid in a.processes {
      EachProcessOk(b, pid);
      SliceProcess(b, a, b.processes[pid].operation);
    }
    assert a.processes == b.processes;
  }

  lemma SliceOperation(a: Principal, b: Principal, id: string)
    requires |id| >= 3 && Restrict(a, id) == Restrict(b, id) && id in a.operations && id in b.operations
    ensures a.operations[id] == b.operations[id]
  {
    hide ProcessIdFor;
    assert Restrict(a, id).operations[id] == Restrict(b, id).operations[id];
  }

  lemma SliceProcess(a: Principal, b: Principal, id: string)
    requires |id| >= 3 && Restrict(a, id) == Restrict(b, id) && ProcessIdFor(id) in a.processes
    ensures ProcessIdFor(id) in b.processes && a.processes[ProcessIdFor(id)] == b.processes[ProcessIdFor(id)]
  {
    hide ProcessIdFor;
    assert ProcessIdFor(id) in Restrict(a, id).processes;
    assert Restrict(a, id).processes[ProcessIdFor(id)] == Restrict(b, id).processes[ProcessIdFor(id)];
  }

  /** There is one way to settle: the order of visiting operations cannot be told from the result. */
  lemma SettledUnique(w: World, now: int, a: World, b: World)
    requires WorldOk(w) && Settled(w, now, a) && Settled(w, now, b)
    ensures a == b
  {
    hide PrincipalOk;
    hide Restrict;
    hide Caught;
    hide Evolves;
    forall id | id in w.timelines
      ensures Restrict(a.mine, id) == Restrict(b.mine, id) && a.timelines[id] == b.timelines[id]
    {
      assert SliceOf(a, id) == SliceOf(b, id);
    }
    assert a.timelines == b.timelines;
    SlicesDetermine(a.mine, b.mine);
  }

  lemma SettledComposes(w: World, now: int, a: World, later: int, b: World)
    requires WorldOk(w) && now <= later && Settled(w, now, a) && Settled(a, later, b)
    ensures Settled(w, later, b)
  {
    hide PrincipalOk;
    hide Restrict;
    hide DueSlice;
    forall id | id in w.timelines ensures SliceOf(b, id) == Caught(w, id, later) {
      assert SliceOf(a, id) == Caught(w, id, now);
      DueComposes(SliceOf(w, id), id, now, later);
    }
    EvolvesTransitive(w.mine, a.mine, b.mine);
    hide Evolves;
  }

  lemma SettledOk(w: World, now: int, a: World)
    requires WorldOk(w) && Settled(w, now, a)
    ensures WorldOk(a)
  {
  }

  /**
   * Advancing the clock by a and then by b ends in the same ledger, processes and histories as
   * advancing by their sum.
   */
  lemma AdvanceComposes(w: World, start: int, a: nat, b: nat, first: World, second: World, once: World)
    requires WorldOk(w) && Settled(w, start + a, first) && Settled(first, start + a + b, second)
    requires Settled(w, start + (a + b), once)
    ensures second == once
  {
    hide Settled;
    hide WorldOk;
    SettledOk(w, start + a, first);
    SettledComposes(w, start + a, first, start + a + b, second);
    SettledUnique(w, start + (a + b), second, once);
  }

  /** An observation at an instant already caught up to changes nothing. */
  lemma ObservationChangesNothing(w: World, now: int, a: World, b: World)
    requires WorldOk(w) && Settled(w, now, a) && Settled(a, now, b)
    ensures b == a
  {
    hide Settled;
    hide WorldOk;
    SettledOk(w, now, a);
    SettledComposes(w, now, a, now, b);
    SettledUnique(w, now, a, b);
  }

  // ----- Histories -----

  predicate SameOutcome(a: Progress, b: Progress) {
    a.state == b.state && a.result == b.result && a.failure == b.failure
  }

  /** The last update of a history shows an operation's present state, result and failure. */
  predicate Shows(events: seq<Event>, progress: Progress) {
    exists i :: 0 <= i < |events| && ShowsAt(events, progress, i)
  }

  predicate ShowsAt(events: seq<Event>, progress: Progress, i: nat)
    requires i < |events|
  {
    && events[i].Update? && SameOutcome(events[i].progress, progress)
    && forall j :: i < j < |events| ==> events[j].Missing?
  }

  /**
   * What a taken step does, field by field.  The update shows the step's failure and, unless a process
   * result is reported for a known process, the step's state; a gap follows at once; and the operation
   * is left as the update shows it, with its cursor on the last of the two.
   */
  lemma TakenStepShows(mine: Principal, id: string, line: Timeline, step: ScriptedStep)
    requires Ready(mine, id)
    ensures var n := |line.events| + 1;
            var given := step.reported.Some? && ProcessIdFor(id) in mine.processes;
            var after, events := StepLedger(mine, id, line, step), StepEvents(mine, id, line, step);
            && |events| == (if step.gap.Some? then 2 else 1)
            && events[0].Update? && events[0].cursor == n && events[0].progress.cursor == n
            && events[0].progress.failure == step.failure
            && events[0].progress.state == (if given && !Terminal(step.state) then Succeeded else step.state)
            && events[0].progress.result == (if given then step.reported else mine.operations[id].progress.result)
            && (step.gap.Some? ==> events[1] == Missing(n + 1, step.gap.value))
            && id in after.operations
            && after.operations[id].progress == events[0].progress.(cursor := events[|events| - 1].cursor)
            && (given ==>
                  var record := after.processes[ProcessIdFor(id)];
                  record.state.ProcessTerminal? && record.result == step.reported && record.output.value.closed)
  {
    ScriptIs(mine, id, step.state, step.failure, step.reported, LastCursor(line, step));
    hide ScriptStep;
    hide ProcessIdFor;
  }

  /** A step on a finished operation is passed over: nothing changes and nothing is shown. */
  lemma PassedOverStep(mine: Principal, id: string, line: Timeline, step: ScriptedStep)
    requires !Applies(mine, id)
    ensures StepLedger(mine, id, line, step) == mine && StepEvents(mine, id, line, step) == []
  {
  }

  /**
   * What holds of a slice throughout: numbered events, the operation's cursor on the last of them, and
   * the operation as the last update shows it.
   */
  predicate SliceOk(s: Slice, id: string) {
    && |id| >= 3 && id in s.mine.operations && OperationOk(s.mine.operations[id])
    && (ProcessIdFor(id) in s.mine.processes ==>
          s.mine.processes[ProcessIdFor(id)].operation == id && s.mine.processes[ProcessIdFor(id)].output.Some?)
    && Numbered(s.line.events) && s.mine.operations[id].progress.cursor == |s.line.events|
    && Shows(s.line.events, s.mine.operations[id].progress)
  }

  predicate Numbered(events: seq<Event>) {
    forall i :: 0 <= i < |events| ==> events[i].cursor == i + 1
  }

  lemma StepSliceOk(s: Slice, id: string)
    requires SliceOk(s, id) && s.line.next < |s.line.script|
    ensures SliceOk(StepSlice(s, id), id) && s.line.events <= StepSlice(s, id).line.events
  {
    var step := s.line.script[s.line.next];
    ScriptIdle(s.mine, id, step.state, step.failure, step.reported, LastCursor(s.line, step));
    if Applies(s.mine, id) {
      ScriptIs(s.mine, id, step.state, step.failure, step.reported, LastCursor(s.line, step));
      StepShown(s, id);
    } else {
      assert StepSlice(s, id).line.events == s.line.events;
    }
    hide ScriptStep;
    hide ProcessIdFor;
    hide Shows;
  }

  lemma StepShown(s: Slice, id: string)
    requires SliceOk(s, id) && s.line.next < |s.line.script| && Applies(s.mine, id)
    ensures var after := StepSlice(s, id);
            id in after.mine.operations && Shows(after.line.events, after.mine.operations[id].progress)
  {
    var step := s.line.script[s.line.next];
    TakenStepShows(s.mine, id, s.line, step);
    hide StepLedger;
    hide StepEvents;
    hide ProcessIdFor;
    var after := StepSlice(s, id);
    assert ShowsAt(after.line.events, after.mine.operations[id].progress, |s.line.events|);
  }

  /** Catching up only appends to a history, and keeps it numbered with the operation's cursor on its last event. */
  lemma {:induction false} HistoryGrows(s: Slice, id: string, now: int)
    requires SliceOk(s, id)
    ensures SliceOk(DueSlice(s, id, now), id) && s.line.events <= DueSlice(s, id, now).line.events
    decreases |s.line.script| - s.line.next
  {
    hide SliceOk;
    if Due(s.line, now) {
      StepSliceOk(s, id);
      HistoryGrows(StepSlice(s, id), id, now);
    }
    hide StepSlice;
  }

  /** The updates of a history, without its gaps. */
  function Updates(events: seq<Event>): seq<Event> {
    if events == [] then []
    else
      var init, last := events[..|events| - 1], events[|events| - 1];
      Updates(init) + if last.Update? then [last] else []
  }

  lemma UpdatesOfStep(events: seq<Event>, taken: seq<Event>)
    requires |taken| == 1 || (|taken| == 2 && taken[1].Missing?)
    requires taken[0].Update?
    ensures Updates(events + taken) == Updates(events) + [taken[0]]
  {
    assert (events + [taken[0]])[..|events|] == events;
    if |taken| == 2 {
      assert (events + taken)[..|events| + 1] == events + [taken[0]];
    } else {
      assert events + taken == events + [taken[0]];
    }
  }

  /** The update shows what the script says of a step. */
  predicate ShowsStep(event: Event, step: ScriptedStep, reports: bool) {
    event.Update? && event.progress.failure == step.failure && (reports || event.progress.state == step.state)
  }

  /** No step before the last ends the operation early by reporting a process result. */
  predicate ReportsLast(s: Slice, id: string)
    requires |id| >= 3
  {
    ProcessIdFor(id) !in s.mine.processes ||
    forall k :: s.line.next <= k < |s.line.script| - 1 ==> s.line.script[k].reported.None?
  }

  lemma StepPlays(shapes: Shapes, s: Slice, id: string)
    requires SliceOk(s, id) && ValidScript(shapes, s.line.script) && ReportsLast(s, id)
    requires s.line.next < |s.line.script| && Applies(s.mine, id)
    ensures var after := StepSlice(s, id);
            && SliceOk(after, id) && ReportsLast(after, id)
            && (after.line.next < |after.line.script| ==> Applies(after.mine, id))
            && |Updates(after.line.events)| == |Updates(s.line.events)| + 1
            && Updates(s.line.events) <= Updates(after.line.events)
            && ShowsStep(Updates(after.line.events)[|Updates(s.line.events)|], s.line.script[s.line.next],
                         s.line.script[s.line.next].reported.Some?)
  {
    var step := s.line.script[s.line.next];
    StepSliceOk(s, id);
    TakenStepShows(s.mine, id, s.line, step);
    ScriptIs(s.mine, id, step.state, step.failure, step.reported, LastCursor(s.line, step));
    UpdatesOfStep(s.line.events, StepEvents(s.mine, id, s.line, step));
    if s.line.next + 1 < |s.line.script| {
      assert step.at < s.line.script[s.line.next + 1].at && !Terminal(step.state);
    }
    hide ScriptStep;
    hide ProcessIdFor;
    hide Updates;
    hide StepEvents;
    hide Shows;
    hide Numbered;
  }

  /**
   * A valid script plays out: every step whose time has come is shown by an update of its own, in order,
   * unless a result reported before the last step ends the operation early.
   */
  lemma {:induction false} ScriptPlaysOut(shapes: Shapes, s: Slice, id: string, now: int)
    requires SliceOk(s, id) && ValidScript(shapes, s.line.script) && ReportsLast(s, id)
    requires s.line.next < |s.line.script| ==> Applies(s.mine, id)
    ensures var before, after := Updates(s.line.events), Updates(DueSlice(s, id, now).line.events);
            && before <= after && |after| == |before| + DueSlice(s, id, now).line.next - s.line.next
            && forall k :: s.line.next <= k < DueSlice(s, id, now).line.next && k < |s.line.script| ==>
                 ShowsStep(after[|before| + k - s.line.next], s.line.script[k], s.line.script[k].reported.Some?)
    decreases |s.line.script| - s.line.next
  {
    hide SliceOk;
    hide ReportsLast;
    hide ValidScript;
    hide Updates;
    hide ShowsStep;
    if Due(s.line, now) {
      StepPlays(shapes, s, id);
      ScriptPlaysOut(shapes, StepSlice(s, id), id, now);
    }
    hide StepSlice;
  }

  /** The steps taken by an instant are exactly those whose time has come, whatever else happened to the operation. */
  lemma {:induction false} DueStepsTaken(s: Slice, id: string, now: int)
    requires forall i, j :: 0 <= i < j < |s.line.script| ==> s.line.script[i].at < s.line.script[j].at
    requires s.line.next <= |s.line.script|
    requires forall i :: 0 <= i < s.line.next ==> s.line.acceptedAt + s.line.script[i].at <= now
    ensures var r := DueSlice(s, id, now).line;
            && r.script == s.line.script && s.line.next <= r.next <= |r.script|
            && forall i :: 0 <= i < |r.script| ==> (i < r.next <==> r.acceptedAt + r.script[i].at <= now)
    decreases |s.line.script| - s.line.next
  {
    if Due(s.line, now) {
      DueStepsTaken(StepSlice(s, id), id, now);
    } else if s.line.next < |s.line.script| {
      forall i | s.line.next <= i < |s.line.script| ensures s.line.acceptedAt + s.line.script[i].at > now {
        assert i == s.line.next || s.line.script[s.line.next].at < s.line.script[i].at;
      }
    }
  }

  predicate HistoryOk(w: World, id: string)
    requires id in w.timelines
  {
    && id in w.mine.operations && Numbered(w.timelines[id].events)
    && w.mine.operations[id].progress.cursor == |w.timelines[id].events|
    && Shows(w.timelines[id].events, w.mine.operations[id].progress)
  }

  /** Every history is numbered, its operation's cursor is on its end, and its last update shows the operation. */
  predicate HistoriesOk(w: World) {
    forall id :: id in w.timelines ==> HistoryOk(w, id)
  }

  lemma OkSlice(w: World, id: string)
    requires WorldOk(w) && id in w.timelines && HistoryOk(w, id)
    ensures SliceOk(SliceOf(w, id), id)
  {
    if ProcessIdFor(id) in w.mine.processes {
      EachProcessOk(w.mine, ProcessIdFor(id));
      ProcessIdInjective(w.mine.processes[ProcessIdFor(id)].operation, id);
    }
    hide ProcessOk;
  }

  lemma SliceHistory(w: World, id: string)
    requires |id| >= 3 && id in w.timelines && id in w.mine.operations && SliceOk(SliceOf(w, id), id)
    ensures HistoryOk(w, id)
  {
    hide ProcessIdFor;
    hide OperationOk;
    assert SliceOf(w, id).mine.operations[id] == w.mine.operations[id];
  }

  /** Settling keeps every event of every history in place. */
  lemma SettledHistories(w: World, now: int, a: World)
    requires WorldOk(w) && HistoriesOk(w) && Settled(w, now, a)
    ensures HistoriesOk(a) && a.timelines.Keys == w.timelines.Keys
    ensures forall id :: id in w.timelines ==> w.timelines[id].events <= a.timelines[id].events
  {
    hide PrincipalOk;
    hide Restrict;
    hide SliceOk;
    hide Evolves;
    hide HistoryOk;
    forall id | id in w.timelines
      ensures HistoryOk(a, id) && w.timelines[id].events <= a.timelines[id].events
    {
      OkSlice(w, id);
      HistoryGrows(SliceOf(w, id), id, now);
      SliceHistory(a, id);
    }
    hide DueSlice;
  }

  /** The timeline a submit gives a new operation, its first event the operation as accepted. */
  function Enrolled(w: World, id: string, acceptedAt: int, script: seq<ScriptedStep>): World
    requires id in w.mine.operations
  {
    if id in w.timelines then w
    else
      var mine := StampStep(w.mine, id, 1);
      World(mine, w.timelines[id := Timeline(acceptedAt, script, 0, [Update(1, mine.operations[id].progress)])])
  }

  /**
   * A new operation starts at the first step of its script, its history one update with cursor 1 that shows
   * the operation as it stands; one that has a timeline keeps it; nothing else changes.
   */
  lemma EnrolledIs(w: World, id: string, acceptedAt: int, script: seq<ScriptedStep>)
    requires id in w.mine.operations
    ensures var e := Enrolled(w, id, acceptedAt, script);
            && (id in w.timelines ==> e == w)
            && (id !in w.timelines ==>
                  && e.timelines.Keys == w.timelines.Keys + {id} && e.mine.operations.Keys == w.mine.operations.Keys
                  && e.timelines[id].acceptedAt == acceptedAt && e.timelines[id].script == script
                  && e.timelines[id].next == 0 && |e.timelines[id].events| == 1
                  && e.timelines[id].events[0].Update? && e.timelines[id].events[0].cursor == 1
                  && e.timelines[id].events[0].progress == w.mine.operations[id].progress.(cursor := 1)
                  && e.mine.operations[id] == w.mine.operations[id].(progress := e.timelines[id].events[0].progress))
            && (forall other :: other in w.timelines ==> e.timelines[other] == w.timelines[other])
            && (forall other :: other in w.mine.operations && other != id ==>
                  e.mine.operations[other] == w.mine.operations[other])
            && e.mine.processes == w.mine.processes
  {
  }

  lemma EnrolledOk(w: World, id: string, acceptedAt: int, script: seq<ScriptedStep>)
    requires WorldOk(w) && HistoriesOk(w) && id in w.mine.operations
    ensures WorldOk(Enrolled(w, id, acceptedAt, script)) && HistoriesOk(Enrolled(w, id, acceptedAt, script))
  {
    hide PrincipalOk;
    hide Evolves;
    hide ValidOperationId;
    hide Numbered;
    hide Shows;
    StampKeeps(w.mine, id, 1);
    IdsValid(w.mine);
    OneNumbered(StampStep(w.mine, id, 1).operations[id].progress);
  }

  lemma OneNumbered(progress: Progress)
    ensures Numbered([Update(1, progress)]) && Shows([Update(1, progress)], progress)
  {
    assert ShowsAt([Update(1, progress)], progress, 0);
  }

  // ----- Watching -----

  function OperationCursor(n: nat): string {
    F.CursorText("operation", n)
  }

  /** The whole history, or what follows the event the cursor names, or an expired cursor if none is named. */
  ghost predicate Answers(events: seq<Event>, from: string, answer: Result<seq<Event>>) {
    if from == "" || from == "0" then answer == Ok(events)
    else if answer.Ok? then
      exists i :: 0 <= i < |events| && OperationCursor(events[i].cursor) == from && answer.value == events[i + 1..]
    else
      answer.code == CursorExpired && forall i :: 0 <= i < |events| ==> OperationCursor(events[i].cursor) != from
  }

  method EventsAfter(events: seq<Event>, from: string) returns (answer: Result<seq<Event>>)
    ensures Answers(events, from, answer)
  {
    if from == "" || from == "0" {
      return Ok(events);
    }
    for index := 0 to |events|
      invariant forall i :: 0 <= i < index ==> OperationCursor(events[i].cursor) != from
    {
      if OperationCursor(events[index].cursor) == from {
        return Ok(events[index + 1..]);
      }
    }
    answer := Err(CursorExpired);
  }

  /**
   * In a numbered history a watch from any cursor misses nothing: it gets every event after that one,
   * and only those.
   */
  lemma WatchMissesNothing(events: seq<Event>, n: nat, answer: Result<seq<Event>>)
    requires Numbered(events) && Answers(events, OperationCursor(n), answer)
    ensures answer == if 1 <= n <= |events| then Ok(events[n..]) else Err(CursorExpired)
  {
    F.CursorTextInjective("operation", n, n);
    forall i | 0 <= i < |events| && OperationCursor(events[i].cursor) == OperationCursor(n) ensures i + 1 == n {
      F.CursorTextInjective("operation", events[i].cursor, n);
    }
    assert 1 <= n <= |events| ==> events[n - 1].cursor == n;
  }

  // ----- Script validation -----

  /** Checks on a failure and on a cursor that concern only their own form. */
  datatype Shapes = Shapes(failure: FailureCode -> bool, cursor: string -> bool)

  predicate ValidStep(shapes: Shapes, step: ScriptedStep) {
    && step.at >= 0
    && (step.failure.Some? ==> shapes.failure(step.failure.value))
    && (step.gap.Some? ==>
          shapes.cursor(step.gap.value.earliestRetained) && 1 <= |step.gap.value.reason| <= 256)
  }

  /** Times strictly increase and only the last step may be terminal. */
  predicate ValidScript(shapes: Shapes, script: seq<ScriptedStep>) {
    && (forall i :: 0 <= i < |script| ==> ValidStep(shapes, script[i]))
    && (forall i, j :: 0 <= i < j < |script| ==> script[i].at < script[j].at && !Terminal(script[i].state))
  }

  method ValidateScript(shapes: Shapes, script: seq<ScriptedStep>) returns (ok: bool)
    ensures ok <==> ValidScript(shapes, script)
  {
    var previous := 0;
    for index := 0 to |script|
      invariant forall i :: 0 <= i < index ==> ValidStep(shapes, script[i]) && script[i].at <= previous
      invariant forall i, j :: 0 <= i < j < index ==> script[i].at < script[j].at && !Terminal(script[i].state)
      invariant index > 0 ==> previous == script[index - 1].at
    {
      var step := script[index];
      if !ValidStep(shapes, step) || (index > 0 && step.at <= previous) {
        return false;
      }
      if index > 0 && Terminal(script[index - 1].state) {
        return false;
      }
      previous := step.at;
    }
    ok := true;
  }

  method ValidateScripts(shapes: Shapes, scripts: map<string, seq<ScriptedStep>>) returns (ok: bool)
    ensures ok <==> forall id :: id in scripts ==> ValidOperationId(id) && ValidScript(shapes, scripts[id])
  {
    var rest := scripts.Keys;
    while rest != {}
      invariant rest <= scripts.Keys
      invariant forall id :: id in scripts && id !in rest ==> ValidOperationId(id) && ValidScript(shapes, scripts[id])
      decreases |rest|
    {
      var id :| id in rest;
      if !ValidOperationId(id) {
        return false;
      }
      var valid := ValidateScript(shapes, scripts[id]);
      if !valid {
        return false;
      }
      rest := rest - {id};
    }
    ok := true;
  }
}
