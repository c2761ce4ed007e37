/**
 * Many controllers racing to record one request's terminal status.
 *
 * Each controller reads the object, verifies, reads again and writes the status conditionally on the
 * version it read; a conflict is resolved by one more read.  The steps below are the points at which
 * a controller meets the API server, so any interleaving of any number of controllers is a run.
 */
module Agreement {
  import opened SandboxTypes
  import opened Backfill

  const MAXIMUM_GENERATION: nat := 0x7fff_ffff_ffff_ffff

  datatype CrRequest = CrRequest(name: Text, uid: Text, generation: nat, spec: Request)

  datatype CrStatus = CrStatus(
    phase: Phase, requestUid: Text, observedGeneration: nat, controllerImageDigest: Text, requestDigest: Text,
    snapshotFingerprint: Text, snapshotCount: nat, manifestDigest: Text, staticReadinessDigest: Text,
    verifiedCount: nat, reason: Reason, completedAt: Time)

  /** The request's digest and derived name, as functions of the request. */
  datatype Params = Params(lib: Library, digestOf: Request -> Text, nameOf: Text -> Text)

  /** The resource's rule for UIDs. */
  predicate CrUid(uid: Text) {
    0 < |uid| <= 128 && UidChar(uid[0]) && forall i :: 0 < i < |uid| ==> UidChar(uid[i]) || uid[i] == 45
  }

  /** A UID the resource accepts is one the archive accepts exactly when it does not end in a dash. */
  lemma ArchiveUidRule(uid: Text)
    ensures ArchiveUid(uid) <==> CrUid(uid) && uid[|uid| - 1] != 45
  {
    if ArchiveUid(uid) {
      assert UidChar(uid[0]);
      assert UidChar(uid[|uid| - 1]);
    }
  }

  predicate ValidCr(p: Params, r: CrRequest) {
    && ValidRequest(p.lib, r.spec) && r.name == p.nameOf(p.digestOf(r.spec))
    && (if r.uid == [] then r.generation == 0 else CrUid(r.uid) && 0 < r.generation <= MAXIMUM_GENERATION)
  }

  function Core(s: CrStatus): Status {
    Status(s.phase, s.requestDigest, s.snapshotFingerprint, s.snapshotCount, s.reason, s.completedAt)
  }

  function CrOf(r: CrRequest, s: Status): CrStatus {
    CrStatus(s.phase, r.uid, r.generation, r.spec.controllerImageDigest, s.requestDigest, s.snapshotFingerprint,
             s.snapshotCount, r.spec.manifestDigest, r.spec.staticReadinessDigest,
             if s.phase.Verified? then r.spec.snapshotCount else 0, s.reason, s.completedAt)
  }

  predicate CrValidFor(p: Params, s: CrStatus, r: CrRequest, now: Time) {
    && ValidCr(p, r) && CrUid(r.uid) && 0 < r.generation <= MAXIMUM_GENERATION
    && s.requestUid == r.uid && s.observedGeneration == r.generation
    && s.controllerImageDigest == r.spec.controllerImageDigest && s.requestDigest == p.digestOf(r.spec)
    && s.snapshotFingerprint == r.spec.snapshotFingerprint && s.snapshotCount == r.spec.snapshotCount
    && s.manifestDigest == r.spec.manifestDigest && s.staticReadinessDigest == r.spec.staticReadinessDigest
    && s.verifiedCount <= r.spec.snapshotCount
    && (if s.phase.Pending? || s.phase.Verifying? then s.reason.NoReason? && s.completedAt == 0
        else
          && ValidFor(p.lib, p.digestOf(r.spec), Core(s), r.spec, now)
          && (s.phase.Verified? ==> s.verifiedCount == r.spec.snapshotCount))
  }

  /** Projecting a verdict to the resource and back loses nothing. */
  lemma CoreOfCr(r: CrRequest, s: Status)
    ensures Core(CrOf(r, s)) == s
  {
  }

  // ----- The API server and the controllers -----

  datatype Object = Object(version: nat, request: CrRequest, status: Option<CrStatus>)

  /** What a controller makes of an object it was given. */
  datatype Observed = Unusable | Open(base: Object) | Terminal(status: CrStatus)

  function Observe(p: Params, r: CrRequest, held: Option<Object>): Observed {
    if held.None? || held.value.request != r || !ValidCr(p, r) then Unusable
    else
      match held.value.status
      case None => Open(held.value)
      case Some(s) =>
        if IsTerminal(s.phase) then (if CrValidFor(p, s, r, s.completedAt) then Terminal(s) else Unusable)
        else if CrValidFor(p, s, r, 0) then Open(held.value) else Unusable
  }

  /** Where one controller is in its reconcile pass; `Failed` is any error return. */
  datatype Local =
    | Idle
    | Reading(now: Time)
    | Checking(now: Time)
    | Recording(now: Time, candidate: CrStatus, evidence: Evidence)
    | Updating(now: Time, candidate: CrStatus, evidence: Evidence, base: Object)
    | Resolving(now: Time)
    | Done(result: Status)
    | Failed

  datatype Stored = Stored(status: CrStatus, evidence: Evidence)

  /**
   * `history` lists every terminal status the server has stored for the request, `returned` every
   * reconcile's result.
   */
  datatype State = State(server: Option<Object>, revision: nat, locals: map<nat, Local>, history: seq<Stored>,
        returned: seq<Status>)

  function At(s: State, c: nat): Local {
    if c in s.locals then s.locals[c] else Idle
  }

  function Put(s: State, c: nat, local: Local): State {
    s.(locals := s.locals[c := local])
  }

  /** The last checks of a pass on the status it is about to return. */
  function Finish(p: Params, r: CrRequest, s: State, c: nat, now: Time, status: CrStatus): State {
    if CrValidFor(p, status, r, now) && IsTerminal(status.phase)
       && ValidFor(p.lib, p.digestOf(r.spec), Core(status), r.spec, now)
    then Put(s, c, Done(Core(status))).(returned := s.returned + [Core(status)])
    else Put(s, c, Failed)
  }

  datatype Step =
    | Start(c: nat, now: Time, imageDigest: Text)
    | Get(c: nat, ok: bool)
    | Check(c: nat, evidence: Evidence)
    | UpdateStatus(c: nat, applied: bool, answered: bool)
    | Die(c: nat)
    | Touch
    | WriteNonterminal(status: CrStatus)
    | Delete
    | Recreate(request: CrRequest, initial: Option<CrStatus>)

  function GetStep(p: Params, r: CrRequest, s: State, c: nat, ok: bool): State {
    var seen := if ok then Observe(p, r, s.server) else Unusable;
    match At(s, c)
    case Reading(now) =>
      (match seen
       case Unusable => Put(s, c, Failed)
       case Terminal(status) => Finish(p, r, s, c, now, status)
       case Open(base) => Put(s, c, Checking(now)))
    case Recording(now, candidate, evidence) =>
      (match seen
       case Unusable => Put(s, c, Failed)
       case Terminal(status) => Finish(p, r, s, c, now, status)
       case Open(base) => Put(s, c, Updating(now, candidate, evidence, base)))
    case Resolving(now) =>
      (match seen
       case Terminal(status) => Finish(p, r, s, c, now, status)
       case _ => Put(s, c, Failed))
    case _ => s
  }

  function CheckStep(p: Params, r: CrRequest, s: State, c: nat, evidence: Evidence): State {
    match At(s, c)
    case Checking(now) =>
      (match Verdicts(p.lib, p.digestOf(r.spec), r.spec, evidence, now)
       case None => Put(s, c, Failed)
       case Some(status) =>
         var candidate := CrOf(r, status);
         if CrValidFor(p, candidate, r, candidate.completedAt) then Put(s, c, Recording(now, candidate, evidence))
         else Put(s, c, Failed))
    case _ => s
  }

  /**
   * The conditional write.  The server may fail before applying it, or apply it and fail to answer;
   * a version that has moved on is a conflict.
   */
  function UpdateStep(p: Params, r: CrRequest, s: State, c: nat, applied: bool, answered: bool): State {
    match At(s, c)
    case Updating(now, candidate, evidence, base) =>
      if !applied || s.server.None? then Put(s, c, Failed)
      else if s.server.value.version != base.version then Put(s, c, if answered then Resolving(now) else Failed)
      else
        var written := s.(server := Some(Object(s.revision + 1, base.request, Some(candidate))),
              revision := s.revision + 1,
                          history := s.history + [Stored(candidate, evidence)]);
        if answered then Finish(p, r, written, c, now, candidate) else Put(written, c, Failed)
    case _ => s
  }

  function Next(p: Params, r: CrRequest, s: State, step: Step): State {
    match step
    case Start(c, now, imageDigest) =>
      if imageDigest == r.spec.controllerImageDigest && r.uid != [] && r.generation != 0 && ValidCr(p, r)
      then Put(s, c, Reading(now)) else Put(s, c, Failed)
    case Get(c, ok) => GetStep(p, r, s, c, ok)
    case Check(c, evidence) => CheckStep(p, r, s, c, evidence)
    case UpdateStatus(c, applied, answered) => UpdateStep(p, r, s, c, applied, answered)
    case Die(c) => Put(s, c, Idle)
    case Touch =>
      if s.server.None? then s
      else s.(server := Some(s.server.value.(version := s.revision + 1)), revision := s.revision + 1)
    case WriteNonterminal(status) =>
      if s.server.None? || IsTerminal(status.phase)
         || (s.server.value.status.Some? && IsTerminal(s.server.value.status.value.phase)) then s
      else s.(server := Some(s.server.value.(version := s.revision + 1, status := Some(status))),
            revision := s.revision + 1)
    case Delete => s.(server := None)
    case Recreate(request, status) =>
      if s.server.Some? || request.uid == r.uid then s
      else s.(server := Some(Object(s.revision + 1, request, status)), revision := s.revision + 1)
  }

  function Run(p: Params, r: CrRequest, s: State, steps: seq<Step>): State
    decreases |steps|
  {
    if steps == [] then s else Run(p, r, Next(p, r, s, steps[0]), steps[1..])
  }

  function Created(r: CrRequest): State {
    State(Some(Object(1, r, None)), 1, map[], [], [])
  }

  // ----- What every step keeps -----

  predicate NonterminalObject(o: Object) {
    o.status.Some? ==> !IsTerminal(o.status.value.phase)
  }

  /** A status worth storing: valid when completed, and the verdict on the evidence at that time. */
  ghost predicate Worthy(p: Params, r: CrRequest, status: CrStatus, evidence: Evidence) {
    && IsTerminal(status.phase) && CrValidFor(p, status, r, status.completedAt)
    && Verdicts(p.lib, p.digestOf(r.spec), r.spec, evidence, status.completedAt) == Some(Core(status))
  }

  /** While the request's object exists, its status is terminal exactly when the history has its one entry. */
  ghost predicate ServerOk(r: CrRequest, s: State) {
    && (s.server.Some? ==> s.server.value.version <= s.revision)
    && (s.server.Some? && s.server.value.request == r ==>
          if NonterminalObject(s.server.value) then s.history == []
          else |s.history| == 1 && s.server.value.status == Some(s.history[0].status))
  }

  /**
   * A controller about to write holds a worthy candidate and an object that is still unfinished if its
   * version is current.
   */
  ghost predicate LocalOk(p: Params, r: CrRequest, s: State, local: Local) {
    match local
    case Recording(now, candidate, evidence) => Worthy(p, r, candidate, evidence) && candidate.completedAt == now
    case Updating(now, candidate, evidence, base) =>
      && Worthy(p, r, candidate, evidence) && candidate.completedAt == now
      && base.request == r && base.version <= s.revision && NonterminalObject(base)
      && (s.server.Some? && s.server.value.version == base.version ==> s.server == Some(base))
    case _ => true
  }

  /** Every reconcile that succeeded returned the one stored status. */
  predicate ReturnsOk(s: State) {
    s.returned == [] || (s.history != [] && forall k :: 0 <= k < |s.returned| ==>
          s.returned[k] == Core(s.history[0].status))
  }

  ghost predicate Inv(p: Params, r: CrRequest, s: State) {
    && ServerOk(r, s)
    && |s.history| <= 1
    && (forall k :: 0 <= k < |s.history| ==> Worthy(p, r, s.history[k].status, s.history[k].evidence))
    && ReturnsOk(s)
    && (forall c :: c in s.locals ==> LocalOk(p, r, s, s.locals[c]))
  }

  lemma PutKeepsInv(p: Params, r: CrRequest, s: State, c: nat, local: Local)
    requires Inv(p, r, s) && LocalOk(p, r, s, local)
    ensures Inv(p, r, Put(s, c, local))
  {
    hide Worthy;
    var after := Put(s, c, local);
    forall d | d in after.locals ensures LocalOk(p, r, after, after.locals[d]) {
      if d != c {
        assert LocalOk(p, r, s, s.locals[d]);
      }
    }
  }

  /** Returning the one stored status keeps the invariant. */
  lemma FinishKeepsInv(p: Params, r: CrRequest, s: State, c: nat, now: Time, status: CrStatus)
    requires Inv(p, r, s) && s.history != [] && status == s.history[0].status
    ensures Inv(p, r, Finish(p, r, s, c, now, status))
  {
    hide Worthy;
    hide CrValidFor;
    hide ValidFor;
    PutKeepsInv(p, r, s, c, Done(Core(status)));
    PutKeepsInv(p, r, s, c, Failed);
    var done := Put(s, c, Done(Core(status)));
    var after := done.(returned := s.returned + [Core(status)]);
    forall d | d in after.locals ensures LocalOk(p, r, after, after.locals[d]) {
      assert LocalOk(p, r, done, done.locals[d]);
    }
  }

  /** A server step that moves the revision on and leaves a consistent server is harmless to every controller. */
  lemma ServerStepKeepsInv(p: Params, r: CrRequest, s: State, after: State)
    requires Inv(p, r, s) && after.locals == s.locals && after.returned == s.returned && ServerOk(r, after)
    requires after.history == s.history ||
             (s.history == [] && |after.history| == 1
                   && Worthy(p, r, after.history[0].status, after.history[0].evidence))
    requires s.revision <= after.revision
    requires after.server.Some? ==> after.server.value.version > s.revision
    ensures Inv(p, r, after)
  {
    hide Worthy;
    forall d | d in after.locals ensures LocalOk(p, r, after, after.locals[d]) {
      assert LocalOk(p, r, s, s.locals[d]);
    }
  }

  lemma CheckKeepsInv(p: Params, r: CrRequest, s: State, c: nat, evidence: Evidence)
    requires Inv(p, r, s)
    ensures Inv(p, r, CheckStep(p, r, s, c, evidence))
  {
    hide CrValidFor;
    if At(s, c).Checking? {
      var now := At(s, c).now;
      PutKeepsInv(p, r, s, c, Failed);
      var verdict := Verdicts(p.lib, p.digestOf(r.spec), r.spec, evidence, now);
      if verdict.Some? {
        VerdictIsTerminal(p.lib, p.digestOf(r.spec), r.spec, evidence, now);
        hide Verdicts;
        hide Inv;
        var candidate := CrOf(r, verdict.value);
        CoreOfCr(r, verdict.value);
        if CrValidFor(p, candidate, r, candidate.completedAt) {
          PutKeepsInv(p, r, s, c, Recording(now, candidate, evidence));
        }
      }
    }
  }

  lemma VerdictIsTerminal(lib: Library, digest: Text, r: Request, evidence: Evidence, now: Time)
    requires Verdicts(lib, digest, r, evidence, now).Some?
    ensures IsTerminal(Verdicts(lib, digest, r, evidence, now).value.phase)
    ensures Verdicts(lib, digest, r, evidence, now).value.completedAt == now
  {
    var status := Status(OtherPhase([]), digest, r.snapshotFingerprint, r.snapshotCount, NoReason, now);
    if evidence.read.ReadOk? {
      VerdictFromShape(status, evidence, evidence.read.frozen.revisions, 0);
    }
  }

  lemma GetKeepsInv(p: Params, r: CrRequest, s: State, c: nat, ok: bool)
    requires Inv(p, r, s)
    ensures Inv(p, r, GetStep(p, r, s, c, ok))
  {
    hide CrValidFor;
    hide Worthy;
    hide Finish;
    var seen := if ok then Observe(p, r, s.server) else Unusable;
    PutKeepsInv(p, r, s, c, Failed);
    if seen.Terminal? {
      var local := At(s, c);
      if local.Reading? || local.Recording? || local.Resolving? {
        FinishKeepsInv(p, r, s, c, local.now, seen.status);
      }
    } else if seen.Open? {
      match At(s, c)
      case Reading(now) =>
        PutKeepsInv(p, r, s, c, Checking(now));
      case Recording(now, candidate, evidence) =>
        assert LocalOk(p, r, s, s.locals[c]);
        PutKeepsInv(p, r, s, c, Updating(now, candidate, evidence, seen.base));
      case _ =>
    }
  }

  lemma UpdateKeepsInv(p: Params, r: CrRequest, s: State, c: nat, applied: bool, answered: bool)
    requires Inv(p, r, s)
    ensures Inv(p, r, UpdateStep(p, r, s, c, applied, answered))
  {
    hide Finish;
    match At(s, c)
    case Updating(now, candidate, evidence, base) =>
      PutKeepsInv(p, r, s, c, Failed);
      PutKeepsInv(p, r, s, c, Resolving(now));
      assert LocalOk(p, r, s, s.locals[c]);
      if applied && s.server.Some? && s.server.value.version == base.version {
        var written := s.(server := Some(Object(s.revision + 1, base.request, Some(candidate))),
              revision := s.revision + 1,
                          history := s.history + [Stored(candidate, evidence)]);
        ServerStepKeepsInv(p, r, s, written);
        PutKeepsInv(p, r, written, c, Failed);
        FinishKeepsInv(p, r, written, c, now, candidate);
      }
    case _ =>
  }

  lemma NextKeepsInv(p: Params, r: CrRequest, s: State, step: Step)
    requires Inv(p, r, s)
    ensures Inv(p, r, Next(p, r, s, step))
  {
    hide ValidCr;
    hide Worthy;
    hide GetStep;
    hide CheckStep;
    hide UpdateStep;
    match step
    case Start(c, now, imageDigest) =>
      PutKeepsInv(p, r, s, c, Reading(now));
      PutKeepsInv(p, r, s, c, Failed);
    case Get(c, ok) => GetKeepsInv(p, r, s, c, ok);
    case Check(c, evidence) => CheckKeepsInv(p, r, s, c, evidence);
    case UpdateStatus(c, applied, answered) => UpdateKeepsInv(p, r, s, c, applied, answered);
    case Die(c) => PutKeepsInv(p, r, s, c, Idle);
    case _ =>
      var after := Next(p, r, s, step);
      if after != s {
        ServerStepKeepsInv(p, r, s, after);
      }
  }

  lemma {:induction false} RunKeepsInv(p: Params, r: CrRequest, s: State, steps: seq<Step>)
    requires Inv(p, r, s)
    ensures Inv(p, r, Run(p, r, s, steps))
    decreases |steps|
  {
    if steps != [] {
      NextKeepsInv(p, r, s, steps[0]);
      RunKeepsInv(p, r, Next(p, r, s, steps[0]), steps[1..]);
    }
  }

  /**
   * Agreement, over every interleaving: at most one terminal status is ever stored for the request,
   * every successful reconcile returns exactly it, it is the verdict on one controller's evidence, and
   * it says Verified only if that verifier accepted all SnapshotCount revisions of a matching snapshot.
   */
  lemma OneTerminalStatus(p: Params, r: CrRequest, steps: seq<Step>)
    ensures var s := Run(p, r, Created(r), steps);
            && |s.history| <= 1
            && ReturnsOk(s)
            && (s.history != [] ==>
                  var status, evidence := s.history[0].status, s.history[0].evidence;
                  && Verdicts(p.lib, p.digestOf(r.spec), r.spec, evidence, status.completedAt) == Some(Core(status))
                  && (status.phase.Verified? ==> AllAccepted(r.spec, evidence)))
            && (s.history != [] && s.server.Some? && s.server.value.request == r ==>
                  s.server.value.status == Some(s.history[0].status))
  {
    RunKeepsInv(p, r, Created(r), steps);
    var s := Run(p, r, Created(r), steps);
    if s.history != [] && s.history[0].status.phase.Verified? {
      VerifiedMeansAllAccepted(p.lib, p.digestOf(r.spec), r.spec, s.history[0].evidence,
                               s.history[0].status.completedAt);
    }
    hide Run;
    hide Verdicts;
    hide AllAccepted;
  }

  /** What has been stored stays stored: later steps never change a non-empty history. */
  lemma {:induction false} HistoryIsFinal(p: Params, r: CrRequest, s: State, steps: seq<Step>)
    requires Inv(p, r, s) && s.history != []
    ensures Run(p, r, s, steps).history == s.history
    decreases |steps|
  {
    if steps != [] {
      NextKeepsInv(p, r, s, steps[0]);
      HistoryGrows(p, r, s, steps[0]);
      HistoryIsFinal(p, r, Next(p, r, s, steps[0]), steps[1..]);
    }
  }

  lemma HistoryGrows(p: Params, r: CrRequest, s: State, step: Step)
    ensures s.history <= Next(p, r, s, step).history
  {
    hide CrValidFor;
    hide ValidFor;
    hide Verdicts;
  }

  /** A verdict at a non-zero time is a status the resource accepts, at that time. */
  lemma VerdictFitsResource(p: Params, r: CrRequest, evidence: Evidence, now: Time)
    requires ValidCr(p, r) && r.uid != [] && now != 0
    requires Verdicts(p.lib, p.digestOf(r.spec), r.spec, evidence, now).Some?
    ensures var verdict := Verdicts(p.lib, p.digestOf(r.spec), r.spec, evidence, now).value;
            IsTerminal(verdict.phase) && verdict.completedAt == now && CrValidFor(p, CrOf(r, verdict), r, now)
  {
    VerdictStands(p.lib, p.digestOf(r.spec), r.spec, evidence, now, now);
    VerdictIsTerminal(p.lib, p.digestOf(r.spec), r.spec, evidence, now);
    var status := Status(OtherPhase([]), p.digestOf(r.spec), r.spec.snapshotFingerprint, r.spec.snapshotCount,
          NoReason, now);
    if evidence.read.ReadOk? {
      VerdictFromShape(status, evidence, evidence.read.frozen.revisions, 0);
    }
  }

  // ----- What a pass comes to -----

  /** A stored verdict stands from its completion on: expired or not-admitted for ever, any other until expiry. */
  predicate Stands(r: CrRequest, status: CrStatus, now: Time) {
    status.completedAt <= now && (status.reason.Expired? || status.reason.NotAdmitted? || now < r.spec.expiresAt)
  }

  /** A terminal status valid when it was completed is valid at a later reading exactly while it stands. */
  lemma StandsExactly(p: Params, r: CrRequest, status: CrStatus, now: Time)
    requires IsTerminal(status.phase) && CrValidFor(p, status, r, status.completedAt)
    ensures CrValidFor(p, status, r, now) <==> Stands(r, status, now)
  {
  }

  /** The server still holds the request's own object. */
  predicate Present(r: CrRequest, s: State) {
    s.server.Some? && s.server.value.request == r
  }

  /** The pass of c has come to the winner: it returns the stored verdict if that stands, and fails if not. */
  ghost predicate ReturnsWinner(r: CrRequest, s: State, after: State, c: nat, now: Time)
    requires s.history != []
  {
    var winner := s.history[0].status;
    if Stands(r, winner, now)
    then after.returned == s.returned + [Core(winner)] && At(after, c) == Done(Core(winner))
    else after.returned == s.returned && At(after, c) == Failed
  }

  /** A reader that finds a terminal status, at whichever of its three reads, is done with it. */
  lemma ReadFindsWinner(p: Params, r: CrRequest, s: State, c: nat)
    requires Inv(p, r, s) && s.history != [] && Present(r, s)
    requires At(s, c).Reading? || At(s, c).Recording? || At(s, c).Resolving?
    ensures ReturnsWinner(r, s, Next(p, r, s, Get(c, true)), c, At(s, c).now)
    ensures Next(p, r, s, Get(c, true)).history == s.history && Next(p, r, s, Get(c, true)).server == s.server
  {
    var winner := s.history[0].status;
    assert Worthy(p, r, winner, s.history[0].evidence);
    var now := At(s, c).now;
    StandsExactly(p, r, winner, now);
    if CrValidFor(p, winner, r, now) {
      FinishSucceeds(p, r, winner, now);
    }
    assert ValidCr(p, r);
    hide CrValidFor;
    hide ValidFor;
    hide ValidCr;
    hide Worthy;
    hide LocalOk;
  }

  /** A later pass, whatever came before, returns the stored verdict while it stands. */
  lemma LaterPassReturnsWinner(p: Params, r: CrRequest, steps: seq<Step>, c: nat, now: Time)
    requires ValidCr(p, r) && r.uid != [] && r.generation != 0
    requires var s := Run(p, r, Created(r), steps); s.history != [] && Present(r, s)
    ensures var s := Run(p, r, Created(r), steps);
            ReturnsWinner(r, s, Run(p, r, s, [Start(c, now, r.spec.controllerImageDigest), Get(c, true)]), c, now)
  {
    var s := Run(p, r, Created(r), steps);
    RunKeepsInv(p, r, Created(r), steps);
    hide Run;
    hide Inv;
    hide Verdicts;
    var started := Next(p, r, s, Start(c, now, r.spec.controllerImageDigest));
    NextKeepsInv(p, r, s, Start(c, now, r.spec.controllerImageDigest));
    ReadFindsWinner(p, r, started, c);
    RunPair(p, r, s, Start(c, now, r.spec.controllerImageDigest), Get(c, true));
  }

  /** A controller that lost the race, having read before the winner wrote, returns the winner's verdict too. */
  lemma LoserReturnsWinner(p: Params, r: CrRequest, steps: seq<Step>, c: nat)
    requires var s := Run(p, r, Created(r), steps);
             s.history != [] && Present(r, s) && At(s, c).Updating?
    ensures var s := Run(p, r, Created(r), steps);
            ReturnsWinner(r, s, Run(p, r, s, [UpdateStatus(c, true, true), Get(c, true)]), c, At(s, c).now)
  {
    var s := Run(p, r, Created(r), steps);
    RunKeepsInv(p, r, Created(r), steps);
    assert LocalOk(p, r, s, s.locals[c]);
    hide Run;
    var conflicted := Next(p, r, s, UpdateStatus(c, true, true));
    assert conflicted == Put(s, c, Resolving(At(s, c).now));
    NextKeepsInv(p, r, s, UpdateStatus(c, true, true));
    hide Inv;
    hide LocalOk;
    ReadFindsWinner(p, r, conflicted, c);
    RunPair(p, r, s, UpdateStatus(c, true, true), Get(c, true));
  }

  /** A controller whose write goes through returns its own verdict, and that is what is stored. */
  lemma WinnerReturnsOwn(p: Params, r: CrRequest, steps: seq<Step>, c: nat)
    requires var s := Run(p, r, Created(r), steps);
             At(s, c).Updating? && s.server.Some? && s.server.value.version == At(s, c).base.version
    ensures var s := Run(p, r, Created(r), steps);
            var after := Next(p, r, s, UpdateStatus(c, true, true));
            && s.history == [] && after.history == [Stored(At(s, c).candidate, At(s, c).evidence)]
            && after.returned == s.returned + [Core(At(s, c).candidate)]
            && Present(r, after) && after.server.value.status == Some(At(s, c).candidate)
  {
    var s := Run(p, r, Created(r), steps);
    RunKeepsInv(p, r, Created(r), steps);
    hide Run;
    assert LocalOk(p, r, s, s.locals[c]);
    FinishSucceeds(p, r, At(s, c).candidate, At(s, c).now);
    hide CrValidFor;
    hide ValidFor;
    hide Verdicts;
  }

  /** A pass with another controller image stops at once, and stays stopped until it is started again. */
  lemma {:induction false} MisconfiguredPassFails(p: Params, r: CrRequest, s: State, c: nat, steps: seq<Step>)
    requires At(s, c).Failed? || At(s, c).Idle?
    requires forall k :: 0 <= k < |steps| && steps[k].Start? && steps[k].c == c ==>
               steps[k].imageDigest != r.spec.controllerImageDigest
    ensures At(Run(p, r, s, steps), c).Failed? || At(Run(p, r, s, steps), c).Idle?
    decreases |steps|
  {
    if steps != [] {
      StaysStopped(p, r, s, c, steps[0]);
      hide Next;
      MisconfiguredPassFails(p, r, Next(p, r, s, steps[0]), c, steps[1..]);
    }
  }

  lemma StaysStopped(p: Params, r: CrRequest, s: State, c: nat, step: Step)
    requires At(s, c).Failed? || At(s, c).Idle?
    requires step.Start? && step.c == c ==> step.imageDigest != r.spec.controllerImageDigest
    ensures At(Next(p, r, s, step), c).Failed? || At(Next(p, r, s, step), c).Idle?
  {
    hide CrValidFor;
    hide ValidFor;
    hide Verdicts;
    hide Observe;
    hide ValidCr;
  }

  /** An object no controller has finished: no status yet, or a valid non-terminal one. */
  predicate Unfinished(p: Params, r: CrRequest, status: Option<CrStatus>) {
    status.Some? ==> !IsTerminal(status.value.phase) && CrValidFor(p, status.value, r, 0)
  }

  /** A controller left alone on an unfinished object, in whatever company, stores and returns its own verdict. */
  lemma UncontendedReconcile(p: Params, r: CrRequest, s0: State, c: nat, evidence: Evidence, now: Time)
    requires ValidCr(p, r) && r.uid != [] && now != 0
    requires s0.server.Some? && s0.server.value.request == r && Unfinished(p, r, s0.server.value.status)
    requires Verdicts(p.lib, p.digestOf(r.spec), r.spec, evidence, now).Some?
    ensures var verdict := Verdicts(p.lib, p.digestOf(r.spec), r.spec, evidence, now).value;
            var s := Run(p, r, s0, LonePass(r, c, evidence, now));
            && s.returned == s0.returned + [verdict] && s.history == s0.history + [Stored(CrOf(r, verdict), evidence)]
            && Present(r, s) && s.server.value.status == Some(CrOf(r, verdict))
  {
    var verdict := Verdicts(p.lib, p.digestOf(r.spec), r.spec, evidence, now).value;
    VerdictFitsResource(p, r, evidence, now);
    var candidate := CrOf(r, verdict);
    CoreOfCr(r, verdict);
    FinishSucceeds(p, r, candidate, now);
    assert Observe(p, r, s0.server) == Open(s0.server.value);
    assert ValidCr(p, r) && r.generation != 0;
    hide CrValidFor;
    hide ValidFor;
    hide Verdicts;
    hide ValidCr;
    hide Observe;
    var s1 := Next(p, r, s0, Start(c, now, r.spec.controllerImageDigest));
    assert At(s1, c) == Reading(now);
    var s2 := Next(p, r, s1, Get(c, true));
    assert At(s2, c) == Checking(now);
    var s3 := Next(p, r, s2, Check(c, evidence));
    assert At(s3, c) == Recording(now, candidate, evidence);
    var s4 := Next(p, r, s3, Get(c, true));
    assert At(s4, c) == Updating(now, candidate, evidence, s0.server.value);
    RunThree(p, r, s2, Check(c, evidence), Get(c, true), UpdateStatus(c, true, true));
    RunTwo(p, r, s0, Start(c, now, r.spec.controllerImageDigest), Get(c, true),
           [Check(c, evidence), Get(c, true), UpdateStatus(c, true, true)]);
  }

  function LonePass(r: CrRequest, c: nat, evidence: Evidence, now: Time): seq<Step> {
    [Start(c, now, r.spec.controllerImageDigest), Get(c, true)]
    + [Check(c, evidence), Get(c, true), UpdateStatus(c, true, true)]
  }

  /** What the resource accepts of a terminal status, the reconciler's last check accepts too. */
  lemma FinishSucceeds(p: Params, r: CrRequest, status: CrStatus, now: Time)
    requires CrValidFor(p, status, r, now) && IsTerminal(status.phase)
    ensures ValidFor(p.lib, p.digestOf(r.spec), Core(status), r.spec, now)
  {
  }

  lemma RunTwo(p: Params, r: CrRequest, s: State, a: Step, b: Step, rest: seq<Step>)
    ensures Run(p, r, s, [a, b] + rest) == Run(p, r, Next(p, r, Next(p, r, s, a), b), rest)
  {
    hide Next;
    var steps := [a, b] + rest;
    assert steps[1..] == [b] + rest && ([b] + rest)[1..] == rest;
  }

  lemma RunPair(p: Params, r: CrRequest, s: State, a: Step, b: Step)
    ensures Run(p, r, s, [a, b]) == Next(p, r, Next(p, r, s, a), b)
  {
    hide Next;
    RunTwo(p, r, s, a, b, []);
    assert [a, b] + [] == [a, b];
  }

  lemma RunThree(p: Params, r: CrRequest, s: State, a: Step, b: Step, c: Step)
    ensures Run(p, r, s, [a, b, c]) == Next(p, r, Next(p, r, Next(p, r, s, a), b), c)
  {
    hide Next;
    RunTwo(p, r, s, a, b, [c]);
    assert [a, b] + [c] == [a, b, c];
  }

  // ----- What a pass cannot use -----

  /** The status does not belong to the request, or its phase and fields disagree. */
  predicate Misfits(p: Params, r: CrRequest, t: CrStatus) {
    || t.requestUid != r.uid || t.observedGeneration != r.generation
    || t.controllerImageDigest != r.spec.controllerImageDigest || t.requestDigest != p.digestOf(r.spec)
    || t.snapshotFingerprint != r.spec.snapshotFingerprint || t.snapshotCount != r.spec.snapshotCount
    || t.manifestDigest != r.spec.manifestDigest || t.staticReadinessDigest != r.spec.staticReadinessDigest
    || t.verifiedCount > t.snapshotCount
    || (match t.phase
        case Verified => t.verifiedCount != t.snapshotCount || t.reason != NoReason || t.completedAt == 0
        case Refused => !ValidReason(t.reason) || t.completedAt == 0
        case Pending => t.reason != NoReason || t.completedAt != 0
        case Verifying => t.reason != NoReason || t.completedAt != 0
        case OtherPhase(_) => true)
  }

  /**
   * A pass that reads fails, and returns nothing, when the call fails, when the object is gone or is another
   * request's, and when a status is stored that misfits; a stored nonterminal status that does not misfit
   * lets the pass go on.
   */
  lemma ReadFails(p: Params, r: CrRequest, s: State, c: nat, now: Time, ok: bool)
    requires At(s, c) == Reading(now) && ValidCr(p, r) && CrUid(r.uid)
    ensures var after := Next(p, r, s, Get(c, ok));
            var stored := if Present(r, s) then s.server.value.status else None;
            && after.server == s.server && after.history == s.history
            && (!ok || !Present(r, s) || (stored.Some? && Misfits(p, r, stored.value)) ==>
                  At(after, c) == Failed && after.returned == s.returned)
            && (ok && Present(r, s) && (stored.None? ||
                  (!IsTerminal(stored.value.phase) && !Misfits(p, r, stored.value))) ==>
                  At(after, c) == Checking(now) && after.returned == s.returned)
  {
    hide ValidRequest;
  }

  /** A call whose answer is lost ends the pass without a result, even where its write took effect. */
  lemma LostAnswerFails(p: Params, r: CrRequest, s: State, c: nat, step: Step)
    requires || (step == Get(c, false) && (At(s, c).Reading? || At(s, c).Recording? || At(s, c).Resolving?))
             || (step.UpdateStatus? && step.c == c && !step.answered && At(s, c).Updating?)
    ensures At(Next(p, r, s, step), c) == Failed && Next(p, r, s, step).returned == s.returned
  {
  }

  /** The resource's status of a verdict: the request's own fields, and a count of verified revisions. */
  lemma CrFields(r: CrRequest, s: Status)
    ensures var t := CrOf(r, s);
            && t.requestUid == r.uid && t.observedGeneration == r.generation
            && t.controllerImageDigest == r.spec.controllerImageDigest && t.manifestDigest == r.spec.manifestDigest
            && t.staticReadinessDigest == r.spec.staticReadinessDigest
            && t.verifiedCount == (if s.phase.Verified? then r.spec.snapshotCount else 0)
  {
  }
}
