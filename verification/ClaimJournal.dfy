/**
 * The durable create claim of one direct-launch plan.
 *
 * The journal is replaced by writing a temporary file, syncing it, renaming it over the journal and
 * syncing the directory.  A process may be killed between any two of these steps, and power may be
 * lost at any time.  `after` lists what a directory entry may turn out to be after power loss: every
 * value it has had since it was last made durable.
 */
module ClaimJournal {
  import opened Bytes
  import opened SandboxTypes

  const VERSION := "firecracker.direct-launch-ownership/v1"

  datatype Record = Record(
    version: string, sandboxId: string, createOperationId: string, hostId: string, hostGeneration: nat,
    tenant: string, principal: string, effectiveSpecDigest: string, capabilityDigest: string,
    canonicalRequestDigest: string, payloadDigest: string, planDigest: string)

  predicate ValidRecord(record: Record, plan: string) {
    && record.version == VERSION && record.sandboxId != "" && record.createOperationId != "" && record.hostId != ""
    && record.hostGeneration != 0 && record.tenant != "" && record.tenant + ":" <= record.principal
    && record.effectiveSpecDigest != "" && record.capabilityDigest != "" && record.canonicalRequestDigest != ""
    && record.payloadDigest != "" && record.planDigest == plan
  }

  /** The decoded control request of an envelope. */
  datatype Request = CreateRequest(id: string) | ExecRequest(id: string, sandboxId: string) | OtherRequest(id: string)

  datatype Envelope = Envelope(
    authentic: bool, request: Option<Request>, operationKind: string, operationId: string, sandboxId: string,
    processId: string, hostId: string, hostGeneration: nat, tenant: string, principal: string,
    effectiveSpecDigest: string, capabilityDigest: string, canonicalRequestDigest: string, payloadDigest: string)

  /** The record a create envelope asks for, or None if the envelope is refused. */
  function RecordFor(envelope: Envelope, plan: string): Option<Record> {
    if !envelope.authentic || envelope.request.None? || !envelope.request.value.CreateRequest?
       || envelope.operationKind != "create-sandbox" || envelope.request.value.id != envelope.operationId
       || envelope.sandboxId != "" || envelope.processId != "" || |envelope.operationId| < 3
    then None
    else
      var record := Record(
        VERSION, "sbx_" + envelope.operationId[3..], envelope.operationId, envelope.hostId, envelope.hostGeneration,
        envelope.tenant, envelope.principal, envelope.effectiveSpecDigest, envelope.capabilityDigest,
        envelope.canonicalRequestDigest, envelope.payloadDigest, plan);
      if ValidRecord(record, plan) then Some(record) else None
  }

  /** Canonical JSON: only the exact encoding of a record decodes to it. */
  datatype Codec = Codec(encode: Record -> seq<Byte>, decode: seq<Byte> -> Option<Record>)

  ghost predicate Lawful(codec: Codec) {
    forall r, w :: codec.decode(w) == Some(r) <==> codec.encode(r) == w
  }

  // ----- The disk -----

  /** A file's bytes as read now, and whether power loss would keep them. */
  datatype Inode = Inode(content: seq<Byte>, synced: bool)

  datatype Entry = Entry(now: Option<nat>, after: set<Option<nat>>)

  datatype Disk = Disk(inodes: seq<Inode>, journal: Entry, temp: Entry)

  function Points(entry: Entry, to: Option<nat>): Entry {
    Entry(to, entry.after + {to})
  }

  function Durable(entry: Entry): Entry {
    Entry(entry.now, {entry.now})
  }

  /** Opens the temporary file for writing: it is created, or an existing one is truncated in place. */
  function OpenTemp(disk: Disk): Disk {
    match disk.temp.now
    case Some(i) =>
      if i < |disk.inodes| then disk.(inodes := disk.inodes[i := Inode([], false)]) else disk
    case None =>
      disk.(inodes := disk.inodes + [Inode([], false)], temp := Points(disk.temp, Some(|disk.inodes|)))
  }

  function SetTemp(disk: Disk, inode: Inode): Disk {
    if disk.temp.now.Some? && disk.temp.now.value < |disk.inodes|
    then disk.(inodes := disk.inodes[disk.temp.now.value := inode]) else disk
  }

  function TempFile(disk: Disk): Option<Inode> {
    if disk.temp.now.Some? && disk.temp.now.value < |disk.inodes| then Some(disk.inodes[disk.temp.now.value]) else None
  }

  function RenameTemp(disk: Disk): Disk {
    disk.(journal := Points(disk.journal, disk.temp.now), temp := Points(disk.temp, None))
  }

  function SyncDirectory(disk: Disk): Disk {
    disk.(journal := Durable(disk.journal), temp := Durable(disk.temp))
  }

  // ----- Runs -----

  /** How far a claim's persist has come. */
  datatype Phase =
    | Idle | Opened(record: Record) | Written(record: Record) | Synced(record: Record) | Renamed(record: Record)

  datatype Owner = Owner(plan: string, record: Option<Record>, phase: Phase)

  /** `promised` holds every record for which some claim has returned success. */
  datatype State = State(disk: Disk, owner: Option<Owner>, promised: set<Record>)

  datatype Step =
    | Open(plan: string)
    | Claim(envelope: Envelope, ok: bool)
    | Advance(ok: bool, torn: seq<Byte>, durable: bool)
    | Close
    | Killed
    | Flush
    | PowerLoss(journal: Option<nat>, temp: Option<nat>, lost: seq<seq<Byte>>)

  const EMPTY := State(Disk([], Entry(None, {None}), Entry(None, {None})), None, {})

  /** What a reader of the journal finds: nothing, or the file's bytes. */
  function BytesAt(disk: Disk, at: Option<nat>): Option<seq<Byte>> {
    if at.Some? && at.value < |disk.inodes| then Some(disk.inodes[at.value].content) else None
  }

  /** The journal as `Open` reads it at an entry value: no file is no record. */
  function Reading(codec: Codec, disk: Disk, at: Option<nat>): Option<Record> {
    match BytesAt(disk, at)
    case None => None
    case Some(w) => codec.decode(w)
  }

  function OpenStep(codec: Codec, s: State, plan: string): State {
    if s.owner.Some? then s
    else
      match BytesAt(s.disk, s.disk.journal.now)
      case None => s.(owner := Some(Owner(plan, None, Idle)))
      case Some(w) =>
        match codec.decode(w)
        case None => s
        case Some(record) => if ValidRecord(record, plan) then s.(owner := Some(Owner(plan, Some(record), Idle))) else s
  }

  function ClaimStep(s: State, envelope: Envelope, ok: bool): State {
    if s.owner.None? || s.owner.value.phase != Idle then s
    else
      var owner := s.owner.value;
      match RecordFor(envelope, owner.plan)
      case None => s
      case Some(record) =>
        if owner.record == Some(record) then s.(promised := s.promised + {record})
        else if owner.record.Some? || !ok then s
        else s.(disk := OpenTemp(s.disk), owner := Some(owner.(phase := Opened(record))))
  }

  /** The next system call of a persist in progress; a failed one ends the claim with an error. */
  function AdvanceStep(codec: Codec, s: State, ok: bool, torn: seq<Byte>, durable: bool): State {
    if s.owner.None? then s
    else
      var owner := s.owner.value;
      var stop := Some(owner.(phase := Idle));
      match owner.phase
      case Idle => s
      case Opened(record) =>
        if ok then s.(disk := SetTemp(s.disk, Inode(codec.encode(record), false)),
              owner := Some(owner.(phase := Written(record))))
        else s.(disk := SetTemp(s.disk, Inode(torn, false)), owner := stop)
      case Written(record) =>
        if ok then s.(disk := SetTemp(s.disk, Inode(codec.encode(record), true)),
              owner := Some(owner.(phase := Synced(record))))
        else s.(owner := stop)
      case Synced(record) =>
        if ok then s.(disk := RenameTemp(s.disk), owner := Some(owner.(phase := Renamed(record))))
        else s.(owner := stop)
      case Renamed(record) =>
        if ok then State(SyncDirectory(s.disk), Some(Owner(owner.plan, Some(record), Idle)), s.promised + {record})
        else s.(disk := if durable then SyncDirectory(s.disk) else s.disk, owner := stop)
  }

  function PowerLossStep(s: State, journal: Option<nat>, temp: Option<nat>, torn: seq<seq<Byte>>): State {
    if journal !in s.disk.journal.after || temp !in s.disk.temp.after || |torn| != |s.disk.inodes| then s
    else
      var survived := seq(|torn|, i requires 0 <= i < |torn| =>
        Inode(if s.disk.inodes[i].synced then s.disk.inodes[i].content else torn[i], true));
      s.(disk := Disk(survived, Entry(journal, {journal}), Entry(temp, {temp})), owner := None)
  }

  function Next(codec: Codec, s: State, step: Step): State {
    match step
    case Open(plan) => OpenStep(codec, s, plan)
    case Claim(envelope, ok) => ClaimStep(s, envelope, ok)
    case Advance(ok, torn, durable) => AdvanceStep(codec, s, ok, torn, durable)
    case Close => if s.owner.Some? && s.owner.value.phase == Idle then s.(owner := None) else s
    case Killed => s.(owner := None)
    case Flush => s.(disk := s.disk.(journal := Durable(s.disk.journal)))
    case PowerLoss(journal, temp, torn) => PowerLossStep(s, journal, temp, torn)
  }

  function Run(codec: Codec, s: State, steps: seq<Step>): State
    decreases |steps|
  {
    if steps == [] then s else Run(codec, Next(codec, s, steps[0]), steps[1..])
  }

  // ----- What every step keeps -----

  /** The create envelope that asks for a record. */
  function EnvelopeFor(r: Record): Envelope {
    Envelope(true, Some(CreateRequest(r.createOperationId)), "create-sandbox", r.createOperationId, "", "", r.hostId,
             r.hostGeneration, r.tenant, r.principal, r.effectiveSpecDigest, r.capabilityDigest,
             r.canonicalRequestDigest, r.payloadDigest)
  }

  predicate Claimable(r: Record) {
    RecordFor(EnvelopeFor(r), r.planDigest) == Some(r)
  }

  /** The file is whole: synced, and its bytes are the encoding of a record some envelope asks for. */
  predicate Whole(codec: Codec, disk: Disk, i: nat) {
    && i < |disk.inodes| && disk.inodes[i].synced
    && codec.decode(disk.inodes[i].content).Some? && Claimable(codec.decode(disk.inodes[i].content).value)
  }

  /** Whatever power loss may leave at the journal is nothing or a whole record. */
  predicate DiskOk(codec: Codec, disk: Disk) {
    && disk.journal.now in disk.journal.after && disk.temp.now in disk.temp.after
    && (forall o :: o in disk.temp.after && o.Some? ==> o.value < |disk.inodes|)
    && (forall o :: o in disk.journal.after && o.Some? ==> Whole(codec, disk, o.value))
    && (disk.journal.now.None? ==> disk.journal.after == {None})
  }

  predicate PhaseOk(codec: Codec, disk: Disk, phase: Phase) {
    match phase
    case Idle => true
    case Opened(record) => TempFile(disk).Some? && Claimable(record)
    case Written(record) => TempFile(disk) == Some(Inode(codec.encode(record), false)) && Claimable(record)
    case Synced(record) => TempFile(disk) == Some(Inode(codec.encode(record), true)) && Claimable(record)
    case Renamed(record) =>
      disk.temp.now.None? && Reading(codec, disk, disk.journal.now) == Some(record) && Claimable(record)
  }

  /**
   * An owner without a record may write the temporary file, so that is no file the journal may turn out
   * to be.  What it holds or writes is a record of its own plan.
   */
  predicate OwnerOk(codec: Codec, disk: Disk, owner: Owner) {
    && PhaseOk(codec, disk, owner.phase)
    && (owner.record.None? && disk.temp.now.Some? ==> disk.temp.now !in disk.journal.after)
    && (owner.record.Some? ==> owner.phase == Idle && Reading(codec, disk, disk.journal.now) == owner.record)
    && (owner.record.Some? ==> owner.record.value.planDigest == owner.plan)
    && (owner.phase != Idle ==> owner.phase.record.planDigest == owner.plan)
  }

  predicate Inv(codec: Codec, s: State) {
    DiskOk(codec, s.disk) && (s.owner.Some? ==> OwnerOk(codec, s.disk, s.owner.value))
  }

  lemma ClaimsAreClaimable(envelope: Envelope, plan: string)
    requires RecordFor(envelope, plan).Some?
    ensures Claimable(RecordFor(envelope, plan).value)
  {
  }

  lemma ClaimKeepsInv(codec: Codec, s: State, envelope: Envelope, ok: bool)
    requires Lawful(codec) && Inv(codec, s)
    ensures Inv(codec, ClaimStep(s, envelope, ok))
  {
    if s.owner.Some? && RecordFor(envelope, s.owner.value.plan).Some? {
      ClaimsAreClaimable(envelope, s.owner.value.plan);
    }
  }

  lemma AdvanceKeepsInv(codec: Codec, s: State, ok: bool, torn: seq<Byte>, durable: bool)
    requires Lawful(codec) && Inv(codec, s)
    ensures Inv(codec, AdvanceStep(codec, s, ok, torn, durable))
  {
    hide Claimable;
    if s.owner.Some? && s.owner.value.phase.Synced? && ok {
      assert codec.decode(codec.encode(s.owner.value.phase.record)) == Some(s.owner.value.phase.record);
    }
  }

  lemma PowerLossKeepsInv(codec: Codec, s: State, journal: Option<nat>, temp: Option<nat>, torn: seq<seq<Byte>>)
    requires Inv(codec, s)
    ensures Inv(codec, PowerLossStep(s, journal, temp, torn))
  {
    hide Claimable;
  }

  /** Every step of any run keeps the invariant: kills and power losses anywhere included. */
  lemma NextKeepsInv(codec: Codec, s: State, step: Step)
    requires Lawful(codec) && Inv(codec, s)
    ensures Inv(codec, Next(codec, s, step))
  {
    hide Claimable;
    match step
    case Claim(envelope, ok) => ClaimKeepsInv(codec, s, envelope, ok);
    case Advance(ok, torn, durable) => AdvanceKeepsInv(codec, s, ok, torn, durable);
    case PowerLoss(journal, temp, torn) => PowerLossKeepsInv(codec, s, journal, temp, torn);
    case _ =>
  }

  lemma {:induction false} RunKeepsInv(codec: Codec, s: State, steps: seq<Step>)
    requires Lawful(codec) && Inv(codec, s)
    ensures Inv(codec, Run(codec, s, steps))
    decreases |steps|
  {
    if steps != [] {
      NextKeepsInv(codec, s, steps[0]);
      RunKeepsInv(codec, Next(codec, s, steps[0]), steps[1..]);
    }
  }

  // ----- A crash leaves the old record or the whole new one -----

  /** `r` is among the readings of the journal that power loss may leave. */
  predicate MayRead(codec: Codec, disk: Disk, r: Option<Record>) {
    exists o :: o in disk.journal.after && Reading(codec, disk, o) == r
  }

  /** The record a state's claim is persisting. */
  function InFlight(s: State): Option<Record> {
    if s.owner.Some? && s.owner.value.phase != Idle then Some(s.owner.value.phase.record) else None
  }

  /** What the journal may turn out to be reads the same after any step. */
  lemma EntryReadsSame(codec: Codec, s: State, step: Step, o: Option<nat>)
    requires Inv(codec, s) && o in s.disk.journal.after
    ensures Reading(codec, Next(codec, s, step).disk, o) == Reading(codec, s.disk, o)
  {
    hide Claimable;
    hide RecordFor;
  }

  /** A step adds nothing to what the journal may turn out to be, except the renamed file. */
  lemma OnlyRenameAdds(codec: Codec, s: State, step: Step, o: Option<nat>)
    requires Inv(codec, s) && o in Next(codec, s, step).disk.journal.after && o !in s.disk.journal.after
    ensures step.Advance? && step.ok && s.owner.Some? && s.owner.value.phase.Synced? && o == s.disk.temp.now
  {
    hide Whole;
    hide RecordFor;
  }

  /** A step adds no reading to those power loss may leave, except the whole record in flight. */
  lemma NextAddsOnlyInFlight(codec: Codec, s: State, step: Step, r: Option<Record>)
    requires Lawful(codec) && Inv(codec, s) && MayRead(codec, Next(codec, s, step).disk, r)
    ensures MayRead(codec, s.disk, r) || (r.Some? && r == InFlight(s))
  {
    var after := Next(codec, s, step).disk;
    var o :| o in after.journal.after && Reading(codec, after, o) == r;
    if o in s.disk.journal.after {
      EntryReadsSame(codec, s, step, o);
    } else {
      OnlyRenameAdds(codec, s, step, o);
      assert codec.decode(codec.encode(s.owner.value.phase.record)) == Some(s.owner.value.phase.record);
    }
    hide Inv;
  }

  /** Power loss turns one of those readings into the journal. */
  lemma PowerLossPicksOne(codec: Codec, s: State, journal: Option<nat>, temp: Option<nat>, lost: seq<seq<Byte>>)
    requires Inv(codec, s)
    ensures var after := PowerLossStep(s, journal, temp, lost);
            MayRead(codec, s.disk, Reading(codec, after.disk, after.disk.journal.now))
  {
    hide Claimable;
    var after := PowerLossStep(s, journal, temp, lost);
    var o := after.disk.journal.now;
    assert o in s.disk.journal.after && Reading(codec, s.disk, o) == Reading(codec, after.disk, o);
  }

  lemma {:induction false} AdvancesAddOnlyInFlight(codec: Codec, s: State, advances: seq<Step>, r: Option<Record>)
    requires Lawful(codec) && Inv(codec, s) && MayRead(codec, Run(codec, s, advances).disk, r)
    requires forall k :: 0 <= k < |advances| ==> advances[k].Advance?
    ensures MayRead(codec, s.disk, r) || (r.Some? && r == InFlight(s))
    decreases |advances|
  {
    if advances != [] {
      var next := Next(codec, s, advances[0]);
      NextKeepsInv(codec, s, advances[0]);
      AdvancesAddOnlyInFlight(codec, next, advances[1..], r);
      if MayRead(codec, next.disk, r) {
        NextAddsOnlyInFlight(codec, s, advances[0], r);
      }
    }
  }

  /**
   * A claim cut off by power loss after any number of its system calls, whatever their outcomes,
   * leaves the journal readable as one of the readings possible before, or as the claimed record.
   */
  lemma ClaimThenCrash(codec: Codec, s: State, envelope: Envelope, ok: bool, advances: seq<Step>,
                       journal: Option<nat>, temp: Option<nat>, lost: seq<seq<Byte>>)
    requires Lawful(codec) && Inv(codec, s) && s.owner.Some? && s.owner.value.phase == Idle
    requires forall k :: 0 <= k < |advances| ==> advances[k].Advance?
    ensures var crashed := PowerLossStep(Run(codec, ClaimStep(s, envelope, ok), advances), journal, temp, lost);
            var r := Reading(codec, crashed.disk, crashed.disk.journal.now);
            MayRead(codec, s.disk, r) || (r.Some? && r == RecordFor(envelope, s.owner.value.plan))
  {
    var begun := ClaimStep(s, envelope, ok);
    NextKeepsInv(codec, s, Claim(envelope, ok));
    RunKeepsInv(codec, begun, advances);
    var cut := Run(codec, begun, advances);
    PowerLossPicksOne(codec, cut, journal, temp, lost);
    var crashed := PowerLossStep(cut, journal, temp, lost);
    var r := Reading(codec, crashed.disk, crashed.disk.journal.now);
    AdvancesAddOnlyInFlight(codec, begun, advances, r);
    if MayRead(codec, begun.disk, r) {
      NextAddsOnlyInFlight(codec, s, Claim(envelope, ok), r);
    }
  }

  // ----- A promise that is kept -----

  /** However the power fails, the journal reads `r`. */
  predicate Pinned(codec: Codec, disk: Disk, r: Record) {
    forall o :: o in disk.journal.after ==> Reading(codec, disk, o) == Some(r)
  }

  /** The journal is pinned and no owner is about to replace it. */
  predicate Stable(codec: Codec, s: State, r: Record) {
    Pinned(codec, s.disk, r) && (s.owner.Some? ==> s.owner.value.record == Some(r))
  }

  /** No step unsettles a stable record or promises another. */
  lemma NextKeepsStable(codec: Codec, s: State, step: Step, r: Record)
    requires Lawful(codec) && Inv(codec, s) && Stable(codec, s, r)
    ensures Stable(codec, Next(codec, s, step), r) && Next(codec, s, step).promised <= s.promised + {r}
  {
    hide Claimable;
    var now := s.disk.journal.now;
    assert Reading(codec, s.disk, now) == Some(r);
  }

  lemma {:induction false} RunKeepsStable(codec: Codec, s: State, steps: seq<Step>, r: Record)
    requires Lawful(codec) && Inv(codec, s) && Stable(codec, s, r)
    ensures Stable(codec, Run(codec, s, steps), r) && Run(codec, s, steps).promised <= s.promised + {r}
    decreases |steps|
  {
    if steps != [] {
      NextKeepsStable(codec, s, steps[0], r);
      NextKeepsInv(codec, s, steps[0]);
      RunKeepsStable(codec, Next(codec, s, steps[0]), steps[1..], r);
    }
  }

  /** A claim that runs its persist to the end leaves its record stable. */
  lemma PersistedClaimStable(codec: Codec, s: State, torn: seq<Byte>, durable: bool)
    requires Lawful(codec) && Inv(codec, s) && s.owner.Some? && s.owner.value.phase.Renamed?
    ensures var record, after := s.owner.value.phase.record, AdvanceStep(codec, s, true, torn, durable);
            record in after.promised && Stable(codec, after, record)
  {
  }

  // ----- When a repeated claim keeps its promise -----

  /** From here on, no run lets a claim of any record but `r` succeed. */
  ghost predicate Permanent(codec: Codec, s: State, r: Record) {
    forall steps: seq<Step> :: Run(codec, s.(promised := {}), steps).promised <= {r}
  }

  const GO := Advance(true, [], false)

  /** An owner without a record persists any valid claim when every call succeeds. */
  lemma FreshClaimSucceeds(codec: Codec, s: State, envelope: Envelope)
    requires Lawful(codec) && Inv(codec, s) && s.owner.Some? && s.owner.value.phase == Idle
             && s.owner.value.record.None?
    requires RecordFor(envelope, s.owner.value.plan).Some?
    ensures RecordFor(envelope, s.owner.value.plan).value in Run(codec, s,
              [Claim(envelope, true), GO, GO, GO, GO]).promised
  {
    hide RecordFor;
    var r := RecordFor(envelope, s.owner.value.plan).value;
    var s1 := Next(codec, s, Claim(envelope, true));
    assert s1.owner.value.phase == Opened(r);
    var s2 := Next(codec, s1, GO);
    var s3 := Next(codec, s2, GO);
    var s4 := Next(codec, s3, GO);
    assert s4.owner.value.phase == Renamed(r);
    assert r in Next(codec, s4, GO).promised;
    RunFive(codec, s, Claim(envelope, true), GO, GO, GO, GO);
  }

  lemma RunFive(codec: Codec, s: State, a: Step, b: Step, c: Step, d: Step, e: Step)
    ensures Run(codec, s, [a, b, c, d, e])
         == Next(codec, Next(codec, Next(codec, Next(codec, Next(codec, s, a), b), c), d), e)
  {
    hide Next;
    RunTwo(codec, s, a, b, [c, d, e]);
    var s2 := Next(codec, Next(codec, s, a), b);
    RunTwo(codec, s2, c, d, [e]);
    var s4 := Next(codec, Next(codec, s2, c), d);
    assert [a, b] + [c, d, e] == [a, b, c, d, e] && [c, d] + [e] == [c, d, e];
    assert [e][1..] == [];
  }

  lemma RunTwo(codec: Codec, s: State, a: Step, b: Step, rest: seq<Step>)
    ensures Run(codec, s, [a, b] + rest) == Run(codec, Next(codec, Next(codec, s, a), b), rest)
  {
    hide Next;
    var steps := [a, b] + rest;
    assert steps[1..] == [b] + rest && ([b] + rest)[1..] == rest;
  }

  /** A valid record for `plan` other than `r`. */
  function Rival(r: Record, plan: string): (rival: Record)
    ensures rival != r && rival.planDigest == plan
  {
    Record(VERSION, "sbx_x", "op_x", "h", r.hostGeneration + 1, "t", "t:p", "e", "c", "q", "b", plan)
  }

  lemma RivalClaimable(r: Record, plan: string)
    ensures RecordFor(EnvelopeFor(Rival(r, plan)), plan) == Some(Rival(r, plan))
  {
    var rival := Rival(r, plan);
    assert "op_x"[3..] == "x";
    assert "sbx_" + "x" == "sbx_x";
    assert rival.principal[..2] == rival.tenant + ":";
  }

  /** What power loss and reopening can make of an unpinned journal lets another claim succeed. */
  lemma UnpinnedCanBeLost(codec: Codec, s: State, r: Record, o: Option<nat>, plan: string)
    requires Lawful(codec) && Inv(codec, s)
    requires o in s.disk.journal.after && Reading(codec, s.disk, o) != Some(r)
    ensures !Permanent(codec, s, r)
  {
    hide Claimable;
    var start := s.(promised := {});
    var loss := PowerLoss(o, s.disk.temp.now, seq(|s.disk.inodes|, i => []));
    var s1 := Next(codec, start, loss);
    NextKeepsInv(codec, start, loss);
    assert s1.disk.journal.now == o && Reading(codec, s1.disk, o) == Reading(codec, s.disk, o);
    match Reading(codec, s.disk, o)
    case Some(other) =>
      ReopenRead(codec, s1, other);
      var tail := [Claim(EnvelopeFor(other), true)];
      RunTwo(codec, start, loss, Open(other.planDigest), tail);
      assert tail[1..] == [];
      assert other in Run(codec, start, [loss, Open(other.planDigest)] + tail).promised;
    case None =>
      var rival := Rival(r, plan);
      var s2 := Next(codec, s1, Open(plan));
      NextKeepsInv(codec, s1, Open(plan));
      RivalClaimable(r, plan);
      FreshClaimSucceeds(codec, s2, EnvelopeFor(rival));
      var tail := [Claim(EnvelopeFor(rival), true), GO, GO, GO, GO];
      RunTwo(codec, start, loss, Open(plan), tail);
      assert rival in Run(codec, start, [loss, Open(plan)] + tail).promised;
  }

  /** A journal holding a record reopens with it and then grants that claim again. */
  lemma ReopenRead(codec: Codec, s: State, r: Record)
    requires Inv(codec, s) && s.owner.None? && Reading(codec, s.disk, s.disk.journal.now) == Some(r)
    ensures var reopened := Next(codec, s, Open(r.planDigest));
            r in Next(codec, reopened, Claim(EnvelopeFor(r), true)).promised
  {
    assert Claimable(r);
  }

  /**
   * An owner that found its record at open grants the claim again without touching the disk.  That
   * promise is kept in every later run if and only if every reading power loss may leave is the
   * record already: the rename that put it there has become durable.
   */
  lemma RepeatedClaimKeptIffPinned(codec: Codec, s: State, r: Record)
    requires Lawful(codec) && Inv(codec, s) && s.owner.Some? && s.owner.value.record == Some(r)
    ensures Permanent(codec, s, r) <==> Pinned(codec, s.disk, r)
  {
    if Pinned(codec, s.disk, r) {
      var start := s.(promised := {});
      forall steps: seq<Step> ensures Run(codec, start, steps).promised <= {r} {
        RunKeepsStable(codec, start, steps, r);
      }
    } else {
      var o :| o in s.disk.journal.after && Reading(codec, s.disk, o) != Some(r);
      UnpinnedCanBeLost(codec, s, r, o, s.owner.value.plan);
    }
  }

  // ----- Runs whose opens find a pinned journal -----

  /** Every reading of the journal that power loss may leave is the present one. */
  predicate OneReading(codec: Codec, disk: Disk) {
    forall o :: o in disk.journal.after ==> Reading(codec, disk, o) == Reading(codec, disk, disk.journal.now)
  }

  /** Every open that gets the lock finds a journal that power loss cannot change. */
  predicate OpensPinned(codec: Codec, s: State, steps: seq<Step>)
    decreases |steps|
  {
    steps == [] ||
    (&& (steps[0].Open? && s.owner.None? ==> OneReading(codec, s.disk))
     && OpensPinned(codec, Next(codec, s, steps[0]), steps[1..]))
  }

  ghost predicate Faithful(codec: Codec, s: State) {
    && Inv(codec, s)
    && (s.owner.Some? && s.owner.value.record.Some? ==> Pinned(codec, s.disk, s.owner.value.record.value))
    && (s.promised == {} || exists r :: s.promised == {r} && Stable(codec, s, r))
  }

  /** An owner's record is pinned after a step if it was before it, or the step is an open that finds it so. */
  lemma NextKeepsPinned(codec: Codec, s: State, step: Step)
    requires Lawful(codec) && Faithful(codec, s) && OpensPinned(codec, s, [step])
    ensures var after := Next(codec, s, step);
            after.owner.Some? && after.owner.value.record.Some? ==>
                Pinned(codec, after.disk, after.owner.value.record.value)
  {
    if s.owner.Some? && s.owner.value.record.Some? {
      NextKeepsStable(codec, s.(promised := {}), step, s.owner.value.record.value);
      hide Next;
    } else if s.owner.Some? && s.owner.value.phase.Renamed? && step.Advance? && step.ok {
      PersistedClaimStable(codec, s, step.torn, step.durable);
    }
    hide Inv;
    hide RecordFor;
  }

  lemma NextKeepsFaithful(codec: Codec, s: State, step: Step)
    requires Lawful(codec) && Faithful(codec, s) && OpensPinned(codec, s, [step])
    ensures Faithful(codec, Next(codec, s, step))
  {
    var after := Next(codec, s, step);
    NextKeepsInv(codec, s, step);
    NextKeepsPinned(codec, s, step);
    hide Inv;
    hide RecordFor;
    hide Pinned;
    if s.promised != {} {
      var r :| s.promised == {r} && Stable(codec, s, r);
      NextKeepsStable(codec, s, step, r);
      NextPromisesMore(codec, s, step);
      hide Next;
      assert after.promised == {r};
    } else if step.Advance? && s.owner.Some? && s.owner.value.phase.Renamed? && step.ok {
      PersistedClaimStable(codec, s, step.torn, step.durable);
      assert after.promised == {s.owner.value.phase.record};
    } else if step.Claim? && s.owner.Some? && after.promised != {} {
      assert after.promised == {s.owner.value.record.value};
      assert Stable(codec, after, s.owner.value.record.value);
    }
  }

  lemma NextPromisesMore(codec: Codec, s: State, step: Step)
    ensures s.promised <= Next(codec, s, step).promised
  {
    hide RecordFor;
  }

  /** Over every such run at most one create claim ever succeeds, and its record stays in the journal. */
  lemma {:induction false} OneClaimEver(codec: Codec, s: State, steps: seq<Step>)
    requires Lawful(codec) && Faithful(codec, s) && OpensPinned(codec, s, steps)
    ensures Faithful(codec, Run(codec, s, steps))
    decreases |steps|
  {
    hide Next;
    hide Faithful;
    hide OneReading;
    if steps != [] {
      assert [steps[0]][1..] == [];
      NextKeepsFaithful(codec, s, steps[0]);
      OneClaimEver(codec, Next(codec, s, steps[0]), steps[1..]);
    }
  }

  lemma EmptyFaithful(codec: Codec)
    ensures Faithful(codec, EMPTY)
  {
  }

  // ----- The same in terms of what happens to the process -----

  /** No process dies, and no directory sync fails without effect, between a rename and its directory sync. */
  predicate Uninterrupted(codec: Codec, s: State, steps: seq<Step>)
    decreases |steps|
  {
    steps == [] ||
    (&& !(AwaitsDirectorySync(s) && (steps[0].Killed? || (steps[0].Advance? && !steps[0].ok && !steps[0].durable)))
     && Uninterrupted(codec, Next(codec, s, steps[0]), steps[1..]))
  }

  predicate AwaitsDirectorySync(s: State) {
    s.owner.Some? && s.owner.value.phase.Renamed?
  }

  /** Outside those moments power loss cannot change what the journal reads. */
  lemma NextKeepsOneReading(codec: Codec, s: State, step: Step)
    requires Inv(codec, s) && (AwaitsDirectorySync(s) || OneReading(codec, s.disk)) && Uninterrupted(codec, s, [step])
    ensures AwaitsDirectorySync(Next(codec, s, step)) || OneReading(codec, Next(codec, s, step).disk)
  {
    var after := Next(codec, s, step);
    if !AwaitsDirectorySync(after) {
      if AwaitsDirectorySync(s) {
        LeavesOneEntry(codec, s, step);
      } else {
        forall o | o in after.disk.journal.after
          ensures Reading(codec, after.disk, o) == Reading(codec, s.disk, s.disk.journal.now)
        {
          if o !in s.disk.journal.after {
            OnlyRenameAdds(codec, s, step, o);
          } else {
            EntryReadsSame(codec, s, step, o);
          }
        }
        NextKeepsNow(codec, s, step);
      }
    }
    hide Inv;
    hide Reading;
  }

  lemma NextKeepsNow(codec: Codec, s: State, step: Step)
    requires Inv(codec, s)
    ensures Next(codec, s, step).disk.journal.now in Next(codec, s, step).disk.journal.after
  {
    hide Whole;
    hide RecordFor;
    hide OwnerOk;
  }

  /** The ways out of the moment that are left make the present journal the only one. */
  lemma LeavesOneEntry(codec: Codec, s: State, step: Step)
    requires AwaitsDirectorySync(s) && Uninterrupted(codec, s, [step]) && !AwaitsDirectorySync(Next(codec, s, step))
    ensures var journal := Next(codec, s, step).disk.journal; journal.after == {journal.now}
  {
    hide RecordFor;
  }

  lemma {:induction false} UninterruptedOpensPinned(codec: Codec, s: State, steps: seq<Step>)
    requires Lawful(codec) && Inv(codec, s) && (AwaitsDirectorySync(s) || OneReading(codec, s.disk))
    requires Uninterrupted(codec, s, steps)
    ensures OpensPinned(codec, s, steps)
    decreases |steps|
  {
    hide Next;
    hide Inv;
    hide OneReading;
    if steps != [] {
      assert [steps[0]][1..] == [];
      NextKeepsInv(codec, s, steps[0]);
      NextKeepsOneReading(codec, s, steps[0]);
      UninterruptedOpensPinned(codec, Next(codec, s, steps[0]), steps[1..]);
    }
  }

  /**
   * From an empty disk, over every run in which no process dies and no directory sync fails between a
   * rename and its directory sync, at most one create claim ever succeeds; power may be lost at any time.
   */
  lemma OneClaimUnlessInterrupted(codec: Codec, steps: seq<Step>)
    requires Lawful(codec) && Uninterrupted(codec, EMPTY, steps)
    ensures var s := Run(codec, EMPTY, steps);
            s.promised == {} || exists r :: s.promised == {r} && Stable(codec, s, r)
  {
    EmptyFaithful(codec);
    UninterruptedOpensPinned(codec, EMPTY, steps);
    OneClaimEver(codec, EMPTY, steps);
  }

  // ----- Both interruptions break it -----

  /** A claim by the first owner up to the rename. */
  function UpToRename(record: Record): seq<Step> {
    [Open(record.planDigest), Claim(EnvelopeFor(record), true), GO, GO, GO]
  }

  lemma ReachesRename(codec: Codec, record: Record)
    requires Lawful(codec) && Claimable(record)
    ensures var s := Run(codec, EMPTY, UpToRename(record));
            && s.owner == Some(Owner(record.planDigest, None, Renamed(record))) && None in s.disk.journal.after
            && s.disk.journal.now == Some(0) && s.disk.inodes == [Inode(codec.encode(record), true)]
            && codec.decode(codec.encode(record)) == Some(record)
  {
    var plan, claim := record.planDigest, Claim(EnvelopeFor(record), true);
    var s1 := Next(codec, EMPTY, Open(plan));
    var s2 := Next(codec, s1, claim);
    assert s2.owner.value.phase == Opened(record);
    var s3 := Next(codec, s2, GO);
    var s4 := Next(codec, s3, GO);
    var s5 := Next(codec, s4, GO);
    assert s5.owner.value.phase == Renamed(record);
    assert codec.decode(codec.encode(record)) == Some(record);
    RunFive(codec, EMPTY, Open(plan), claim, GO, GO, GO);
  }

  /** Reopened after it, the owner holds the record, and power loss can still take it away. */
  lemma ReopensUnpinned(codec: Codec, record: Record, between: seq<Step>)
    requires Lawful(codec) && Claimable(record)
    requires Run(codec, Run(codec, EMPTY, UpToRename(record)), between)
          == Run(codec, EMPTY, UpToRename(record)).(owner := None)
    ensures var s := Run(codec, EMPTY, UpToRename(record) + (between + [Open(record.planDigest)]));
            && Inv(codec, s) && s.owner.Some? && s.owner.value.record == Some(record)
            && !Pinned(codec, s.disk, record)
  {
    var reopen := Open(record.planDigest);
    var renamed := Run(codec, EMPTY, UpToRename(record));
    ReachesRename(codec, record);
    EmptyFaithful(codec);
    RunKeepsInv(codec, EMPTY, UpToRename(record) + (between + [reopen]));
    RunAppends(codec, EMPTY, UpToRename(record), between + [reopen]);
    RunAppends(codec, renamed, between, [reopen]);
    hide UpToRename;
    var left := renamed.(owner := None);
    assert Run(codec, left, [reopen]) == Next(codec, left, reopen);
    assert Reading(codec, left.disk, None) == None;
  }

  /** Killing the process there. */
  lemma KilledBeforeDirectorySync(codec: Codec, record: Record)
    requires Lawful(codec) && Claimable(record)
    ensures var s := Run(codec, EMPTY, UpToRename(record) + ([Killed] + [Open(record.planDigest)]));
            && Inv(codec, s) && s.owner.Some? && s.owner.value.record == Some(record)
            && !Pinned(codec, s.disk, record)
  {
    ReopensUnpinned(codec, record, [Killed]);
  }

  /** A directory sync that fails there without effect, and a close. */
  lemma DirectorySyncFails(codec: Codec, record: Record)
    requires Lawful(codec) && Claimable(record)
    ensures var s := Run(codec, EMPTY,
              UpToRename(record) + ([Advance(false, [], false), Close] + [Open(record.planDigest)]));
            && Inv(codec, s) && s.owner.Some? && s.owner.value.record == Some(record)
            && !Pinned(codec, s.disk, record)
  {
    ReachesRename(codec, record);
    RunTwo(codec, Run(codec, EMPTY, UpToRename(record)), Advance(false, [], false), Close, []);
    assert [Advance(false, [], false), Close] + [] == [Advance(false, [], false), Close];
    ReopensUnpinned(codec, record, [Advance(false, [], false), Close]);
  }

  lemma {:induction false} RunAppends(codec: Codec, s: State, a: seq<Step>, b: seq<Step>)
    ensures Run(codec, s, a + b) == Run(codec, Run(codec, s, a), b)
    decreases |a|
  {
    hide Next;
    if a == [] {
      assert a + b == b;
    } else {
      assert (a + b)[1..] == a[1..] + b;
      RunAppends(codec, Next(codec, s, a[0]), a[1..], b);
    }
  }

  // ----- Binding execs to the claim -----

  predicate ExecEnvelope(e: Envelope) {
    && e.authentic && e.request.Some? && e.request.value.ExecRequest? && e.operationKind == "exec-process"
    && e.request.value.id == e.operationId && e.request.value.sandboxId == e.sandboxId
  }

  predicate MatchesOwnership(r: Record, e: Envelope) {
    && e.sandboxId == r.sandboxId && e.hostId == r.hostId && e.hostGeneration == r.hostGeneration
    && e.tenant == r.tenant && e.principal == r.principal
    && e.effectiveSpecDigest == r.effectiveSpecDigest && e.capabilityDigest == r.capabilityDigest
  }

  /** Whether an owner, open or not, accepts an exec. */
  predicate BindExec(owner: Option<Owner>, e: Envelope) {
    owner.Some? && owner.value.record.Some? && ExecEnvelope(e) && MatchesOwnership(owner.value.record.value, e)
  }

  /** Once a record is stable, every later open owner accepts exactly the execs that match it. */
  lemma ExecBindingPermanent(codec: Codec, s: State, steps: seq<Step>, r: Record, e: Envelope)
    requires Lawful(codec) && Inv(codec, s) && Stable(codec, s, r)
    ensures var owner := Run(codec, s, steps).owner;
            owner.Some? ==> (BindExec(owner, e) <==> ExecEnvelope(e) && MatchesOwnership(r, e))
  {
    RunKeepsStable(codec, s, steps, r);
  }

  // ----- What is bound, in terms of the envelopes -----

  /** The envelopes that can claim a create. */
  lemma CreateIsClaimable(e: Envelope, plan: string)
    ensures RecordFor(e, plan).Some? <==>
              && e.authentic && e.operationKind == "create-sandbox" && e.request == Some(CreateRequest(e.operationId))
              && e.sandboxId == "" && e.processId == "" && |e.operationId| >= 3
              && e.hostId != "" && e.hostGeneration != 0 && e.tenant != "" && e.tenant + ":" <= e.principal
              && e.effectiveSpecDigest != "" && e.capabilityDigest != ""
              && e.canonicalRequestDigest != "" && e.payloadDigest != ""
  {
  }

  /** Two creates ask for one record exactly when they agree in every field that identifies them. */
  lemma SameCreateSameRecord(a: Envelope, b: Envelope, plan: string)
    requires RecordFor(a, plan).Some? && RecordFor(b, plan).Some?
    ensures RecordFor(a, plan) == RecordFor(b, plan) <==>
              && a.operationId == b.operationId && a.hostId == b.hostId && a.hostGeneration == b.hostGeneration
              && a.tenant == b.tenant && a.principal == b.principal
              && a.effectiveSpecDigest == b.effectiveSpecDigest && a.capabilityDigest == b.capabilityDigest
              && a.canonicalRequestDigest == b.canonicalRequestDigest && a.payloadDigest == b.payloadDigest
  {
  }

  /** An owner that holds a create's record grants the same create again, refuses any other, and writes nothing. */
  lemma RepeatedClaim(codec: Codec, s: State, create: Envelope, other: Envelope, ok: bool)
    requires s.owner.Some? && s.owner.value.phase == Idle
    requires RecordFor(create, s.owner.value.plan).Some?
    requires s.owner.value.record == RecordFor(create, s.owner.value.plan)
    ensures var after := Next(codec, s, Claim(other, ok));
            if RecordFor(other, s.owner.value.plan) == RecordFor(create, s.owner.value.plan)
            then after == s.(promised := s.promised + {RecordFor(create, s.owner.value.plan).value})
            else after == s
  {
    hide RecordFor;
  }

  /** An owner that holds a create's record binds exactly the authentic execs in that sandbox by that create's owner. */
  lemma BindsOwnExecs(owner: Owner, create: Envelope, e: Envelope)
    requires RecordFor(create, owner.plan).Some? && owner.record == RecordFor(create, owner.plan)
    ensures BindExec(Some(owner), e) <==>
              && e.authentic && e.operationKind == "exec-process"
              && e.request == Some(ExecRequest(e.operationId, e.sandboxId))
              && e.sandboxId == "sbx_" + create.operationId[3..]
              && e.hostId == create.hostId && e.hostGeneration == create.hostGeneration
              && e.tenant == create.tenant && e.principal == create.principal
              && e.effectiveSpecDigest == create.effectiveSpecDigest && e.capabilityDigest == create.capabilityDigest
  {
  }

  /** Without a claimed create, nothing is bound. */
  lemma BindsNothingUnclaimed(owner: Option<Owner>, e: Envelope)
    requires owner.None? || owner.value.record.None?
    ensures !BindExec(owner, e)
  {
  }

  /** A claimed create binds its execs, and only those, in every later owner, over every run from its claim. */
  lemma ExecsBoundForEver(codec: Codec, s: State, create: Envelope, plan: string, steps: seq<Step>, e: Envelope)
    requires Lawful(codec) && Inv(codec, s) && RecordFor(create, plan).Some?
    requires Stable(codec, s, RecordFor(create, plan).value)
    ensures var owner := Run(codec, s, steps).owner;
            owner.Some? ==>
              && owner.value.plan == plan
              && (BindExec(owner, e) <==>
                    && e.authentic && e.operationKind == "exec-process"
                    && e.request == Some(ExecRequest(e.operationId, e.sandboxId))
                    && e.sandboxId == "sbx_" + create.operationId[3..]
                    && e.hostId == create.hostId && e.hostGeneration == create.hostGeneration
                    && e.tenant == create.tenant && e.principal == create.principal
                    && e.effectiveSpecDigest == create.effectiveSpecDigest
                    && e.capabilityDigest == create.capabilityDigest)
  {
    RunKeepsStable(codec, s, steps, RecordFor(create, plan).value);
    RunKeepsInv(codec, s, steps);
    var owner := Run(codec, s, steps).owner;
    if owner.Some? {
      BindsOwnExecs(owner.value, create, e);
    }
  }

  /** A journal that holds one plan's record cannot be opened for another plan. */
  lemma OtherPlanRefused(codec: Codec, s: State, r: Record, plan: string)
    requires Inv(codec, s) && Stable(codec, s, r) && s.owner.None? && plan != r.planDigest
    ensures Next(codec, s, Open(plan)) == s
  {
    hide Claimable;
    assert Reading(codec, s.disk, s.disk.journal.now) == Some(r);
  }
}
