/** The backfill request, its verification, and the terminal status that verification leaves. */
module Backfill {
  import opened Bytes
  import opened SandboxTypes

  type Text = seq<Byte>

  /** The seconds a time value can hold on either side of the zero time. */
  const MAX_SECONDS: int := 0x8000_0000_0000_0000

  /** Nanoseconds; zero is the zero time. */
  type Time = t: int | -MAX_SECONDS * 1_000_000_000 <= t < MAX_SECONDS * 1_000_000_000

  const TEN_MINUTES: int := 600_000_000_000
  const MAXIMUM_COUNT: nat := 0x7fff_ffff_ffff_ffff

  function Ascii(s: string): (t: Text)
    requires forall i :: 0 <= i < |s| ==> s[i] as int < 128
    ensures |t| == |s| && forall i :: 0 <= i < |s| ==> t[i] == s[i] as int
  {
    seq(|s|, i requires 0 <= i < |s| => s[i] as int)
  }

  datatype Request = Request(
    stackDigest: Text, migrationVersion: nat, migrationArtifactDigest: Text, manifestDigest: Text,
    controllerImageDigest: Text, snapshotFingerprint: Text, snapshotCount: nat, fenceNonce: Text,
    staticReadinessDigest: Text, databaseAuthorityDigest: Text, blobReadCapabilityDigest: Text,
    createdAt: Time, expiresAt: Time)

  /**
   * The library functions this code leans on: strict unpadded base64, RFC 3339 time text, and the
   * "sha256:" digest of bytes.
   */
  datatype Library = Library(
    nonceBytes: Text -> Option<seq<Byte>>, formatTime: Time -> Text, sha256: seq<Byte> -> Text)

  predicate HexDigit(b: Byte) {
    48 <= b <= 57 || 97 <= b <= 102
  }

  predicate ValidDigest(text: Text) {
    |text| == 71 && text[..7] == Ascii("sha256:") && forall i :: 7 <= i < 71 ==> HexDigit(text[i])
  }

  predicate ValidRequest(lib: Library, r: Request) {
    && r.migrationVersion == 4 && 0 < r.snapshotCount <= MAXIMUM_COUNT
    && r.createdAt != 0 && r.expiresAt != 0 && r.createdAt < r.expiresAt <= r.createdAt + TEN_MINUTES
    && ValidDigest(r.stackDigest) && ValidDigest(r.migrationArtifactDigest) && ValidDigest(r.manifestDigest)
    && ValidDigest(r.controllerImageDigest) && ValidDigest(r.snapshotFingerprint)
    && ValidDigest(r.staticReadinessDigest) && ValidDigest(r.databaseAuthorityDigest)
    && ValidDigest(r.blobReadCapabilityDigest)
    && lib.nonceBytes(r.fenceNonce).Some? && |lib.nonceBytes(r.fenceNonce).value| == 32
  }

  datatype Phase = Pending | Verifying | Verified | Refused | OtherPhase(text: Text)
  datatype Reason = NoReason | Snapshot | Content | Expired | NotAdmitted | OtherRefusal(text: Text)

  datatype Status = Status(
    phase: Phase, requestDigest: Text, snapshotFingerprint: Text, snapshotCount: nat, reason: Reason, completedAt: Time)

  predicate ValidReason(reason: Reason) {
    reason.Snapshot? || reason.Content? || reason.Expired? || reason.NotAdmitted?
  }

  predicate IsTerminal(phase: Phase) {
    phase.Verified? || phase.Refused?
  }

  /** The status is bound to the request and stands at `now`. */
  predicate ValidFor(lib: Library, digest: Text, status: Status, r: Request, now: Time) {
    && ValidRequest(lib, r)
    && status.requestDigest == digest && status.snapshotFingerprint == r.snapshotFingerprint
    && status.snapshotCount == r.snapshotCount
    && status.completedAt != 0 && status.completedAt <= now
    && (status.phase.Verified? ==> status.reason.NoReason?)
    && (status.phase.Refused? ==> ValidReason(status.reason))
    && IsTerminal(status.phase)
    && (if status.reason.NotAdmitted? then status.completedAt < r.createdAt
        else
          && r.createdAt <= status.completedAt
          && (if status.reason.Expired? then r.expiresAt <= status.completedAt
              else status.completedAt < r.expiresAt && now < r.expiresAt))
  }

  // ----- Verification -----

  datatype Revision = Revision(tenant: Text, agent: Text, revision: Text, specDigest: Text, sizeBytes: int)
  datatype FrozenSet = FrozenSet(fingerprint: Text, count: nat, revisions: seq<Revision>)
  datatype PortError = ContextDone | StaleSnapshot | WrongOwner | ContentIntegrity | OtherError
  datatype ReadOutcome = ReadFailed(error: PortError) | ReadOk(frozen: FrozenSet)

  /** What the content verifier answers, and whether the context ended right after it accepted. */
  datatype Verdict = Accepted | AcceptedThenDone | Rejected(error: PortError)

  /** Everything Verify learns from outside: contexts, ports, and one verdict per revision. */
  datatype Evidence = Evidence(
    doneBefore: bool, portsPresent: bool, read: ReadOutcome, doneAfterRead: bool, verdicts: nat -> Verdict)

  predicate WellFormed(revision: Revision) {
    revision.tenant != [] && revision.agent != [] && revision.revision != [] && revision.sizeBytes >= 0 &&
    ValidDigest(revision.specDigest)
  }

  predicate MatchesSnapshot(r: Request, frozen: FrozenSet) {
    frozen.fingerprint == r.snapshotFingerprint && frozen.count == r.snapshotCount
        && |frozen.revisions| == r.snapshotCount
  }

  function Refusal(status: Status, reason: Reason): Option<Status> {
    Some(status.(phase := Refused, reason := reason))
  }

  /** A refusal, or None where the error is returned to the caller. */
  function Classify(status: Status, error: PortError): Option<Status> {
    match error
    case StaleSnapshot => Refusal(status, Snapshot)
    case WrongOwner => Refusal(status, Content)
    case ContentIntegrity => Refusal(status, Content)
    case ContextDone => None
    case OtherError => None
  }

  /** The verdict on the revisions from i on. */
  function VerdictFrom(status: Status, evidence: Evidence, revisions: seq<Revision>, i: nat): Option<Status>
    requires i <= |revisions|
    decreases |revisions| - i
  {
    if i == |revisions| then Some(status.(phase := Verified))
    else if !WellFormed(revisions[i]) then Refusal(status, Content)
    else
      match evidence.verdicts(i)
      case Rejected(error) => Classify(status, error)
      case AcceptedThenDone => None
      case Accepted => VerdictFrom(status, evidence, revisions, i + 1)
  }

  /** The status Verify returns, or None for an error. */
  function Verdicts(lib: Library, digest: Text, r: Request, evidence: Evidence, now: Time): Option<Status> {
    var status := Status(OtherPhase([]), digest, r.snapshotFingerprint, r.snapshotCount, NoReason, now);
    if !ValidRequest(lib, r) then None
    else if now < r.createdAt then Refusal(status, NotAdmitted)
    else if now >= r.expiresAt then Refusal(status, Expired)
    else if evidence.doneBefore || !evidence.portsPresent then None
    else
      match evidence.read
      case ReadFailed(error) => Classify(status, error)
      case ReadOk(frozen) =>
        if evidence.doneAfterRead then None
        else if !MatchesSnapshot(r, frozen) then Refusal(status, Snapshot)
        else VerdictFrom(status, evidence, frozen.revisions, 0)
  }

  /** One verifier accepted every one of the request's revisions of a matching snapshot. */
  ghost predicate AllAccepted(r: Request, evidence: Evidence) {
    && evidence.read.ReadOk?
    && var frozen := evidence.read.frozen;
       && frozen.fingerprint == r.snapshotFingerprint && frozen.count == |frozen.revisions| == r.snapshotCount
       && forall i: nat :: i < r.snapshotCount ==>
            var revision := frozen.revisions[i];
            && revision.tenant != [] && revision.agent != [] && revision.revision != [] && revision.sizeBytes >= 0
            && ValidDigest(revision.specDigest) && evidence.verdicts(i).Accepted?
  }

  /** The loop over the frozen revisions. */
  method Verify(lib: Library, digest: Text, r: Request, evidence: Evidence, now: Time) returns (out: Option<Status>)
    ensures out == Verdicts(lib, digest, r, evidence, now)
    ensures out.Some? && out.value.phase.Verified? <==>
            ValidRequest(lib, r) && r.createdAt <= now < r.expiresAt &&
            !evidence.doneBefore && evidence.portsPresent && !evidence.doneAfterRead && AllAccepted(r, evidence)
  {
    if !ValidRequest(lib, r) {
      return None;
    }
    var status := Status(OtherPhase([]), digest, r.snapshotFingerprint, r.snapshotCount, NoReason, now);
    if now < r.createdAt {
      return Refusal(status, NotAdmitted);
    }
    if !(now < r.expiresAt) {
      return Refusal(status, Expired);
    }
    if evidence.doneBefore || !evidence.portsPresent {
      return None;
    }
    match evidence.read
    case ReadFailed(error) =>
      return Classify(status, error);
    case ReadOk(frozen) =>
      if evidence.doneAfterRead {
        return None;
      }
      if !MatchesSnapshot(r, frozen) {
        return Refusal(status, Snapshot);
      }
      for i := 0 to |frozen.revisions|
        invariant VerdictFrom(status, evidence, frozen.revisions, 0)
                  == VerdictFrom(status, evidence, frozen.revisions, i)
        invariant forall k: nat :: k < i ==> WellFormed(frozen.revisions[k]) && evidence.verdicts(k).Accepted?
      {
        if !WellFormed(frozen.revisions[i]) {
          return Refusal(status, Content);
        }
        match evidence.verdicts(i)
        case Rejected(error) =>
          return Classify(status, error);
        case AcceptedThenDone =>
          return None;
        case Accepted =>
      }
      return Some(status.(phase := Verified));
  }

  /** What VerdictFrom can return: the status completed, verified only if the rest was accepted. */
  lemma {:induction false} VerdictFromShape(status: Status, evidence: Evidence, revisions: seq<Revision>, i: nat)
    requires i <= |revisions|
    ensures var out := VerdictFrom(status, evidence, revisions, i);
            out.Some? ==>
              && out.value == status.(phase := out.value.phase, reason := out.value.reason)
              && ((out.value.phase.Verified? && out.value.reason == status.reason) ||
                  (out.value.phase.Refused? && (out.value.reason.Snapshot? || out.value.reason.Content?)))
    ensures var out := VerdictFrom(status, evidence, revisions, i);
            out.Some? && out.value.phase.Verified? ==>
              forall k: nat :: i <= k < |revisions| ==> WellFormed(revisions[k]) && evidence.verdicts(k).Accepted?
    decreases |revisions| - i
  {
    if i < |revisions| && WellFormed(revisions[i]) && evidence.verdicts(i).Accepted? {
      VerdictFromShape(status, evidence, revisions, i + 1);
    }
  }

  /**
   * Verified means one verifier accepted all SnapshotCount revisions of a matching snapshot, within ten
   * minutes of the request.
   */
  lemma VerifiedMeansAllAccepted(lib: Library, digest: Text, r: Request, evidence: Evidence, now: Time)
    requires Verdicts(lib, digest, r, evidence, now).Some?
             && Verdicts(lib, digest, r, evidence, now).value.phase.Verified?
    ensures AllAccepted(r, evidence)
    ensures r.createdAt <= now < r.createdAt + 600_000_000_000
  {
    var status := Status(OtherPhase([]), digest, r.snapshotFingerprint, r.snapshotCount, NoReason, now);
    if evidence.read.ReadOk? && MatchesSnapshot(r, evidence.read.frozen) {
      VerdictFromShape(status, evidence, evidence.read.frozen.revisions, 0);
    }
  }

  /**
   * How long a verdict stands: at its own time exactly when that is not the zero time; later, an
   * expired or not-admitted verdict stands forever and any other exactly until the request expires.
   */
  lemma VerdictStands(lib: Library, digest: Text, r: Request, evidence: Evidence, now: Time, later: Time)
    requires now <= later && Verdicts(lib, digest, r, evidence, now).Some?
    ensures var status := Verdicts(lib, digest, r, evidence, now).value;
            ValidFor(lib, digest, status, r, later) <==>
              now != 0 && (status.reason.Expired? || status.reason.NotAdmitted? || later < r.expiresAt)
    ensures var status := Verdicts(lib, digest, r, evidence, now).value;
            now != 0 ==> ValidFor(lib, digest, status, r, now)
  {
    var status := Status(OtherPhase([]), digest, r.snapshotFingerprint, r.snapshotCount, NoReason, now);
    if evidence.read.ReadOk? {
      VerdictFromShape(status, evidence, evidence.read.frozen.revisions, 0);
    }
  }

  // ----- The archive -----

  datatype AuditCode =
    | AuditVerified | AuditSnapshot | AuditContent | AuditExpired | AuditNotAdmitted | OtherAudit(text: Text)

  function AuditFor(status: Status): Option<AuditCode> {
    if status.phase.Verified? then Some(AuditVerified)
    else if !status.phase.Refused? then None
    else
      match status.reason
      case Snapshot => Some(AuditSnapshot)
      case Content => Some(AuditContent)
      case Expired => Some(AuditExpired)
      case NotAdmitted => Some(AuditNotAdmitted)
      case _ => None
  }

  predicate UidChar(b: Byte) {
    97 <= b <= 122 || 48 <= b <= 57
  }

  /** The archive's own rule for request UIDs. */
  predicate ArchiveUid(uid: Text) {
    0 < |uid| <= 128 && forall i :: 0 <= i < |uid| ==> UidChar(uid[i]) || (uid[i] == 45 && 0 < i < |uid| - 1)
  }

  datatype Bundle = Bundle(uid: Text, request: Request, status: Status, audit: AuditCode, certificate: Option<Text>)

  /** Whether NewArchiveBundle accepts the evidence. */
  predicate Archivable(lib: Library, digest: Text, claimedDigest: Text, b: Bundle) {
    && ArchiveUid(b.uid)
    && ValidRequest(lib, b.request) && claimedDigest == digest
    && ValidFor(lib, digest, b.status, b.request, b.status.completedAt)
    && AuditFor(b.status) == Some(b.audit)
    && (b.certificate.Some? ==> ValidDigest(b.certificate.value) && b.status.phase.Verified?)
  }

  /** Every verdict at a non-zero time is archivable, with its matching audit code and no other. */
  lemma VerdictArchivable(lib: Library, digest: Text, r: Request, evidence: Evidence, now: Time, uid: Text,
                          audit: AuditCode)
    requires now != 0 && ArchiveUid(uid) && Verdicts(lib, digest, r, evidence, now).Some?
    ensures var status := Verdicts(lib, digest, r, evidence, now).value;
            Archivable(lib, digest, digest, Bundle(uid, r, status, audit, None)) <==> AuditFor(status) == Some(audit)
    ensures AuditFor(Verdicts(lib, digest, r, evidence, now).value).Some?
  {
    VerdictStands(lib, digest, r, evidence, now, now);
    hide Verdicts;
  }

  /** A certificate may be archived exactly with a verified verdict, and must be a digest. */
  lemma CertificateRule(lib: Library, digest: Text, claimed: Text, b: Bundle, certificate: Text)
    ensures Archivable(lib, digest, claimed, b.(certificate := Some(certificate))) <==>
            Archivable(lib, digest, claimed, b.(certificate := None)) && b.status.phase.Verified? &&
            ValidDigest(certificate)
  {
  }

  /** Evidence is archived only under the request's own digest. */
  lemma ForeignDigestRefused(lib: Library, digest: Text, claimed: Text, b: Bundle)
    requires claimed != digest
    ensures !Archivable(lib, digest, claimed, b)
  {
  }

  // ----- Which statuses are valid -----

  /** The digests a request must carry, in order. */
  function DigestsOf(r: Request): seq<Text> {
    [r.stackDigest, r.migrationArtifactDigest, r.manifestDigest, r.controllerImageDigest, r.snapshotFingerprint,
     r.staticReadinessDigest, r.databaseAuthorityDigest, r.blobReadCapabilityDigest]
  }

  /** The checks of a request, with the loop over its digests. */
  method ValidateRequest(lib: Library, r: Request) returns (ok: bool)
    ensures ok <==> ValidRequest(lib, r)
  {
    hide ValidDigest;
    if r.migrationVersion != 4 || r.snapshotCount == 0 || r.snapshotCount > 0x7fff_ffff_ffff_ffff || r.createdAt == 0
       || r.expiresAt == 0 || !(r.expiresAt > r.createdAt) || r.expiresAt > r.createdAt + 600_000_000_000 {
      return false;
    }
    var digests := DigestsOf(r);
    for i := 0 to |digests|
      invariant forall k :: 0 <= k < i ==> ValidDigest(digests[k])
    {
      if !ValidDigest(digests[i]) {
        return false;
      }
    }
    assert ValidDigest(digests[0]) && ValidDigest(digests[1]) && ValidDigest(digests[2]) && ValidDigest(digests[3]);
    assert ValidDigest(digests[4]) && ValidDigest(digests[5]) && ValidDigest(digests[6]) && ValidDigest(digests[7]);
    var nonce := lib.nonceBytes(r.fenceNonce);
    ok := nonce.Some? && |nonce.value| == 32;
  }

  /** The first revision that is not well formed and accepted. */
  ghost predicate FirstFault(evidence: Evidence, revisions: seq<Revision>, i: nat) {
    && i < |revisions| && !(WellFormed(revisions[i]) && evidence.verdicts(i).Accepted?)
    && forall k :: 0 <= k < i ==> WellFormed(revisions[k]) && evidence.verdicts(k).Accepted?
  }

  lemma {:induction false} VerdictAtFault(status: Status, evidence: Evidence, revisions: seq<Revision>, from: nat,
                                         i: nat)
    requires from <= i && FirstFault(evidence, revisions, i)
    ensures VerdictFrom(status, evidence, revisions, from) == VerdictFrom(status, evidence, revisions, i)
    decreases i - from
  {
    if from < i {
      VerdictAtFault(status, evidence, revisions, from + 1, i);
    }
  }

  /**
   * Which refusal a valid request gets, and where there is none but an error.  Time comes first; then the
   * read, whose errors are told apart; then the snapshot.
   */
  lemma RefusalReasons(lib: Library, digest: Text, r: Request, evidence: Evidence, now: Time)
    requires ValidRequest(lib, r)
    ensures var out := Verdicts(lib, digest, r, evidence, now);
            && (now < r.createdAt ==> Refuses(out, NotAdmitted))
            && (now >= r.expiresAt ==> Refuses(out, Expired))
            && (r.createdAt <= now < r.expiresAt ==>
                  if evidence.doneBefore || !evidence.portsPresent then out.None?
                  else if evidence.read.ReadFailed? then Answers(out, evidence.read.error)
                  else if evidence.doneAfterRead then out.None?
                  else MatchesSnapshot(r, evidence.read.frozen) || Refuses(out, Snapshot))
  {
    hide MatchesSnapshot;
    hide VerdictFrom;
  }

  /** With the snapshot in order, the first revision that fails decides. */
  lemma FirstFaultDecides(lib: Library, digest: Text, r: Request, evidence: Evidence, now: Time, i: nat)
    requires ValidRequest(lib, r) && r.createdAt <= now < r.expiresAt
    requires !evidence.doneBefore && evidence.portsPresent && evidence.read.ReadOk? && !evidence.doneAfterRead
    requires MatchesSnapshot(r, evidence.read.frozen) && FirstFault(evidence, evidence.read.frozen.revisions, i)
    ensures var out := Verdicts(lib, digest, r, evidence, now);
            if !WellFormed(evidence.read.frozen.revisions[i]) then Refuses(out, Content)
            else if evidence.verdicts(i).Rejected? then Answers(out, evidence.verdicts(i).error)
            else out.None?
  {
    var status := Status(OtherPhase([]), digest, r.snapshotFingerprint, r.snapshotCount, NoReason, now);
    VerdictAtFault(status, evidence, evidence.read.frozen.revisions, 0, i);
    hide ValidRequest;
    hide MatchesSnapshot;
    hide WellFormed;
  }

  predicate Refuses(out: Option<Status>, reason: Reason) {
    out.Some? && out.value.phase.Refused? && out.value.reason == reason
  }

  /** A stale snapshot refuses as such, a wrong owner or broken content as content, and anything else is an error. */
  predicate Answers(out: Option<Status>, error: PortError) {
    if error.StaleSnapshot? then Refuses(out, Snapshot)
    else if error.WrongOwner? || error.ContentIntegrity? then Refuses(out, Content)
    else out.None?
  }

  /** A revision nothing is wrong with. */
  function SomeRevision(digest: Text): Revision {
    Revision([1], [1], [1], digest, 0)
  }

  /** Evidence under which verification comes to a given outcome. */
  function EvidenceFor(r: Request, s: Status): Evidence {
    var frozen := FrozenSet(r.snapshotFingerprint, r.snapshotCount,
                            seq(r.snapshotCount, _ => SomeRevision(r.snapshotFingerprint)));
    var read := if s.reason.Snapshot? then ReadFailed(StaleSnapshot)
                else if s.reason.Content? then ReadFailed(WrongOwner) else ReadOk(frozen);
    Evidence(false, true, read, false, i => Accepted)
  }

  lemma {:induction false} AllAcceptedVerifies(status: Status, evidence: Evidence, revisions: seq<Revision>, i: nat)
    requires i <= |revisions|
    requires forall k :: 0 <= k < |revisions| ==> WellFormed(revisions[k]) && evidence.verdicts(k).Accepted?
    ensures VerdictFrom(status, evidence, revisions, i) == Some(status.(phase := Verified))
    decreases |revisions| - i
  {
    if i < |revisions| {
      AllAcceptedVerifies(status, evidence, revisions, i + 1);
    }
  }

  /** A status valid for a request is one that verification could have come to when it was completed. */
  lemma ValidIsPossible(lib: Library, digest: Text, s: Status, r: Request, now: Time)
    requires ValidFor(lib, digest, s, r, now)
    ensures Verdicts(lib, digest, r, EvidenceFor(r, s), s.completedAt) == Some(s)
  {
    var status := Status(OtherPhase([]), digest, r.snapshotFingerprint, r.snapshotCount, NoReason, s.completedAt);
    var evidence := EvidenceFor(r, s);
    if evidence.read.ReadOk? {
      AllAcceptedVerifies(status, evidence, evidence.read.frozen.revisions, 0);
    }
    hide ValidDigest;
    hide VerdictFrom;
  }

  /**
   * Exactly the possible verdicts are valid: a status is valid for a request at a time if and only if
   * verification of that request can come to it at its own, non-zero completion time, and it stands since.
   */
  lemma ValidIffPossible(lib: Library, digest: Text, s: Status, r: Request, now: Time)
    ensures ValidFor(lib, digest, s, r, now) <==>
            && s.completedAt != 0 && s.completedAt <= now
            && (s.reason.Expired? || s.reason.NotAdmitted? || now < r.expiresAt)
            && exists evidence :: Verdicts(lib, digest, r, evidence, s.completedAt) == Some(s)
  {
    if ValidFor(lib, digest, s, r, now) {
      ValidIsPossible(lib, digest, s, r, now);
      VerdictStands(lib, digest, r, EvidenceFor(r, s), s.completedAt, now);
    }
    if s.completedAt <= now && exists evidence :: Verdicts(lib, digest, r, evidence, s.completedAt) == Some(s) {
      var evidence :| Verdicts(lib, digest, r, evidence, s.completedAt) == Some(s);
      VerdictStands(lib, digest, r, evidence, s.completedAt, now);
    }
    hide Verdicts;
    hide ValidFor;
  }
}
