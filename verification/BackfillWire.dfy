/** The canonical CBOR envelopes of the backfill request, its terminal status and the archive bundle. */
module BackfillWire {
  import opened Bytes
  import opened SandboxTypes
  import opened Backfill
  import C = Cbor

  const MAX_REQUEST_BYTES := 1024
  const MAX_STATUS_BYTES := 2048

  /** The first instant of year 10000, counted from the zero time. */
  const YEAR_10000: Time := 315_537_897_600_000_000_000

  predicate FourDigitYear(t: Time) {
    0 <= t < YEAR_10000
  }

  /**
   * What the encodings ask of the library: time text and nonces determine what they stand for, time
   * text is bounded, and a digest has the form of one.
   */
  ghost predicate Lawful(lib: Library) {
    && (forall t, u :: lib.formatTime(t) == lib.formatTime(u) ==> t == u)
    && (forall t :: |lib.formatTime(t)| <= if FourDigitYear(t) then 30 else 64)
    && (forall m, n :: lib.nonceBytes(m).Some? && lib.nonceBytes(m) == lib.nonceBytes(n) ==> m == n)
    && (forall bytes :: ValidDigest(lib.sha256(bytes)))
  }

  // ----- Fields -----

  function RequestItems(lib: Library, r: Request): seq<C.Item>
    requires ValidRequest(lib, r)
  {
    [ C.UInt(1), C.Text(r.stackDigest), C.UInt(r.migrationVersion), C.Text(r.migrationArtifactDigest),
      C.Text(r.manifestDigest), C.Text(r.controllerImageDigest), C.Text(r.snapshotFingerprint),
      C.UInt(r.snapshotCount), C.Blob(lib.nonceBytes(r.fenceNonce).value), C.Text(r.staticReadinessDigest),
      C.Text(r.databaseAuthorityDigest), C.Text(r.blobReadCapabilityDigest),
      C.Text(lib.formatTime(r.createdAt)), C.Text(lib.formatTime(r.expiresAt)) ]
  }

  function PhaseText(phase: Phase): Text {
    if phase.Verified? then Ascii("Verified") else Ascii("Refused")
  }

  function ReasonText(reason: Reason): Text {
    match reason
    case Snapshot => Ascii("snapshot")
    case Content => Ascii("content")
    case Expired => Ascii("expired")
    case NotAdmitted => Ascii("not_admitted")
    case _ => []
  }

  /** The statuses Canonical accepts. */
  predicate EncodableStatus(s: Status) {
    && IsTerminal(s.phase) && ValidDigest(s.requestDigest) && ValidDigest(s.snapshotFingerprint)
    && 0 < s.snapshotCount <= MAXIMUM_COUNT && s.completedAt != 0
    && (if s.phase.Verified? then s.reason.NoReason? else ValidReason(s.reason))
  }

  function StatusItems(lib: Library, s: Status): seq<C.Item> {
    [ C.UInt(1), C.Text(PhaseText(s.phase)), C.Text(s.requestDigest), C.Text(s.snapshotFingerprint),
      C.UInt(s.snapshotCount), C.Text(ReasonText(s.reason)), C.Text(lib.formatTime(s.completedAt)) ]
  }

  function AuditText(code: AuditCode): Text {
    match code
    case AuditVerified => Ascii("verified")
    case AuditSnapshot => Ascii("refused_snapshot")
    case AuditContent => Ascii("refused_content")
    case AuditExpired => Ascii("refused_expired")
    case AuditNotAdmitted => Ascii("refused_not_admitted")
    case OtherAudit(text) => text
  }

  /** The parts of a bundle encode. */
  predicate PartsEncode(lib: Library, b: Bundle) {
    ValidRequest(lib, b.request) && EncodableStatus(b.status)
  }

  /** Lengths fit a machine word. */
  predicate TextsFit(b: Bundle) {
    |b.uid| < U64 && |AuditText(b.audit)| < U64 && (b.certificate.Some? ==> |b.certificate.value| < U64)
  }

  /** A bundle as archiving makes them. */
  predicate EncodableBundle(lib: Library, b: Bundle) {
    && 0 < |b.uid| <= 128 && PartsEncode(lib, b) && AuditFor(b.status) == Some(b.audit)
    && (b.certificate.Some? ==> ValidDigest(b.certificate.value))
  }

  // ----- Sizes -----

  function Sum(weights: seq<nat>): nat {
    if weights == [] then 0 else weights[0] + Sum(weights[1..])
  }

  lemma {:induction false} ItemsBound(items: seq<C.Item>, weights: seq<nat>)
    requires C.AllEncodable(items) && |items| == |weights|
    requires forall i :: 0 <= i < |items| ==> |C.EncodeItem(items[i])| <= weights[i]
    ensures |C.EncodeItems(items)| <= Sum(weights)
  {
    hide C.EncodeItem;
    if items != [] {
      ItemsBound(items[1..], weights[1..]);
    }
  }

  lemma ItemBound(item: C.Item)
    requires C.Encodable(item)
    ensures item.UInt? ==> |C.EncodeItem(item)| <= if item.n < 24 then 1 else 9
    ensures item.Null? ==> |C.EncodeItem(item)| == 1
    ensures item.Text? && |item.text| < 0x1_0000 ==> |C.EncodeItem(item)| <= |item.text| + Overhead(|item.text|)
    ensures item.Blob? && |item.bytes| < 0x1_0000 ==> |C.EncodeItem(item)| <= |item.bytes| + Overhead(|item.bytes|)
  {
  }

  function Overhead(length: nat): nat {
    if length < 24 then 1 else if length <= 0xff then 2 else 3
  }

  /** Bounds on the encoded fields, with `time` for each time text. */
  function RequestWeights(time: nat): seq<nat> {
    [1, 73, 1, 73, 73, 73, 73, 9, 34, 73, 73, 73, time, time]
  }

  function StatusWeights(time: nat): seq<nat> {
    [1, 9, 73, 73, 9, 13, time]
  }

  function BundleWeights(request: nat, status: nat): seq<nat> {
    [1, 130, request, status, 21, 73]
  }

  lemma WeightSums(time: nat, request: nat, status: nat)
    ensures Sum(RequestWeights(time)) == 629 + 2 * time && Sum(StatusWeights(time)) == 178 + time
    ensures Sum(BundleWeights(request, status)) == 225 + request + status
  {
    SumFour(34, 73, 73, 73, [time, time]);
    SumFour(73, 73, 73, 9, [34, 73, 73, 73] + [time, time]);
    SumFour(1, 73, 1, 73, [73, 73, 73, 9] + ([34, 73, 73, 73] + [time, time]));
    assert RequestWeights(time) == [1, 73, 1, 73] + ([73, 73, 73, 9] + ([34, 73, 73, 73] + [time, time]));
    SumTwo(time, time);
    SumFour(9, 73, 73, 9, [13, time]);
    assert StatusWeights(time)[1..] == [9, 73, 73, 9] + [13, time];
    SumTwo(13, time);
    SumFour(1, 130, request, status, [21, 73]);
    assert BundleWeights(request, status) == [1, 130, request, status] + [21, 73];
    SumTwo(21, 73);
  }

  lemma SumTwo(a: nat, b: nat)
    ensures Sum([a, b]) == a + b
  {
    assert [a, b][1..] == [b] && [b][1..] == [];
    assert Sum([b]) == b + Sum([b][1..]) && Sum([a, b]) == a + Sum([a, b][1..]);
  }

  lemma SumFour(a: nat, b: nat, c: nat, d: nat, rest: seq<nat>)
    ensures Sum([a, b, c, d] + rest) == a + b + c + d + Sum(rest)
  {
    var s := [a, b, c, d] + rest;
    assert s[1..][1..][1..][1..] == rest;
    assert Sum(s) == s[0] + Sum(s[1..]) == s[0] + s[1] + Sum(s[1..][1..]);
    assert Sum(s[1..][1..]) == s[2] + Sum(s[1..][1..][1..]) == s[2] + s[3] + Sum(s[1..][1..][1..][1..]);
  }

  /** The encoding of a time text takes at most this much. */
  function TimeWeight(t: Time): nat {
    if FourDigitYear(t) then 32 else 66
  }

  lemma TimeFits(lib: Library, t: Time)
    requires Lawful(lib)
    ensures |lib.formatTime(t)| + 2 <= TimeWeight(t)
  {
  }

  lemma RequestEncodes(lib: Library, r: Request)
    requires Lawful(lib) && ValidRequest(lib, r)
    ensures C.AllEncodable(RequestItems(lib, r))
  {
    DigestLengths(lib, r);
    hide ValidRequest;
  }

  /** Each field's encoding within its bound. */
  lemma RequestItemBounds(lib: Library, r: Request, time: nat)
    requires Lawful(lib) && ValidRequest(lib, r)
    requires |lib.formatTime(r.createdAt)| + 2 <= time && |lib.formatTime(r.expiresAt)| + 2 <= time
    ensures var items := RequestItems(lib, r);
            && |items| == 14 && C.AllEncodable(items)
            && forall i :: 0 <= i < 14 ==> |C.EncodeItem(items[i])| <= RequestWeights(time)[i]
  {
    DigestLengths(lib, r);
    RequestEncodes(lib, r);
    hide ValidRequest;
    hide Lawful;
    hide C.EncodeItem;
    var items := RequestItems(lib, r);
    forall i | 0 <= i < 14 ensures |C.EncodeItem(items[i])| <= RequestWeights(time)[i] {
      ItemBound(items[i]);
    }
  }

  lemma RequestSize(lib: Library, r: Request)
    requires Lawful(lib) && ValidRequest(lib, r)
    ensures C.AllEncodable(RequestItems(lib, r)) && |C.EncodeArray(RequestItems(lib, r))| <= 762
    ensures FourDigitYear(r.createdAt) && FourDigitYear(r.expiresAt) ==> |C.EncodeArray(RequestItems(lib, r))| <= 694
  {
    hide C.EncodeItem;
    hide C.EncodeItems;
    hide ValidRequest;
    hide Lawful;
    hide RequestItems;
    TimeFits(lib, r.createdAt);
    TimeFits(lib, r.expiresAt);
    var time := if FourDigitYear(r.createdAt) && FourDigitYear(r.expiresAt) then 32 else 66;
    RequestItemBounds(lib, r, time);
    ItemsBound(RequestItems(lib, r), RequestWeights(time));
    WeightSums(time, 0, 0);
  }

  lemma DigestLengths(lib: Library, r: Request)
    requires ValidRequest(lib, r)
    ensures |r.stackDigest| == |r.migrationArtifactDigest| == |r.manifestDigest| == |r.controllerImageDigest|
         == |r.snapshotFingerprint| == |r.staticReadinessDigest| == |r.databaseAuthorityDigest|
         == |r.blobReadCapabilityDigest| == 71
    ensures r.migrationVersion == 4 && r.snapshotCount < U64 && |lib.nonceBytes(r.fenceNonce).value| == 32
  {
  }

  lemma StatusSize(lib: Library, s: Status)
    requires Lawful(lib) && EncodableStatus(s)
    ensures C.AllEncodable(StatusItems(lib, s)) && |C.EncodeArray(StatusItems(lib, s))| <= 245
    ensures FourDigitYear(s.completedAt) ==> |C.EncodeArray(StatusItems(lib, s))| <= 211
  {
    hide C.EncodeItem;
    var items, time := StatusItems(lib, s), TimeWeight(s.completedAt);
    assert C.AllEncodable(items);
    forall i | 0 <= i < 7 ensures |C.EncodeItem(items[i])| <= StatusWeights(time)[i] {
      ItemBound(items[i]);
    }
    ItemsBound(items, StatusWeights(time));
    WeightSums(time, 0, 0);
  }

  // ----- Bytes -----

  ghost function RequestBytes(lib: Library, r: Request): (bytes: seq<Byte>)
    requires Lawful(lib) && ValidRequest(lib, r)
    ensures |bytes| <= if FourDigitYear(r.createdAt) && FourDigitYear(r.expiresAt) then 694 else 762
  {
    RequestSize(lib, r);
    C.EncodeArray(RequestItems(lib, r))
  }

  ghost function StatusBytes(lib: Library, s: Status): (bytes: seq<Byte>)
    requires Lawful(lib) && EncodableStatus(s)
    ensures |bytes| <= if FourDigitYear(s.completedAt) then 211 else 245
  {
    StatusSize(lib, s);
    C.EncodeArray(StatusItems(lib, s))
  }

  ghost function BundleItems(lib: Library, b: Bundle): (items: seq<C.Item>)
    requires Lawful(lib) && PartsEncode(lib, b) && TextsFit(b)
    ensures |items| == 6 && C.AllEncodable(items)
  {
    [ C.UInt(1), C.Text(b.uid), C.Blob(RequestBytes(lib, b.request)), C.Blob(StatusBytes(lib, b.status)),
      C.Text(AuditText(b.audit)), if b.certificate.Some? then C.Text(b.certificate.value) else C.Null ]
  }

  ghost predicate FourDigitYears(b: Bundle) {
    FourDigitYear(b.request.createdAt) && FourDigitYear(b.request.expiresAt) && FourDigitYear(b.status.completedAt)
  }

  lemma BundleTextsFit(lib: Library, b: Bundle)
    requires EncodableBundle(lib, b)
    ensures TextsFit(b) && |AuditText(b.audit)| <= 20 && (b.certificate.Some? ==> |b.certificate.value| == 71)
  {
    hide ValidRequest;
    hide EncodableStatus;
  }

  /** Each field's encoding within its bound. */
  lemma BundleItemBounds(lib: Library, b: Bundle, request: nat, status: nat)
    requires Lawful(lib) && EncodableBundle(lib, b) && TextsFit(b)
    requires |RequestBytes(lib, b.request)| + 3 <= request && |StatusBytes(lib, b.status)| + 2 <= status
    ensures var items := BundleItems(lib, b);
            forall i :: 0 <= i < 6 ==> |C.EncodeItem(items[i])| <= BundleWeights(request, status)[i]
  {
    BundleTextsFit(lib, b);
    hide C.EncodeItem;
    hide TextsFit;
    hide FourDigitYear;
    hide RequestBytes;
    hide StatusBytes;
    hide PartsEncode;
    hide AuditFor;
    hide ValidDigest;
    hide Lawful;
    var items := BundleItems(lib, b);
    ItemBound(items[0]);
    ItemBound(items[1]);
    ItemBound(items[2]);
    ItemBound(items[3]);
    ItemBound(items[4]);
    ItemBound(items[5]);
  }

  lemma BundleSize(lib: Library, b: Bundle)
    requires Lawful(lib) && EncodableBundle(lib, b)
    ensures TextsFit(b) && |C.EncodeArray(BundleItems(lib, b))| <= 1238
    ensures FourDigitYears(b) ==> |C.EncodeArray(BundleItems(lib, b))| <= 1136
  {
    BundleTextsFit(lib, b);
    hide C.EncodeItem;
    hide C.EncodeItems;
    hide RequestBytes;
    hide StatusBytes;
    hide EncodableBundle;
    hide BundleItems;
    var request, status := if FourDigitYears(b) then 697 else 765, if FourDigitYears(b) then 213 else 247;
    BundleItemBounds(lib, b, request, status);
    ItemsBound(BundleItems(lib, b), BundleWeights(request, status));
    WeightSums(0, request, status);
  }

  ghost function BundleBytes(lib: Library, b: Bundle): (bytes: seq<Byte>)
    requires Lawful(lib) && EncodableBundle(lib, b)
    ensures |bytes| <= if FourDigitYears(b) then 1136 else 1238
  {
    BundleSize(lib, b);
    C.EncodeArray(BundleItems(lib, b))
  }

  /** What archiving accepts encodes. */
  lemma ArchivableEncodes(lib: Library, b: Bundle, claimed: Text)
    requires Lawful(lib) && ValidRequest(lib, b.request)
    requires Archivable(lib, lib.sha256(RequestBytes(lib, b.request)), claimed, b)
    ensures EncodableBundle(lib, b)
  {
  }

  /** So every verdict at a non-zero time, archived with its audit code, has canonical archive bytes. */
  lemma VerdictEncodes(lib: Library, r: Request, evidence: Evidence, now: Time, uid: Text)
    requires Lawful(lib) && ValidRequest(lib, r) && now != 0 && ArchiveUid(uid)
    requires Verdicts(lib, lib.sha256(RequestBytes(lib, r)), r, evidence, now).Some?
    ensures var status := Verdicts(lib, lib.sha256(RequestBytes(lib, r)), r, evidence, now).value;
            AuditFor(status).Some? && EncodableBundle(lib, Bundle(uid, r, status, AuditFor(status).value, None))
  {
    var digest := lib.sha256(RequestBytes(lib, r));
    var status := Verdicts(lib, digest, r, evidence, now).value;
    hide Verdicts;
    hide RequestBytes;
    VerdictArchivable(lib, digest, r, evidence, now, uid, AuditVerified);
    VerdictArchivable(lib, digest, r, evidence, now, uid, AuditFor(status).value);
    ArchivableEncodes(lib, Bundle(uid, r, status, AuditFor(status).value, None), digest);
  }

  // ----- Unique decodability -----

  /** Equal bytes, even with anything after them, mean the same request. */
  lemma RequestUnique(lib: Library, a: Request, b: Request, x: seq<Byte>, y: seq<Byte>)
    requires Lawful(lib) && ValidRequest(lib, a) && ValidRequest(lib, b)
    requires RequestBytes(lib, a) + x == RequestBytes(lib, b) + y
    ensures a == b && x == y
  {
    RequestSize(lib, a);
    RequestSize(lib, b);
    var p, q := RequestItems(lib, a), RequestItems(lib, b);
    C.ArrayPrefixFree(p, q, x, y);
    assert p[1] == q[1] && p[2] == q[2] && p[3] == q[3] && p[4] == q[4] && p[5] == q[5] && p[6] == q[6];
    assert p[7] == q[7] && p[8] == q[8] && p[9] == q[9] && p[10] == q[10] && p[11] == q[11];
    assert p[12] == q[12] && p[13] == q[13];
  }

  lemma StatusUnique(lib: Library, a: Status, b: Status, x: seq<Byte>, y: seq<Byte>)
    requires Lawful(lib) && EncodableStatus(a) && EncodableStatus(b)
    requires StatusBytes(lib, a) + x == StatusBytes(lib, b) + y
    ensures a == b && x == y
  {
    StatusSize(lib, a);
    StatusSize(lib, b);
    var p, q := StatusItems(lib, a), StatusItems(lib, b);
    C.ArrayPrefixFree(p, q, x, y);
    assert p[1] == q[1] && p[2] == q[2] && p[3] == q[3] && p[4] == q[4] && p[5] == q[5] && p[6] == q[6];
    assert |PhaseText(a.phase)| == |PhaseText(b.phase)|;
    assert Ascii("content")[0] != Ascii("expired")[0];
  }

  /** Equal archive bytes mean the same request, status, audit code and certificate under the same UID. */
  lemma BundleUnique(lib: Library, a: Bundle, b: Bundle, x: seq<Byte>, y: seq<Byte>)
    requires Lawful(lib) && EncodableBundle(lib, a) && EncodableBundle(lib, b)
    requires BundleBytes(lib, a) + x == BundleBytes(lib, b) + y
    ensures a == b && x == y
  {
    BundleSize(lib, a);
    BundleSize(lib, b);
    var p, q := BundleItems(lib, a), BundleItems(lib, b);
    C.ArrayPrefixFree(p, q, x, y);
    hide RequestBytes;
    hide StatusBytes;
    hide EncodableStatus;
    hide PartsEncode;
    assert p[1] == q[1] && p[2] == q[2] && p[3] == q[3] && p[5] == q[5];
    RequestUnique(lib, a.request, b.request, [], []);
    StatusUnique(lib, a.status, b.status, [], []);
  }

  // ----- Writing -----

  /** The buffer holds an array head and the encodings of the items written so far. */
  ghost predicate Wrote(buffer: seq<Byte>, count: nat, done: seq<C.Item>) {
    count < U64 && C.AllEncodable(done) && buffer == C.Head(4, count) + C.EncodeItems(done)
  }

  lemma {:induction false} EncodeItemsSnoc(done: seq<C.Item>, item: C.Item)
    requires C.AllEncodable(done) && C.Encodable(item)
    ensures C.AllEncodable(done + [item])
    ensures C.EncodeItems(done + [item]) == C.EncodeItems(done) + C.EncodeItem(item)
  {
    hide C.EncodeItem;
    if done == [] {
      assert done + [item] == [item];
      assert C.EncodeItems([item]) == C.EncodeItem(item) + C.EncodeItems([item][1..]);
    } else {
      assert (done + [item])[1..] == done[1..] + [item];
      EncodeItemsSnoc(done[1..], item);
      Associative(C.EncodeItem(done[0]), C.EncodeItems(done[1..]), C.EncodeItem(item));
    }
  }

  lemma WroteMore(buffer: seq<Byte>, count: nat, done: seq<C.Item>, item: C.Item)
    requires Wrote(buffer, count, done) && C.Encodable(item)
    ensures Wrote(buffer + C.EncodeItem(item), count, done + [item])
  {
    hide C.EncodeItem;
    hide C.EncodeItems;
    hide C.Head;
    EncodeItemsSnoc(done, item);
    Associative(C.Head(4, count), C.EncodeItems(done), C.EncodeItem(item));
  }

  method WriteUint(buffer: seq<Byte>, value: nat, ghost count: nat, ghost done: seq<C.Item>) returns (out: seq<Byte>)
    requires value < U64 && Wrote(buffer, count, done)
    ensures Wrote(out, count, done + [C.UInt(value)])
  {
    hide Wrote;
    WroteMore(buffer, count, done, C.UInt(value));
    out := C.WriteHead(buffer, 0, value);
  }

  method WriteText(buffer: seq<Byte>, value: Text, ghost count: nat, ghost done: seq<C.Item>) returns (out: seq<Byte>)
    requires |value| < U64 && Wrote(buffer, count, done)
    ensures Wrote(out, count, done + [C.Text(value)])
  {
    hide Wrote;
    hide C.Head;
    WroteMore(buffer, count, done, C.Text(value));
    out := C.WriteHead(buffer, 3, |value|);
    out := out + value;
    Associative(buffer, C.Head(3, |value|), value);
  }

  method WriteBytes(buffer: seq<Byte>, value: seq<Byte>, ghost count: nat,
                    ghost done: seq<C.Item>) returns (out: seq<Byte>)
    requires |value| < U64 && Wrote(buffer, count, done)
    ensures Wrote(out, count, done + [C.Blob(value)])
  {
    hide Wrote;
    hide C.Head;
    WroteMore(buffer, count, done, C.Blob(value));
    out := C.WriteHead(buffer, 2, |value|);
    out := out + value;
    Associative(buffer, C.Head(2, |value|), value);
  }

  method Begin(count: nat) returns (out: seq<Byte>)
    requires count < U64
    ensures Wrote(out, count, [])
  {
    out := C.WriteHead([], 4, count);
    assert [] + C.Head(4, count) == C.Head(4, count) + C.EncodeItems([]);
  }

  /** The bound never trips: exactly the valid requests encode. */
  method CanonicalRequest(lib: Library, r: Request) returns (out: Option<seq<Byte>>)
    requires Lawful(lib)
    ensures out == if ValidRequest(lib, r) then Some(RequestBytes(lib, r)) else None
  {
    if !ValidRequest(lib, r) {
      return None;
    }
    DigestLengths(lib, r);
    var value := WriteDigests(lib, r);
    value := WriteRest(lib, r, value);
    WroteAll(value, 14, RequestItems(lib, r));
    hide ValidRequest;
    if |value| > MAX_REQUEST_BYTES {
      return None;
    }
    return Some(value);
  }

  /** The request's fields up to the manifest digest. */
  method WriteFirst(lib: Library, r: Request) returns (value: seq<Byte>)
    requires ValidRequest(lib, r)
    ensures Wrote(value, 14, RequestItems(lib, r)[..4])
  {
    DigestLengths(lib, r);
    ghost var items := RequestItems(lib, r);
    hide Wrote;
    hide ValidRequest;
    value := Begin(14);
    value := WriteUint(value, 1, 14, []);
    value := WriteText(value, r.stackDigest, 14, [] + [items[0]]);
    assert [] + [items[0]] + [items[1]] == items[..2];
    value := WriteUint(value, r.migrationVersion, 14, items[..2]);
    assert items[..2] + [items[2]] == items[..3];
    value := WriteText(value, r.migrationArtifactDigest, 14, items[..3]);
    assert items[..3] + [items[3]] == items[..4];
  }

  /** The request's fields up to the snapshot fingerprint. */
  method WriteDigests(lib: Library, r: Request) returns (value: seq<Byte>)
    requires ValidRequest(lib, r)
    ensures Wrote(value, 14, RequestItems(lib, r)[..7])
  {
    DigestLengths(lib, r);
    ghost var items := RequestItems(lib, r);
    hide Wrote;
    hide ValidRequest;
    value := WriteFirst(lib, r);
    value := WriteText(value, r.manifestDigest, 14, items[..4]);
    assert items[..4] + [items[4]] == items[..5];
    value := WriteText(value, r.controllerImageDigest, 14, items[..5]);
    assert items[..5] + [items[5]] == items[..6];
    value := WriteText(value, r.snapshotFingerprint, 14, items[..6]);
    assert items[..6] + [items[6]] == items[..7];
  }

  /** The request's fields from the snapshot count on. */
  method WriteRest(lib: Library, r: Request, start: seq<Byte>) returns (value: seq<Byte>)
    requires Lawful(lib) && ValidRequest(lib, r) && Wrote(start, 14, RequestItems(lib, r)[..7])
    ensures Wrote(value, 14, RequestItems(lib, r))
  {
    DigestLengths(lib, r);
    ghost var items := RequestItems(lib, r);
    hide Wrote;
    hide ValidRequest;
    value := WriteUint(start, r.snapshotCount, 14, items[..7]);
    assert items[..7] + [items[7]] == items[..8];
    value := WriteBytes(value, lib.nonceBytes(r.fenceNonce).value, 14, items[..8]);
    assert items[..8] + [items[8]] == items[..9];
    value := WriteText(value, r.staticReadinessDigest, 14, items[..9]);
    assert items[..9] + [items[9]] == items[..10];
    value := WriteText(value, r.databaseAuthorityDigest, 14, items[..10]);
    assert items[..10] + [items[10]] == items[..11];
    value := WriteText(value, r.blobReadCapabilityDigest, 14, items[..11]);
    assert items[..11] + [items[11]] == items[..12];
    value := WriteText(value, lib.formatTime(r.createdAt), 14, items[..12]);
    assert items[..12] + [items[12]] == items[..13];
    value := WriteText(value, lib.formatTime(r.expiresAt), 14, items[..13]);
    assert items[..13] + [items[13]] == items;
  }

  lemma WroteAll(buffer: seq<Byte>, count: nat, items: seq<C.Item>)
    requires Wrote(buffer, count, items) && |items| == count
    ensures C.AllEncodable(items) && buffer == C.EncodeArray(items)
  {
  }

  /** Here too: exactly the valid terminal statuses encode. */
  method CanonicalStatus(lib: Library, s: Status) returns (out: Option<seq<Byte>>)
    requires Lawful(lib)
    ensures out == if EncodableStatus(s) then Some(StatusBytes(lib, s)) else None
  {
    if !IsTerminal(s.phase) || !ValidDigest(s.requestDigest) || !ValidDigest(s.snapshotFingerprint)
       || s.snapshotCount == 0 || s.snapshotCount > MAXIMUM_COUNT || s.completedAt == 0 {
      return None;
    }
    if (s.phase.Verified? && !s.reason.NoReason?) || (s.phase.Refused? && !ValidReason(s.reason)) {
      return None;
    }
    ghost var items := StatusItems(lib, s);
    hide Wrote;
    var value := Begin(7);
    value := WriteUint(value, 1, 7, []);
    value := WriteText(value, PhaseText(s.phase), 7, [] + [items[0]]);
    assert [] + [items[0]] + [items[1]] == items[..2];
    value := WriteText(value, s.requestDigest, 7, items[..2]);
    assert items[..2] + [items[2]] == items[..3];
    value := WriteText(value, s.snapshotFingerprint, 7, items[..3]);
    assert items[..3] + [items[3]] == items[..4];
    value := WriteUint(value, s.snapshotCount, 7, items[..4]);
    assert items[..4] + [items[4]] == items[..5];
    value := WriteText(value, ReasonText(s.reason), 7, items[..5]);
    assert items[..5] + [items[5]] == items[..6];
    value := WriteText(value, lib.formatTime(s.completedAt), 7, items[..6]);
    assert items[..6] + [items[6]] == items;
    WroteAll(value, 7, items);
    if |value| > MAX_STATUS_BYTES {
      return None;
    }
    return Some(value);
  }

  /**
   * A bundle with an invalid part or past the bound is refused, every other one encodes.  Bundles made
   * by archiving are never past the bound.
   */
  method CanonicalBundle(lib: Library, b: Bundle) returns (out: Option<seq<Byte>>)
    requires Lawful(lib) && TextsFit(b)
    ensures out.Some? <==> PartsEncode(lib, b) && |C.EncodeArray(BundleItems(lib, b))| <= MAX_STATUS_BYTES
    ensures out.Some? ==> out.value == C.EncodeArray(BundleItems(lib, b))
    ensures EncodableBundle(lib, b) ==> out == Some(BundleBytes(lib, b))
  {
    var request := CanonicalRequest(lib, b.request);
    if request.None? {
      return None;
    }
    var status := CanonicalStatus(lib, b.status);
    if status.None? {
      return None;
    }
    var value := WriteBundle(lib, b, request.value, status.value);
    if EncodableBundle(lib, b) {
      BundleSize(lib, b);
    }
    if |value| > MAX_STATUS_BYTES {
      return None;
    }
    return Some(value);
  }

  method WriteBundle(lib: Library, b: Bundle, request: seq<Byte>, status: seq<Byte>) returns (value: seq<Byte>)
    requires Lawful(lib) && PartsEncode(lib, b) && TextsFit(b)
    requires request == RequestBytes(lib, b.request) && status == StatusBytes(lib, b.status)
    ensures value == C.EncodeArray(BundleItems(lib, b))
  {
    ghost var items := BundleItems(lib, b);
    assert |request| < U64 && |status| < U64;
    hide Wrote;
    hide RequestBytes;
    hide StatusBytes;
    hide PartsEncode;
    hide AuditText;
    value := Begin(6);
    value := WriteUint(value, 1, 6, []);
    value := WriteText(value, b.uid, 6, [] + [items[0]]);
    assert [] + [items[0]] + [items[1]] == items[..2];
    value := WriteBytes(value, request, 6, items[..2]);
    assert items[..2] + [items[2]] == items[..3];
    value := WriteBytes(value, status, 6, items[..3]);
    assert items[..3] + [items[3]] == items[..4];
    value := WriteText(value, AuditText(b.audit), 6, items[..4]);
    assert items[..4] + [items[4]] == items[..5];
    if b.certificate.None? {
      WroteMore(value, 6, items[..5], C.Null);
      value := value + [0xf6];
    } else {
      value := WriteText(value, b.certificate.value, 6, items[..5]);
    }
    assert items[..5] + [items[5]] == items;
    WroteAll(value, 6, items);
  }

  // ----- What a standard reader finds -----

  /** The fields of a request, in order, as any decoder reads them. */
  lemma RequestReads(lib: Library, r: Request, rest: seq<Byte>)
    requires Lawful(lib) && ValidRequest(lib, r)
    ensures C.ReadArray(RequestBytes(lib, r) + rest) == Some(C.ParsedItems(
              [C.UInt(1), C.Text(r.stackDigest), C.UInt(4), C.Text(r.migrationArtifactDigest), C.Text(r.manifestDigest),
               C.Text(r.controllerImageDigest), C.Text(r.snapshotFingerprint), C.UInt(r.snapshotCount),
               C.Blob(lib.nonceBytes(r.fenceNonce).value), C.Text(r.staticReadinessDigest),
               C.Text(r.databaseAuthorityDigest), C.Text(r.blobReadCapabilityDigest),
               C.Text(lib.formatTime(r.createdAt)), C.Text(lib.formatTime(r.expiresAt))], rest))
  {
    RequestSize(lib, r);
    C.ArrayRoundTrip(RequestItems(lib, r), rest);
    hide C.ReadArray;
    hide C.EncodeItems;
  }

  /** The fields of a terminal status. */
  lemma StatusReads(lib: Library, s: Status, rest: seq<Byte>)
    requires Lawful(lib) && EncodableStatus(s)
    ensures C.ReadArray(StatusBytes(lib, s) + rest) == Some(C.ParsedItems(
              [C.UInt(1), C.Text(if s.phase.Verified? then Ascii("Verified") else Ascii("Refused")),
               C.Text(s.requestDigest), C.Text(s.snapshotFingerprint), C.UInt(s.snapshotCount),
               C.Text(ReasonText(s.reason)),
               C.Text(lib.formatTime(s.completedAt))], rest))
  {
    StatusSize(lib, s);
    C.ArrayRoundTrip(StatusItems(lib, s), rest);
    hide C.ReadArray;
    hide C.EncodeItems;
  }

  /** The fields of an archive bundle; an absent certificate is null. */
  lemma BundleReads(lib: Library, b: Bundle, rest: seq<Byte>)
    requires Lawful(lib) && EncodableBundle(lib, b)
    ensures C.ReadArray(BundleBytes(lib, b) + rest) == Some(C.ParsedItems(
              [C.UInt(1), C.Text(b.uid), C.Blob(RequestBytes(lib, b.request)), C.Blob(StatusBytes(lib, b.status)),
               C.Text(AuditText(b.audit)), if b.certificate.Some? then C.Text(b.certificate.value) else C.Null], rest))
  {
    BundleSize(lib, b);
    C.ArrayRoundTrip(BundleItems(lib, b), rest);
    hide C.ReadArray;
    hide C.EncodeItems;
    hide RequestBytes;
    hide StatusBytes;
  }

  lemma AsciiJoin(a: string, b: string)
    requires forall i :: 0 <= i < |a| ==> a[i] as int < 128
    requires forall i :: 0 <= i < |b| ==> b[i] as int < 128
    ensures Ascii(a + b) == Ascii(a) + Ascii(b)
  {
  }

  lemma RefusedEarly()
    ensures Ascii("refused_snapshot") == Ascii("refused_") + Ascii("snapshot")
    ensures Ascii("refused_content") == Ascii("refused_") + Ascii("content")
  {
    hide Ascii;
    AsciiJoin("refused_", "snapshot");
    AsciiJoin("refused_", "content");
    assert "refused_" + "snapshot" == "refused_snapshot" && "refused_" + "content" == "refused_content";
  }

  lemma RefusedByTime()
    ensures Ascii("refused_expired") == Ascii("refused_") + Ascii("expired")
    ensures Ascii("refused_not_admitted") == Ascii("refused_") + Ascii("not_admitted")
  {
    hide Ascii;
    AsciiJoin("refused_", "expired");
    AsciiJoin("refused_", "not_admitted");
    assert "refused_" + "expired" == "refused_expired" && "refused_" + "not_admitted" == "refused_not_admitted";
  }

  /** The audit code of a refusal is named after its reason. */
  lemma AuditNamesReason(s: Status)
    requires AuditFor(s).Some?
    ensures AuditText(AuditFor(s).value)
         == if s.phase.Verified? then Ascii("verified") else Ascii("refused_") + ReasonText(s.reason)
  {
    hide Ascii;
    RefusedEarly();
    RefusedByTime();
  }

  /** The texts of the reasons. */
  lemma ReasonTexts()
    ensures ReasonText(NoReason) == []
    ensures ReasonText(Snapshot) == Ascii("snapshot") && ReasonText(Content) == Ascii("content")
    ensures ReasonText(Expired) == Ascii("expired") && ReasonText(NotAdmitted) == Ascii("not_admitted")
  {
  }
}
