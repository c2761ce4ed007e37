/**
 * The length-prefixed field encoding behind capability and effective-spec digests.
 *
 * A field is its decimal length, a colon and its text.  Texts are strings of bytes.
 */
module CanonicalFields {
  import opened Bytes
  import opened SandboxTypes

  // ----- Decimal numbers -----

  function Digit(d: nat): (c: char)
    requires d < 10
    ensures '0' <= c <= '9'
  {
    '0' + d as char
  }

  function Dec(n: nat): (s: string)
    ensures s != []
  {
    if n < 10 then [Digit(n)] else Dec(n / 10) + [Digit(n % 10)]
  }

  predicate AllDigits(s: string) {
    forall i :: 0 <= i < |s| ==> '0' <= s[i] <= '9'
  }

  function Value(s: string): nat
    requires AllDigits(s)
  {
    if s == [] then 0 else Value(s[..|s| - 1]) * 10 + (s[|s| - 1] as int - '0' as int)
  }

  lemma {:induction false} DecValue(n: nat)
    ensures AllDigits(Dec(n)) && Value(Dec(n)) == n
  {
    if n < 10 {
      assert Value([]) == 0 && Dec(n)[..0] == [];
    } else {
      DecValue(n / 10);
      assert Dec(n)[..|Dec(n)| - 1] == Dec(n / 10);
    }
  }

  lemma DecInjective(a: nat, b: nat)
    requires Dec(a) == Dec(b)
    ensures a == b
  {
    DecValue(a);
    DecValue(b);
  }

  function FormatInt(n: int): string {
    if n < 0 then "-" + Dec(-n) else Dec(n)
  }

  lemma FormatIntSign(n: int)
    ensures FormatInt(n) != [] && (FormatInt(n)[0] == '-' <==> n < 0)
  {
    DecValue(if n < 0 then -n else n);
  }

  lemma FormatIntInjective(a: int, b: int)
    requires FormatInt(a) == FormatInt(b)
    ensures a == b
  {
    FormatIntSign(a);
    FormatIntSign(b);
    DecValue(if a < 0 then -a else a);
    DecValue(if b < 0 then -b else b);
    if a < 0 && b < 0 {
      assert FormatInt(a)[1..] == Dec(-a) && FormatInt(b)[1..] == Dec(-b);
    }
  }

  // ----- Cursor texts -----

  /** Output and operation cursors as texts: a stream name, a colon, a number. */
  function CursorText(stream: string, n: nat): string {
    stream + ":" + Dec(n)
  }

  /** Numbers can stand for cursors: texts are distinct and never the two that mean "from the start". */
  lemma CursorTextInjective(stream: string, a: nat, b: nat)
    ensures CursorText(stream, a) == CursorText(stream, b) ==> a == b
    ensures CursorText(stream, a) != "" && CursorText(stream, a) != "0"
  {
    var n := |stream| + 1;
    assert CursorText(stream, a)[n..] == Dec(a) && CursorText(stream, b)[n..] == Dec(b);
    if CursorText(stream, a) == CursorText(stream, b) {
      DecInjective(a, b);
    }
    assert CursorText(stream, a)[|stream|] == ':';
    assert |CursorText(stream, a)| > n;
  }

  // ----- Fields -----

  function Field(text: string): string {
    Dec(|text|) + ":" + text
  }

  /** The first colon. */
  function ColonAt(s: string): (i: int)
    ensures -1 <= i < |s|
  {
    if s == [] then -1
    else if s[0] == ':' then 0
    else var i := ColonAt(s[1..]); if i < 0 then -1 else i + 1
  }

  datatype Parsed = Parsed(text: string, rest: string)

  /** Reads one field off the front of a text. */
  function ReadField(s: string): (p: Option<Parsed>)
    ensures p.Some? ==> |p.value.rest| < |s|
  {
    var i := ColonAt(s);
    if i < 0 || !AllDigits(s[..i]) || i + 1 + Value(s[..i]) > |s| then None
    else
      var n := Value(s[..i]);
      Some(Parsed(s[i + 1..i + 1 + n], s[i + 1 + n..]))
  }

  lemma {:induction false} ColonAfterDigits(digits: string, rest: string)
    requires AllDigits(digits)
    ensures ColonAt(digits + ":" + rest) == |digits|
  {
    var s := digits + ":" + rest;
    if digits != [] {
      ColonAfterDigits(digits[1..], rest);
      assert s[1..] == digits[1..] + ":" + rest;
    }
  }

  lemma FieldRoundTrip(text: string, rest: string)
    ensures ReadField(Field(text) + rest) == Some(Parsed(text, rest))
  {
    var s, digits := Field(text) + rest, Dec(|text|);
    assert s == digits + ":" + (text + rest);
    DecValue(|text|);
    ColonAfterDigits(digits, text + rest);
    var i := |digits|;
    assert s[..i] == digits && s[i + 1..i + 1 + |text|] == text && s[i + 1 + |text|..] == rest;
  }

  /** The fields of a list, one after the other. */
  function Fields(texts: seq<string>): string {
    if texts == [] then "" else Fields(texts[..|texts| - 1]) + Field(texts[|texts| - 1])
  }

  lemma FieldsSnoc(texts: seq<string>, last: string)
    ensures Fields(texts + [last]) == Fields(texts) + Field(last)
  {
    assert (texts + [last])[..|texts|] == texts;
  }

  lemma {:induction false} FieldsCons(first: string, texts: seq<string>)
    ensures Fields([first] + texts) == Field(first) + Fields(texts)
  {
    if texts == [] {
      FieldsSnoc([], first);
      assert [] + [first] == [first] + texts;
    } else {
      var init, last := texts[..|texts| - 1], texts[|texts| - 1];
      FieldsCons(first, init);
      FieldsSnoc([first] + init, last);
      hide Field;
      assert [first] + init + [last] == [first] + texts;
      Associative(Field(first), Fields(init), Field(last));
    }
  }

  /** Every list of fields is read back from its encoding, so equal encodings mean equal lists of any lengths. */
  lemma {:induction false} FieldsUnique(a: seq<string>, b: seq<string>)
    requires Fields(a) == Fields(b)
    ensures a == b
    decreases |a|
  {
    if a != [] && b != [] {
      FieldsCons(a[0], a[1..]);
      FieldsCons(b[0], b[1..]);
      assert [a[0]] + a[1..] == a && [b[0]] + b[1..] == b;
      FieldRoundTrip(a[0], Fields(a[1..]));
      FieldRoundTrip(b[0], Fields(b[1..]));
      FieldsUnique(a[1..], b[1..]);
    }
  }

  // ----- Lists with a count in front -----

  function Counted(texts: seq<string>): seq<string> {
    [Dec(|texts|)] + texts
  }

  lemma CountedUnique(a: seq<string>, b: seq<string>, x: seq<string>, y: seq<string>)
    requires Counted(a) + x == Counted(b) + y
    ensures a == b && x == y
  {
    var s, t := Counted(a) + x, Counted(b) + y;
    assert s[0] == Dec(|a|) && t[0] == Dec(|b|);
    DecInjective(|a|, |b|);
    assert s[1..1 + |a|] == a && t[1..1 + |b|] == b;
    assert s[1 + |a|..] == x && t[1 + |b|..] == y;
  }

  lemma SplitAt(a: seq<string>, b: seq<string>, x: seq<string>, y: seq<string>)
    requires |a| == |b| && a + x == b + y
    ensures a == b && x == y
  {
    assert (a + x)[..|a|] == a && (b + y)[..|b|] == b;
    assert (a + x)[|a|..] == x && (b + y)[|b|..] == y;
  }

  // ----- Capability snapshots -----

  datatype Descriptor = Descriptor(
    state: string, contractVersion: string, conformanceVersion: string, dataPlane: string, limitPrecision: seq<string>)

  datatype KeyLifecycle = KeyLifecycle(
    trustBundleVersion: string, signingKeyId: string, signingAlgorithm: string, revocationEpoch: nat,
    notBefore: int, notAfter: int, rotationGrace: int)

  /**
   * The descriptors in the order they are encoded: control protocol, isolation, guest, resources,
   * reconnect, image admission, output, transfer, mounts, volumes, snapshots, egress, secrets.
   */
  datatype Snapshot = Snapshot(schemaVersion: string, descriptors: seq<Descriptor>, signals: seq<string>,
        trust: KeyLifecycle)

  const DESCRIPTORS := 13

  function DescriptorFields(d: Descriptor): seq<string> {
    [d.state, d.contractVersion, d.conformanceVersion, d.dataPlane] + Counted(d.limitPrecision)
  }

  function AllDescriptorFields(ds: seq<Descriptor>): seq<string> {
    if ds == [] then [] else AllDescriptorFields(ds[..|ds| - 1]) + DescriptorFields(ds[|ds| - 1])
  }

  function TrustFields(t: KeyLifecycle): seq<string> {
    [t.trustBundleVersion, t.signingKeyId, t.signingAlgorithm, Dec(t.revocationEpoch),
     FormatInt(t.notBefore), FormatInt(t.notAfter), FormatInt(t.rotationGrace)]
  }

  function CapabilityTag(): string {
    "sandbox.capabilities/v1"
  }

  function SnapshotFields(s: Snapshot): seq<string> {
    [CapabilityTag(), s.schemaVersion]
    + (AllDescriptorFields(s.descriptors) + (Counted(s.signals) + TrustFields(s.trust)))
  }

  lemma DescriptorUnique(a: Descriptor, b: Descriptor, x: seq<string>, y: seq<string>)
    requires DescriptorFields(a) + x == DescriptorFields(b) + y
    ensures a == b && x == y
  {
    var p := [a.state, a.contractVersion, a.conformanceVersion, a.dataPlane];
    var q := [b.state, b.contractVersion, b.conformanceVersion, b.dataPlane];
    assert DescriptorFields(a) + x == p + (Counted(a.limitPrecision) + x);
    assert DescriptorFields(b) + y == q + (Counted(b.limitPrecision) + y);
    SplitAt(p, q, Counted(a.limitPrecision) + x, Counted(b.limitPrecision) + y);
    CountedUnique(a.limitPrecision, b.limitPrecision, x, y);
    assert p[0] == q[0] && p[1] == q[1] && p[2] == q[2] && p[3] == q[3];
  }

  lemma {:induction false} AllDescriptorFieldsCons(d: Descriptor, ds: seq<Descriptor>)
    ensures AllDescriptorFields([d] + ds) == DescriptorFields(d) + AllDescriptorFields(ds)
  {
    hide DescriptorFields;
    if ds == [] {
      assert [d] + ds == [d] && [d][..0] == [];
    } else {
      var init, last := ds[..|ds| - 1], ds[|ds| - 1];
      AllDescriptorFieldsCons(d, init);
      assert ([d] + ds)[..|ds|] == [d] + init;
      Associative(DescriptorFields(d), AllDescriptorFields(init), DescriptorFields(last));
    }
  }

  lemma {:induction false} AllDescriptorsUnique(a: seq<Descriptor>, b: seq<Descriptor>, x: seq<string>, y: seq<string>)
    requires |a| == |b| && AllDescriptorFields(a) + x == AllDescriptorFields(b) + y
    ensures a == b && x == y
  {
    if a == [] {
      assert AllDescriptorFields(a) + x == x && AllDescriptorFields(b) + y == y;
    } else {
      AllDescriptorFieldsCons(a[0], a[1..]);
      AllDescriptorFieldsCons(b[0], b[1..]);
      assert [a[0]] + a[1..] == a && [b[0]] + b[1..] == b;
      var p, q := AllDescriptorFields(a[1..]) + x, AllDescriptorFields(b[1..]) + y;
      Associative(DescriptorFields(a[0]), AllDescriptorFields(a[1..]), x);
      Associative(DescriptorFields(b[0]), AllDescriptorFields(b[1..]), y);
      DescriptorUnique(a[0], b[0], p, q);
      AllDescriptorsUnique(a[1..], b[1..], x, y);
    }
  }

  lemma TrustUnique(a: KeyLifecycle, b: KeyLifecycle)
    requires TrustFields(a) == TrustFields(b)
    ensures a == b
  {
    var p, q := TrustFields(a), TrustFields(b);
    assert p[0] == q[0] && p[1] == q[1] && p[2] == q[2] && p[3] == q[3] && p[4] == q[4] && p[5] == q[5] && p[6] == q[6];
    DecInjective(a.revocationEpoch, b.revocationEpoch);
    FormatIntInjective(a.notBefore, b.notBefore);
    FormatIntInjective(a.notAfter, b.notAfter);
    FormatIntInjective(a.rotationGrace, b.rotationGrace);
  }

  /** The bytes a capability digest is taken of determine every field of the profile. */
  lemma SnapshotUnique(a: Snapshot, b: Snapshot)
    requires |a.descriptors| == |b.descriptors| == DESCRIPTORS
    requires Fields(SnapshotFields(a)) == Fields(SnapshotFields(b))
    ensures a == b
  {
    FieldsUnique(SnapshotFields(a), SnapshotFields(b));
    hide Fields;
    hide AllDescriptorFields;
    hide Counted;
    hide TrustFields;
    hide CapabilityTag;
    var p, q := [CapabilityTag(), a.schemaVersion], [CapabilityTag(), b.schemaVersion];
    var p1, q1 := Counted(a.signals) + TrustFields(a.trust), Counted(b.signals) + TrustFields(b.trust);
    var p2, q2 := AllDescriptorFields(a.descriptors) + p1, AllDescriptorFields(b.descriptors) + q1;
    SplitAt(p, q, p2, q2);
    assert p[1] == q[1];
    AllDescriptorsUnique(a.descriptors, b.descriptors, p1, q1);
    CountedUnique(a.signals, b.signals, TrustFields(a.trust), TrustFields(b.trust));
    TrustUnique(a.trust, b.trust);
  }

  // ----- Effective specs -----

  datatype ImageInfo = ImageInfo(
    digest: string, architecture: string, uid: nat, gid: nat, groups: seq<nat>, guestProtocol: string,
        admissionVersion: string)

  datatype Limits = Limits(
    milliCpu: nat, memoryBytes: nat, rootDiskBytes: nat, tmpfsBytes: nat, pids: nat, processCount: nat, openFiles: nat,
    inodes: nat, files: nat, lifetime: int, producedOutputBytes: nat, retainedOutputBytes: nat, transferBytes: nat,
    networkConnections: nat, volumeBytes: nat, snapshotBytes: nat)

  datatype SpecVersions = SpecVersions(
    canonicalDigest: string, policy: string, canonicalizer: string, capability: string, imageAdmission: string,
    capabilitiesDigest: string)

  datatype EffectiveSpec = EffectiveSpec(versions: SpecVersions, image: ImageInfo, limits: Limits)

  function Numbers(ns: seq<nat>): seq<string> {
    seq(|ns|, i requires 0 <= i < |ns| => Dec(ns[i]))
  }

  lemma NumbersUnique(a: seq<nat>, b: seq<nat>)
    requires Numbers(a) == Numbers(b)
    ensures a == b
  {
    assert |Numbers(a)| == |Numbers(b)|;
    forall i | 0 <= i < |a| ensures a[i] == b[i] {
      assert Numbers(a)[i] == Numbers(b)[i];
      DecInjective(a[i], b[i]);
    }
  }

  function ImageFields(i: ImageInfo): seq<string> {
    [i.digest, i.architecture, Dec(i.uid), Dec(i.gid)] + Counted(Numbers(i.groups)) + [i.guestProtocol,
          i.admissionVersion]
  }

  function LimitFields(l: Limits): seq<string> {
    [Dec(l.milliCpu), Dec(l.memoryBytes), Dec(l.rootDiskBytes), Dec(l.tmpfsBytes), Dec(l.pids), Dec(l.processCount),
     Dec(l.openFiles), Dec(l.inodes), Dec(l.files), FormatInt(l.lifetime), Dec(l.producedOutputBytes),
     Dec(l.retainedOutputBytes), Dec(l.transferBytes), Dec(l.networkConnections), Dec(l.volumeBytes),
         Dec(l.snapshotBytes)]
  }

  function SpecTag(): string {
    "sandbox.control/v1"
  }

  function VersionFields(v: SpecVersions): seq<string> {
    [SpecTag(), v.canonicalDigest, v.policy, v.canonicalizer, v.capability, v.imageAdmission, v.capabilitiesDigest]
  }

  function SpecFields(s: EffectiveSpec): seq<string> {
    VersionFields(s.versions) + (ImageFields(s.image) + LimitFields(s.limits))
  }

  lemma ImageUnique(a: ImageInfo, b: ImageInfo, x: seq<string>, y: seq<string>)
    requires ImageFields(a) + x == ImageFields(b) + y
    ensures a == b && x == y
  {
    var p := [a.digest, a.architecture, Dec(a.uid), Dec(a.gid)];
    var q := [b.digest, b.architecture, Dec(b.uid), Dec(b.gid)];
    var p1, q1 := [a.guestProtocol, a.admissionVersion], [b.guestProtocol, b.admissionVersion];
    assert ImageFields(a) + x == p + (Counted(Numbers(a.groups)) + (p1 + x));
    assert ImageFields(b) + y == q + (Counted(Numbers(b.groups)) + (q1 + y));
    SplitAt(p, q, Counted(Numbers(a.groups)) + (p1 + x), Counted(Numbers(b.groups)) + (q1 + y));
    CountedUnique(Numbers(a.groups), Numbers(b.groups), p1 + x, q1 + y);
    SplitAt(p1, q1, x, y);
    NumbersUnique(a.groups, b.groups);
    assert p[0] == q[0] && p[1] == q[1] && p[2] == q[2] && p[3] == q[3] && p1[0] == q1[0] && p1[1] == q1[1];
    DecInjective(a.uid, b.uid);
    DecInjective(a.gid, b.gid);
  }

  lemma LimitsUnique(a: Limits, b: Limits)
    requires LimitFields(a) == LimitFields(b)
    ensures a == b
  {
    var p, q := LimitFields(a), LimitFields(b);
    assert p[0] == q[0] && p[1] == q[1] && p[2] == q[2] && p[3] == q[3] && p[4] == q[4] && p[5] == q[5]
        && p[6] == q[6] && p[7] == q[7];
    assert p[8] == q[8] && p[9] == q[9] && p[10] == q[10] && p[11] == q[11] && p[12] == q[12] && p[13] == q[13]
        && p[14] == q[14] && p[15] == q[15];
    hide Dec;
    hide FormatInt;
    DecInjective(a.milliCpu, b.milliCpu);
    DecInjective(a.memoryBytes, b.memoryBytes);
    DecInjective(a.rootDiskBytes, b.rootDiskBytes);
    DecInjective(a.tmpfsBytes, b.tmpfsBytes);
    DecInjective(a.pids, b.pids);
    DecInjective(a.processCount, b.processCount);
    DecInjective(a.openFiles, b.openFiles);
    DecInjective(a.inodes, b.inodes);
    DecInjective(a.files, b.files);
    FormatIntInjective(a.lifetime, b.lifetime);
    DecInjective(a.producedOutputBytes, b.producedOutputBytes);
    DecInjective(a.retainedOutputBytes, b.retainedOutputBytes);
    DecInjective(a.transferBytes, b.transferBytes);
    DecInjective(a.networkConnections, b.networkConnections);
    DecInjective(a.volumeBytes, b.volumeBytes);
    DecInjective(a.snapshotBytes, b.snapshotBytes);
  }

  /** The bytes an effective-spec digest is taken of determine every version, the image and every limit. */
  lemma SpecUnique(a: EffectiveSpec, b: EffectiveSpec)
    requires Fields(SpecFields(a)) == Fields(SpecFields(b))
    ensures a == b
  {
    FieldsUnique(SpecFields(a), SpecFields(b));
    hide Fields;
    hide ImageFields;
    hide LimitFields;
    var p, q := VersionFields(a.versions), VersionFields(b.versions);
    var p1, q1 := ImageFields(a.image) + LimitFields(a.limits), ImageFields(b.image) + LimitFields(b.limits);
    SplitAt(p, q, p1, q1);
    assert p[1] == q[1] && p[2] == q[2] && p[3] == q[3] && p[4] == q[4] && p[5] == q[5] && p[6] == q[6];
    ImageUnique(a.image, b.image, LimitFields(a.limits), LimitFields(b.limits));
    LimitsUnique(a.limits, b.limits);
  }

  // ----- Writing -----

  method WriteField(builder: string, text: string, ghost done: seq<string>) returns (out: string)
    requires builder == Fields(done)
    ensures out == Fields(done + [text])
  {
    FieldsSnoc(done, text);
    out := builder + Dec(|text|) + ":" + text;
  }

  method WriteAll(builder: string, texts: seq<string>, ghost done: seq<string>) returns (out: string)
    requires builder == Fields(done)
    ensures out == Fields(done + texts)
  {
    out := builder;
    assert done + texts[..0] == done;
    for i := 0 to |texts|
      invariant out == Fields(done + texts[..i])
    {
      out := WriteField(out, texts[i], done + texts[..i]);
      assert done + texts[..i + 1] == done + texts[..i] + [texts[i]];
    }
    assert texts[..|texts|] == texts;
  }

  method WriteCounted(builder: string, texts: seq<string>, ghost done: seq<string>) returns (out: string)
    requires builder == Fields(done)
    ensures out == Fields(done + Counted(texts))
  {
    hide Fields;
    out := WriteField(builder, Dec(|texts|), done);
    out := WriteAll(out, texts, done + [Dec(|texts|)]);
    Associative(done, [Dec(|texts|)], texts);
  }

  method WriteDescriptor(builder: string, d: Descriptor, ghost done: seq<string>) returns (out: string)
    requires builder == Fields(done)
    ensures out == Fields(done + DescriptorFields(d))
  {
    hide Fields;
    out := WriteField(builder, d.state, done);
    out := WriteField(out, d.contractVersion, done + [d.state]);
    out := WriteField(out, d.conformanceVersion, done + [d.state] + [d.contractVersion]);
    out := WriteField(out, d.dataPlane, done + [d.state] + [d.contractVersion] + [d.conformanceVersion]);
    ghost var head := done + [d.state] + [d.contractVersion] + [d.conformanceVersion] + [d.dataPlane];
    out := WriteCounted(out, d.limitPrecision, head);
    assert head == done + [d.state, d.contractVersion, d.conformanceVersion, d.dataPlane];
    Associative(done, [d.state, d.contractVersion, d.conformanceVersion, d.dataPlane], Counted(d.limitPrecision));
  }

  method WriteDescriptors(builder: string, ds: seq<Descriptor>, ghost done: seq<string>) returns (out: string)
    requires builder == Fields(done)
    ensures out == Fields(done + AllDescriptorFields(ds))
  {
    hide Fields;
    hide DescriptorFields;
    out := builder;
    assert done + AllDescriptorFields(ds[..0]) == done;
    for i := 0 to |ds|
      invariant out == Fields(done + AllDescriptorFields(ds[..i]))
    {
      ghost var now := done + AllDescriptorFields(ds[..i]);
      out := WriteDescriptor(out, ds[i], now);
      assert ds[..i + 1][..i] == ds[..i];
      assert now + DescriptorFields(ds[i]) == done + AllDescriptorFields(ds[..i + 1]);
    }
    assert ds[..|ds|] == ds;
  }

  /** The digest pre-image of a capability snapshot, descriptor by descriptor. */
  method WriteSnapshot(s: Snapshot) returns (out: string)
    ensures out == Fields(SnapshotFields(s))
  {
    assert Fields([]) == "";
    hide Fields;
    hide AllDescriptorFields;
    hide TrustFields;
    hide CapabilityTag;
    out := WriteField("", CapabilityTag(), []);
    out := WriteField(out, s.schemaVersion, [] + [CapabilityTag()]);
    ghost var head := [CapabilityTag(), s.schemaVersion];
    assert [] + [CapabilityTag()] + [s.schemaVersion] == head;
    ghost var all, trust := AllDescriptorFields(s.descriptors), TrustFields(s.trust);
    out := WriteDescriptors(out, s.descriptors, head);
    out := WriteCounted(out, s.signals, head + all);
    out := WriteAll(out, TrustFields(s.trust), head + all + Counted(s.signals));
    Associative(head + all, Counted(s.signals), trust);
    Associative(head, all, Counted(s.signals) + trust);
  }

  // ----- The layout -----

  /** How numbers and fields read. */
  lemma FieldExamples()
    ensures Dec(0) == "0" && Dec(1024) == "1024" && FormatInt(-70) == "-70" && FormatInt(70) == "70"
    ensures Field("") == "0:" && Field("ab:c") == "4:ab:c"
  {
    assert Dec(1) == "1" && Dec(10) == Dec(1) + "0" && Dec(102) == Dec(10) + "2" && Dec(1024) == Dec(102) + "4";
    assert Dec(7) == "7" && Dec(70) == Dec(7) + "0" && Dec(4) == "4" && Dec(0) == "0";
  }

  /** The order in which a capability profile is written. */
  lemma SnapshotLayout(s: Snapshot, d: Descriptor, rest: seq<Descriptor>)
    requires s.descriptors == [d] + rest
    ensures SnapshotFields(s)
         == ["sandbox.capabilities/v1", s.schemaVersion, d.state, d.contractVersion, d.conformanceVersion, d.dataPlane,
             Dec(|d.limitPrecision|)] + d.limitPrecision + AllDescriptorFields(rest)
            + [Dec(|s.signals|)] + s.signals
            + [s.trust.trustBundleVersion, s.trust.signingKeyId, s.trust.signingAlgorithm, Dec(s.trust.revocationEpoch),
               FormatInt(s.trust.notBefore), FormatInt(s.trust.notAfter), FormatInt(s.trust.rotationGrace)]
  {
    AllDescriptorFieldsCons(d, rest);
    hide Dec;
    hide FormatInt;
    hide AllDescriptorFields;
  }

  /** The order in which an effective spec is written. */
  lemma SpecLayout(s: EffectiveSpec)
    ensures SpecFields(s)
         == ["sandbox.control/v1", s.versions.canonicalDigest, s.versions.policy, s.versions.canonicalizer,
             s.versions.capability, s.versions.imageAdmission, s.versions.capabilitiesDigest,
             s.image.digest, s.image.architecture, Dec(s.image.uid), Dec(s.image.gid), Dec(|s.image.groups|)]
            + Numbers(s.image.groups) + [s.image.guestProtocol, s.image.admissionVersion]
            + [Dec(s.limits.milliCpu), Dec(s.limits.memoryBytes), Dec(s.limits.rootDiskBytes), Dec(s.limits.tmpfsBytes),
               Dec(s.limits.pids), Dec(s.limits.processCount), Dec(s.limits.openFiles), Dec(s.limits.inodes),
               Dec(s.limits.files), FormatInt(s.limits.lifetime), Dec(s.limits.producedOutputBytes),
               Dec(s.limits.retainedOutputBytes), Dec(s.limits.transferBytes), Dec(s.limits.networkConnections),
               Dec(s.limits.volumeBytes), Dec(s.limits.snapshotBytes)]
  {
    hide Dec;
    hide FormatInt;
    assert |Numbers(s.image.groups)| == |s.image.groups|;
    hide Numbers;
  }
}
