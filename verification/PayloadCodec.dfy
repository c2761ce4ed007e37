/**
 * The size-selecting payload codec over an immutable blob store.
 *
 * Protobuf, zstd and SHA-256 appear only as functions with their inverse laws.  Nothing here needs
 * digests to be free of collisions: a store refuses different bytes at a key it already holds.
 */
module PayloadCodec {
  import opened Bytes
  import opened SandboxTypes
  import BE = BigEndian

  type Key = string

  datatype Payload = Payload(metadata: map<string, seq<Byte>>, data: seq<Byte>)

  datatype Fault = InvalidPayload | UnsupportedVersion | BlobTooLarge | BlobNotFound | BlobIntegrity | BadKey | Corrupt

  datatype Outcome<+T> = Good(value: T) | Bad(fault: Fault)

  /** A codec: its prefix as a key function, its bound, and the libraries behind it. */
  datatype Codec = Codec(
    maximumBlobBytes: nat,
    keyOf: seq<Byte> -> Key,
    validKey: Key -> bool,
    marshal: Payload -> Option<seq<Byte>>,
    unmarshal: seq<Byte> -> Option<Payload>,
    compress: seq<Byte> -> seq<Byte>,
    decompress: seq<Byte> -> Option<seq<Byte>>,
    sha256: seq<Byte> -> seq<Byte>)

  ghost predicate Lawful(c: Codec) {
    && (forall p :: c.marshal(p).Some? ==> c.unmarshal(c.marshal(p).value) == Some(p) && |c.marshal(p).value| < U64)
    && (forall w :: c.decompress(c.compress(w)) == Some(w))
    && (forall w :: |c.sha256(w)| == 32)
    && (forall d :: |d| == 32 ==> c.validKey(c.keyOf(d)))
  }

  const ENCODING := "encoding"
  const VERSION := "agent-runtime-payload-v"
  const ZSTD: seq<Byte> := [98, 105, 110, 97, 114, 121, 47, 122, 115, 116, 100]
  const REMOTE: seq<Byte> :=
    [98, 105, 110, 97, 114, 121, 47, 114, 101, 109, 111, 116, 101, 45, 112, 97, 121, 108, 111, 97, 100]
  const V1: seq<Byte> := [49]
  const REFERENCE_SIZE := 41

  function Lookup(p: Payload, name: string): seq<Byte> {
    if name in p.metadata then p.metadata[name] else []
  }

  function Encoding(p: Payload): seq<Byte> {
    Lookup(p, ENCODING)
  }

  predicate Ordinary(p: Payload) {
    Encoding(p) != ZSTD && Encoding(p) != REMOTE
  }

  function Wrapped(encoding: seq<Byte>, data: seq<Byte>): Payload {
    Payload(map[ENCODING := encoding, VERSION := V1], data)
  }

  lemma WrappedLookups(encoding: seq<Byte>, data: seq<Byte>)
    ensures Encoding(Wrapped(encoding, data)) == encoding && Lookup(Wrapped(encoding, data), VERSION) == V1
  {
    assert |ENCODING| != |VERSION|;
  }

  // ----- The blob store -----

  function PutBlob(c: Codec, values: map<Key, seq<Byte>>, key: Key, value: seq<Byte>): Outcome<map<Key, seq<Byte>>> {
    if !c.validKey(key) then Bad(BadKey)
    else if key in values then (if values[key] == value then Good(values) else Bad(BlobIntegrity))
    else Good(values[key := value])
  }

  function GetBlob(c: Codec, values: map<Key, seq<Byte>>, key: Key, maxBytes: nat): Outcome<seq<Byte>> {
    if !c.validKey(key) then Bad(BadKey)
    else if key !in values then Bad(BlobNotFound)
    else if |values[key]| > maxBytes then Bad(BlobTooLarge)
    else Good(values[key])
  }

  class MemoryBlobStore {
    var values: map<Key, seq<Byte>>

    constructor ()
      ensures values == map[]
    {
      values := map[];
    }

    /** Stores bytes once per key; equal bytes again are accepted, different bytes are refused. */
    method Put(c: Codec, key: Key, value: seq<Byte>) returns (r: Outcome<()>)
      modifies this
      ensures match PutBlob(c, old(values), key, value)
              case Good(after) => r == Good(()) && values == after
              case Bad(fault) => r == Bad(fault) && values == old(values)
    {
      if !c.validKey(key) {
        return Bad(BadKey);
      }
      if key in values {
        if values[key] != value {
          return Bad(BlobIntegrity);
        }
        return Good(());
      }
      values := values[key := value];
      return Good(());
    }

    method Get(c: Codec, key: Key, maxBytes: nat) returns (r: Outcome<seq<Byte>>)
      ensures r == GetBlob(c, values, key, maxBytes)
    {
      if !c.validKey(key) {
        return Bad(BadKey);
      }
      if key !in values {
        return Bad(BlobNotFound);
      }
      if |values[key]| > maxBytes {
        return Bad(BlobTooLarge);
      }
      return Good(values[key]);
    }
  }

  /** Every blob of the one store is in the other, unchanged. */
  ghost predicate Extends(before: map<Key, seq<Byte>>, after: map<Key, seq<Byte>>) {
    forall k :: k in before ==> k in after && after[k] == before[k]
  }

  // ----- References -----

  function ReferenceBytes(digest: seq<Byte>, size: nat): seq<Byte> {
    [1] + digest + BE.Encode(size, 8)
  }

  /** Filling the fixed 41-byte reference. */
  method MarshalReference(digest: seq<Byte>, size: nat) returns (out: array<Byte>)
    requires |digest| == 32 && size < U64
    ensures fresh(out) && out[..] == ReferenceBytes(digest, size)
  {
    out := new Byte[REFERENCE_SIZE](i => 0);
    out[0] := 1;
    for i := 0 to 32
      invariant out[0] == 1 && forall k :: 0 <= k < i ==> out[1 + k] == digest[k]
    {
      out[1 + i] := digest[i];
    }
    ghost var size8 := BE.Encode(size, 8);
    var rest, i := size, 8;
    while i > 0
      invariant 0 <= i <= 8
      invariant out[0] == 1 && forall k :: 0 <= k < 32 ==> out[1 + k] == digest[k]
      invariant BE.Encode(rest, i) == size8[..i]
      invariant forall k :: i <= k < 8 ==> out[33 + k] == size8[k]
    {
      assert BE.Encode(rest, i) == BE.Encode(rest / 256, i - 1) + [rest % 256];
      assert size8[i - 1] == size8[..i][i - 1] == rest % 256;
      assert size8[..i][..i - 1] == size8[..i - 1];
      i := i - 1;
      out[33 + i] := rest % 256;
      rest := rest / 256;
    }
    var bytes := ReferenceBytes(digest, size);
    assert forall k :: 0 <= k < 41 ==> out[..][k] == bytes[k];
  }

  datatype Reference = Reference(key: Key, digest: seq<Byte>, size: nat)

  function ParseReference(c: Codec, data: seq<Byte>): Outcome<Reference> {
    if |data| != REFERENCE_SIZE || data[0] != 1 then Bad(InvalidPayload)
    else
      var size := BE.Decode(data[33..]);
      if size == 0 then Bad(InvalidPayload) else Good(Reference(c.keyOf(data[1..33]), data[1..33], size))
  }

  lemma ReferenceRoundTrip(c: Codec, digest: seq<Byte>, size: nat)
    requires |digest| == 32 && 0 < size < U64
    ensures ParseReference(c, ReferenceBytes(digest, size)) == Good(Reference(c.keyOf(digest), digest, size))
  {
    var data := ReferenceBytes(digest, size);
    BE.Powers();
    BE.RoundTrip(size, 8);
    hide BE.Encode;
    hide BE.Decode;
    assert data[1..33] == digest && data[33..] == BE.Encode(size, 8);
  }

  // ----- Encoding -----

  /** The three forms of a payload, each with its wire. */
  datatype Form = Form(payload: Payload, wire: seq<Byte>)

  function Inline(c: Codec, p: Payload): Option<Form> {
    match c.marshal(p)
    case None => None
    case Some(w) => Some(Form(p, w))
  }

  function Compressed(c: Codec, inline: Form): Option<Form> {
    Inline(c, Wrapped(ZSTD, c.compress(inline.wire)))
  }

  function Remote(c: Codec, local: Form): Option<Form> {
    Inline(c, Wrapped(REMOTE, ReferenceBytes(c.sha256(local.wire), |local.wire|)))
  }

  function Smaller(a: Form, b: Form): Form {
    if |b.wire| < |a.wire| then b else a
  }

  datatype Encoded = Encoded(result: Outcome<Payload>, values: map<Key, seq<Byte>>)

  function EncodeOne(c: Codec, values: map<Key, seq<Byte>>, payload: Option<Payload>): Encoded {
    if payload.None? || Inline(c, payload.value).None? then Encoded(Bad(InvalidPayload), values)
    else
      var inline := Inline(c, payload.value).value;
      if Compressed(c, inline).None? then Encoded(Bad(InvalidPayload), values)
      else
        var local := Smaller(inline, Compressed(c, inline).value);
        if Remote(c, local).None? then Encoded(Bad(InvalidPayload), values)
        else
          var remote := Remote(c, local).value;
          if |remote.wire| >= |local.wire| then Encoded(Good(local.payload), values)
          else if |local.wire| > c.maximumBlobBytes then Encoded(Bad(BlobTooLarge), values)
          else
            match PutBlob(c, values, c.keyOf(c.sha256(local.wire)), local.wire)
            case Bad(fault) => Encoded(Bad(fault), values)
            case Good(after) => Encoded(Good(remote.payload), after)
  }

  /** The winner variables of the source, updated as smaller forms are found. */
  method Encode(c: Codec, store: MemoryBlobStore, payload: Option<Payload>) returns (r: Outcome<Payload>)
    requires Lawful(c)
    modifies store
    ensures Encoded(r, store.values) == EncodeOne(c, old(store.values), payload)
  {
    if payload.None? {
      return Bad(InvalidPayload);
    }
    var marshalled := c.marshal(payload.value);
    if marshalled.None? {
      return Bad(InvalidPayload);
    }
    var winner, winnerWire := payload.value, marshalled.value;
    var compressedPayload := Wrapped(ZSTD, c.compress(winnerWire));
    marshalled := c.marshal(compressedPayload);
    if marshalled.None? {
      return Bad(InvalidPayload);
    }
    if |marshalled.value| < |winnerWire| {
      winner, winnerWire := compressedPayload, marshalled.value;
    }
    var digest := c.sha256(winnerWire);
    var reference := MarshalReference(digest, |winnerWire|);
    var remotePayload := Wrapped(REMOTE, reference[..]);
    marshalled := c.marshal(remotePayload);
    if marshalled.None? {
      return Bad(InvalidPayload);
    }
    if |marshalled.value| < |winnerWire| {
      if |winnerWire| > c.maximumBlobBytes {
        return Bad(BlobTooLarge);
      }
      var put := store.Put(c, c.keyOf(digest), winnerWire);
      if put.Bad? {
        return Bad(put.fault);
      }
      return Good(remotePayload);
    }
    return Good(winner);
  }

  // ----- Decoding -----

  /** A decode result and the number of blobs it read. */
  datatype DecodedOne = DecodedOne(result: Outcome<Payload>, blobReads: nat)

  function Unwrap(c: Codec, data: seq<Byte>): Outcome<Payload> {
    match c.decompress(data)
    case None => Bad(Corrupt)
    case Some(w) => if c.unmarshal(w).Some? then Good(c.unmarshal(w).value) else Bad(Corrupt)
  }

  function DecodeOne(c: Codec, values: map<Key, seq<Byte>>, payload: Option<Payload>, depth: nat): DecodedOne
    decreases if depth < 1 then 1 - depth else 0
  {
    if payload.None? then DecodedOne(Bad(InvalidPayload), 0)
    else
      var p := payload.value;
      if Encoding(p) == ZSTD then
        DecodedOne(if Lookup(p, VERSION) != V1 then Bad(UnsupportedVersion) else Unwrap(c, p.data), 0)
      else if Encoding(p) == REMOTE then
        if depth >= 1 then DecodedOne(Bad(InvalidPayload), 0)
        else if Lookup(p, VERSION) != V1 then DecodedOne(Bad(UnsupportedVersion), 0)
        else
          match ParseReference(c, p.data)
          case Bad(fault) => DecodedOne(Bad(fault), 0)
          case Good(reference) =>
            if reference.size > c.maximumBlobBytes then DecodedOne(Bad(BlobTooLarge), 0)
            else
              match GetBlob(c, values, reference.key, c.maximumBlobBytes)
              case Bad(fault) => DecodedOne(Bad(fault), 1)
              case Good(stored) =>
                if |stored| != reference.size
                    || c.sha256(stored) != reference.digest then DecodedOne(Bad(BlobIntegrity), 1)
                else if c.unmarshal(stored).None? then DecodedOne(Bad(Corrupt), 1)
                else
                  var inner := DecodeOne(c, values, Some(c.unmarshal(stored).value), depth + 1);
                  DecodedOne(inner.result, inner.blobReads + 1)
      else DecodedOne(Good(p), 0)
  }

  /** Whatever the payload and the store, one decode reads at most one blob, and none below a reference. */
  lemma AtMostOneRead(c: Codec, values: map<Key, seq<Byte>>, payload: Option<Payload>, depth: nat)
    ensures DecodeOne(c, values, payload, depth).blobReads <= if depth == 0 then 1 else 0
  {
  }

  // ----- The round trip -----

  /** A local form of `p` decodes to `p` at any depth if it is compressed or `p` is ordinary. */
  lemma LocalFormDecodes(c: Codec, values: map<Key, seq<Byte>>, p: Payload, depth: nat)
    requires Lawful(c) && Inline(c, p).Some? && Compressed(c, Inline(c, p).value).Some?
    ensures var inline, zstd := Inline(c, p).value, Compressed(c, Inline(c, p).value).value;
            && DecodeOne(c, values, Some(zstd.payload), depth).result == Good(p)
            && (Ordinary(p) ==> DecodeOne(c, values, Some(inline.payload), depth).result == Good(p))
  {
    var inline := Inline(c, p).value;
    WrappedLookups(ZSTD, c.compress(inline.wire));
  }

  /** The payloads the codec promises to bring back: ordinary ones, and any whose compressed form is the smaller. */
  predicate Recoverable(c: Codec, p: Payload) {
    Ordinary(p) ||
    (Inline(c, p).Some? && Compressed(c, Inline(c, p).value).Some? &&
     |Compressed(c, Inline(c, p).value).value.wire| < |Inline(c, p).value.wire|)
  }

  /** Encode, let the store grow in any way, decode: the payload comes back. */
  lemma RoundTrip(c: Codec, values: map<Key, seq<Byte>>, p: Payload, later: map<Key, seq<Byte>>)
    requires Lawful(c) && Recoverable(c, p)
    requires var e := EncodeOne(c, values, Some(p)); e.result.Good? && Extends(e.values, later)
    ensures DecodeOne(c, later, Some(EncodeOne(c, values, Some(p)).result.value), 0).result == Good(p)
  {
    var e := EncodeOne(c, values, Some(p));
    var inline := Inline(c, p).value;
    var local := Smaller(inline, Compressed(c, inline).value);
    var remote := Remote(c, local).value;
    LocalFormDecodes(c, later, p, 0);
    LocalFormDecodes(c, later, p, 1);
    if |remote.wire| < |local.wire| {
      RemoteFormDecodes(c, later, local);
    }
  }

  /** A reference decodes as what the referenced blob decodes to. */
  lemma RemoteFormDecodes(c: Codec, values: map<Key, seq<Byte>>, local: Form)
    requires Lawful(c) && Remote(c, local).Some? && 0 < |local.wire| < U64 && |local.wire| <= c.maximumBlobBytes
    requires c.marshal(local.payload) == Some(local.wire)
    requires var key := c.keyOf(c.sha256(local.wire)); key in values && values[key] == local.wire
    ensures DecodeOne(c, values, Some(Remote(c, local).value.payload), 0).result
         == DecodeOne(c, values, Some(local.payload), 1).result
  {
    var digest := c.sha256(local.wire);
    WrappedLookups(REMOTE, ReferenceBytes(digest, |local.wire|));
    ReferenceRoundTrip(c, digest, |local.wire|);
    assert c.validKey(c.keyOf(digest));
  }

  /** What is emitted is a smallest of the inline, compressed and reference forms. */
  lemma EmitsSmallest(c: Codec, values: map<Key, seq<Byte>>, p: Payload)
    requires EncodeOne(c, values, Some(p)).result.Good?
    ensures var inline := Inline(c, p).value;
            var zstd := Compressed(c, inline).value;
            var remote := Remote(c, Smaller(inline, zstd)).value;
            var emitted := EncodeOne(c, values, Some(p)).result.value;
            exists form :: form in {inline, zstd, remote} && form.payload == emitted &&
                           |form.wire| <= |inline.wire| && |form.wire| <= |zstd.wire| && |form.wire| <= |remote.wire|
  {
    var inline := Inline(c, p).value;
    var zstd := Compressed(c, inline).value;
    var local := Smaller(inline, zstd);
    var remote := Remote(c, local).value;
    var form := if |remote.wire| < |local.wire| then remote else local;
    assert form in {inline, zstd, remote};
  }

  /** What was put can be had, within the reader's bound; a put is refused only over other bytes or for a bad key. */
  lemma PutThenGet(c: Codec, values: map<Key, seq<Byte>>, key: Key, value: seq<Byte>, maxBytes: nat)
    ensures var put := PutBlob(c, values, key, value);
            && (put.Good? <==> c.validKey(key) && (key in values ==> values[key] == value))
            && (put.Good? ==>
                  GetBlob(c, put.value, key, maxBytes)
                  == if |value| <= maxBytes then Good(value) else Bad(BlobTooLarge))
            && (put.Good? ==> forall k :: k in put.value && k != key ==> k in values && put.value[k] == values[k])
            && (put.Bad? ==> put.fault == if c.validKey(key) then BlobIntegrity else BadKey)
  {
  }

  /**
   * Which form is emitted and what is stored.  A tie keeps the payload as it was over the compressed
   * form and a local form over a reference, and only a reference stores anything: the one local wire,
   * at the key of its digest.
   */
  lemma EncodeExact(c: Codec, values: map<Key, seq<Byte>>, p: Payload)
    requires Inline(c, p).Some? && Compressed(c, Inline(c, p).value).Some?
    requires var inline := Inline(c, p).value; Remote(c, Smaller(inline, Compressed(c, inline).value)).Some?
    ensures var inline := Inline(c, p).value;
            var zstd := Compressed(c, inline).value;
            var wire := if |zstd.wire| < |inline.wire| then zstd.wire else inline.wire;
            var remote := Remote(c, Smaller(inline, zstd)).value;
            var encoded, key := EncodeOne(c, values, Some(p)), c.keyOf(c.sha256(wire));
            if |inline.wire| <= |zstd.wire| && |inline.wire| <= |remote.wire| then encoded == Encoded(Good(p), values)
            else if |zstd.wire| <= |remote.wire| && |zstd.wire| < |inline.wire|
            then encoded == Encoded(Good(zstd.payload), values)
            else if |wire| > c.maximumBlobBytes then encoded == Encoded(Bad(BlobTooLarge), values)
            else if !c.validKey(key) then encoded == Encoded(Bad(BadKey), values)
            else if key in values && values[key] != wire then encoded == Encoded(Bad(BlobIntegrity), values)
            else encoded.result == Good(remote.payload) && encoded.values == values[key := wire]
  {
    var inline := Inline(c, p).value;
    var zstd := Compressed(c, inline).value;
    var wire := if |zstd.wire| < |inline.wire| then zstd.wire else inline.wire;
    var key := c.keyOf(c.sha256(wire));
    assert Smaller(inline, zstd).wire == wire;
    if key in values && values[key] == wire {
      assert values[key := wire] == values;
    }
  }

  /** What the wrapped forms look like to any reader. */
  lemma WrappedForms(c: Codec, p: Payload, local: Form)
    requires Inline(c, p).Some? && Compressed(c, Inline(c, p).value).Some? && Remote(c, local).Some?
    ensures var zstd, remote := Compressed(c, Inline(c, p).value).value.payload, Remote(c, local).value.payload;
            && zstd.metadata == map["encoding" := ZSTD, "agent-runtime-payload-v" := [49]]
            && zstd.data == c.compress(Inline(c, p).value.wire)
            && remote.metadata == map["encoding" := REMOTE, "agent-runtime-payload-v" := [49]]
            && remote.data == [1] + c.sha256(local.wire) + BE.Encode(|local.wire|, 8)
  {
  }

  // ----- What decoding trusts -----

  /** A reference's fields are where the fixed layout puts them, and its size is not zero. */
  lemma ParsedFields(c: Codec, data: seq<Byte>)
    ensures var parsed := ParseReference(c, data);
            && (parsed.Good? <==> |data| == 41 && data[0] == 1 && BE.Decode(data[33..41]) != 0)
            && (parsed.Good? ==> parsed.value == Reference(c.keyOf(data[1..33]), data[1..33], BE.Decode(data[33..41])))
            && (parsed.Bad? ==> parsed == Bad(InvalidPayload))
  {
    if |data| == 41 {
      assert data[33..] == data[33..41];
    }
  }

  /**
   * A reference decodes only through a blob that is there, no larger than the bound, and of exactly the
   * size and digest the reference names; what the blob holds must not be a reference again.
   */
  lemma ReferenceIsVerified(c: Codec, values: map<Key, seq<Byte>>, p: Payload, depth: nat)
    requires Encoding(p) == REMOTE && DecodeOne(c, values, Some(p), depth).result.Good?
    ensures depth == 0 && Lookup(p, VERSION) == V1 && |p.data| == 41 && p.data[0] == 1
    ensures var key, size := c.keyOf(p.data[1..33]), BE.Decode(p.data[33..41]);
            && c.validKey(key) && key in values && 0 < size <= c.maximumBlobBytes
            && |values[key]| == size && c.sha256(values[key]) == p.data[1..33]
            && c.unmarshal(values[key]).Some? && Encoding(c.unmarshal(values[key]).value) != REMOTE
            && DecodeOne(c, values, Some(p), depth).result
               == DecodeOne(c, values, Some(c.unmarshal(values[key]).value), 1).result
  {
    ParsedFields(c, p.data);
    hide BE.Decode;
  }

  /** Why a well-formed reference is refused, in the order the checks are made. */
  lemma ReferenceRefusals(c: Codec, values: map<Key, seq<Byte>>, p: Payload)
    requires Encoding(p) == REMOTE && Lookup(p, VERSION) == V1 && ParseReference(c, p.data).Good?
    requires c.validKey(ParseReference(c, p.data).value.key)
    ensures var key, size := c.keyOf(p.data[1..33]), ParseReference(c, p.data).value.size;
            var got := DecodeOne(c, values, Some(p), 0);
            && got.blobReads == (if size > c.maximumBlobBytes then 0 else 1)
            && (size > c.maximumBlobBytes ==> got.result == Bad(BlobTooLarge))
            && (size <= c.maximumBlobBytes && key !in values ==> got.result == Bad(BlobNotFound))
            && (size <= c.maximumBlobBytes && key in values && |values[key]| > c.maximumBlobBytes ==>
                  got.result == Bad(BlobTooLarge))
            && (size <= c.maximumBlobBytes && key in values && |values[key]| <= c.maximumBlobBytes ==>
                  (|values[key]| != size || c.sha256(values[key]) != p.data[1..33] ==>
                     got.result == Bad(BlobIntegrity)))
  {
    ParsedFields(c, p.data);
    AtMostOneRead(c, values, Some(p), 0);
    hide BE.Decode;
  }

  /** A compressed payload decodes to what it decompresses and unmarshals to; a foreign version is refused. */
  lemma CompressedDecodes(c: Codec, values: map<Key, seq<Byte>>, p: Payload, depth: nat)
    requires Encoding(p) == ZSTD
    ensures var got := DecodeOne(c, values, Some(p), depth);
            && got.blobReads == 0
            && (Lookup(p, VERSION) != V1 ==> got.result == Bad(UnsupportedVersion))
            && (Lookup(p, VERSION) == V1 ==>
                  forall q :: got.result == Good(q) <==>
                    c.decompress(p.data).Some? && c.unmarshal(c.decompress(p.data).value) == Some(q))
  {
  }

  /** A payload of any other encoding is returned as it is, and a missing one refused. */
  lemma OrdinaryPasses(c: Codec, values: map<Key, seq<Byte>>, p: Payload, depth: nat)
    requires Ordinary(p)
    ensures DecodeOne(c, values, Some(p), depth) == DecodedOne(Good(p), 0)
    ensures DecodeOne(c, values, None, depth) == DecodedOne(Bad(InvalidPayload), 0)
  {
  }

  // ----- Batches and later writes -----

  /** Encoding only ever adds blobs. */
  lemma EncodeExtends(c: Codec, values: map<Key, seq<Byte>>, payload: Option<Payload>)
    ensures Extends(values, EncodeOne(c, values, payload).values)
  {
  }

  datatype Write = Write(key: Key, value: seq<Byte>)

  /** The store after any list of puts, refused ones included. */
  function AfterPuts(c: Codec, values: map<Key, seq<Byte>>, writes: seq<Write>): map<Key, seq<Byte>>
    decreases |writes|
  {
    if writes == [] then values
    else
      var put := PutBlob(c, values, writes[0].key, writes[0].value);
      AfterPuts(c, if put.Good? then put.value else values, writes[1..])
  }

  lemma {:induction false} PutsExtend(c: Codec, values: map<Key, seq<Byte>>, writes: seq<Write>)
    ensures Extends(values, AfterPuts(c, values, writes))
    decreases |writes|
  {
    if writes != [] {
      var put := PutBlob(c, values, writes[0].key, writes[0].value);
      PutsExtend(c, if put.Good? then put.value else values, writes[1..]);
    }
  }

  datatype Batch = Batch(payloads: seq<Payload>, values: map<Key, seq<Byte>>)

  /** Encoding a list stops at the first failure. */
  function EncodeAll(c: Codec, values: map<Key, seq<Byte>>, payloads: seq<Payload>): Outcome<Batch>
    decreases |payloads|
  {
    if payloads == [] then Good(Batch([], values))
    else
      var first := EncodeOne(c, values, Some(payloads[0]));
      match first.result
      case Bad(fault) => Bad(fault)
      case Good(q) =>
        match EncodeAll(c, first.values, payloads[1..])
        case Bad(fault) => Bad(fault)
        case Good(rest) => Good(Batch([q] + rest.payloads, rest.values))
  }

  function DecodeAll(c: Codec, values: map<Key, seq<Byte>>, payloads: seq<Payload>): Outcome<seq<Payload>>
    decreases |payloads|
  {
    if payloads == [] then Good([])
    else
      match DecodeOne(c, values, Some(payloads[0]), 0).result
      case Bad(fault) => Bad(fault)
      case Good(p) =>
        match DecodeAll(c, values, payloads[1..])
        case Bad(fault) => Bad(fault)
        case Good(rest) => Good([p] + rest)
  }

  lemma {:induction false} EncodeAllExtends(c: Codec, values: map<Key, seq<Byte>>, payloads: seq<Payload>)
    requires EncodeAll(c, values, payloads).Good?
    ensures Extends(values, EncodeAll(c, values, payloads).value.values)
    decreases |payloads|
  {
    hide EncodeOne;
    if payloads != [] {
      EncodeExtends(c, values, Some(payloads[0]));
      EncodeAllExtends(c, EncodeOne(c, values, Some(payloads[0])).values, payloads[1..]);
    }
  }

  lemma {:induction false} BatchDecodes(c: Codec, values: map<Key, seq<Byte>>, payloads: seq<Payload>,
                                        later: map<Key, seq<Byte>>)
    requires Lawful(c) && forall i :: 0 <= i < |payloads| ==> Recoverable(c, payloads[i])
    requires EncodeAll(c, values, payloads).Good? && Extends(EncodeAll(c, values, payloads).value.values, later)
    ensures DecodeAll(c, later, EncodeAll(c, values, payloads).value.payloads) == Good(payloads)
    decreases |payloads|
  {
    hide EncodeOne;
    hide DecodeOne;
    if payloads != [] {
      var first := EncodeOne(c, values, Some(payloads[0]));
      var rest := EncodeAll(c, first.values, payloads[1..]).value;
      EncodeAllExtends(c, first.values, payloads[1..]);
      RoundTrip(c, values, payloads[0], later);
      BatchDecodes(c, first.values, payloads[1..], later);
      assert ([first.result.value] + rest.payloads)[1..] == rest.payloads;
      assert [payloads[0]] + payloads[1..] == payloads;
    }
  }

  /**
   * The round trip of a batch: if a list encodes, then after any further puts into the store it
   * decodes to the same list.
   */
  lemma BatchRoundTrip(c: Codec, values: map<Key, seq<Byte>>, payloads: seq<Payload>, writes: seq<Write>)
    requires Lawful(c) && forall i :: 0 <= i < |payloads| ==> Recoverable(c, payloads[i])
    requires EncodeAll(c, values, payloads).Good?
    ensures var batch := EncodeAll(c, values, payloads).value;
            DecodeAll(c, AfterPuts(c, batch.values, writes), batch.payloads) == Good(payloads)
  {
    var batch := EncodeAll(c, values, payloads).value;
    PutsExtend(c, batch.values, writes);
    BatchDecodes(c, values, payloads, AfterPuts(c, batch.values, writes));
  }
}
