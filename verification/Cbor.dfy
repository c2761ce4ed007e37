/** Canonical CBOR heads, items and arrays (sections 3 and 4.2.1 of RFC 8949). */
module Cbor {
  import opened Bytes
  import opened SandboxTypes
  import BE = BigEndian

  // ----- Heads -----

  /** The shortest head of a major type and argument. */
  function Head(major: nat, value: nat): (bytes: seq<Byte>)
    requires major < 8 && value < U64
    ensures 1 <= |bytes| <= 9
  {
    if value < 24 then [major * 32 + value]
    else if value <= 0xff then [major * 32 + 24] + BE.Encode(value, 1)
    else if value <= 0xffff then [major * 32 + 25] + BE.Encode(value, 2)
    else if value <= 0xffff_ffff then [major * 32 + 26] + BE.Encode(value, 4)
    else [major * 32 + 27] + BE.Encode(value, 8)
  }

  /** Writing a head: one or two bytes directly, four or eight by a loop of shifts. */
  method WriteHead(buffer: seq<Byte>, major: nat, value: nat) returns (out: seq<Byte>)
    requires major < 8 && value < U64
    ensures out == buffer + Head(major, value)
  {
    hide BE.ShiftBytes;
    if value < 24 {
      return buffer + [major * 32 + value];
    }
    if value <= 0xff {
      assert BE.Encode(value, 1) == BE.Encode(value / 256, 0) + [value];
      return buffer + [major * 32 + 24] + [value];
    }
    if value <= 0xffff {
      assert BE.Encode(value, 2) == BE.Encode(value / 256, 1) + [value % 256];
      assert BE.Encode(value / 256, 1) == BE.Encode(value / 256 / 256, 0) + [value / 256];
      return buffer + [major * 32 + 25] + [value / 256] + [value % 256];
    }
    if value <= 0xffff_ffff {
      out := WriteShifted(buffer + [major * 32 + 26], value, 4);
      return;
    }
    out := WriteShifted(buffer + [major * 32 + 27], value, 8);
  }

  /** The loop over shifts 8 * (width - 1), ..., 8, 0. */
  method WriteShifted(buffer: seq<Byte>, value: nat, width: nat) returns (out: seq<Byte>)
    requires width > 0
    ensures out == buffer + BE.Encode(value, width)
  {
    out := buffer;
    var k := width - 1;
    while true
      invariant 0 <= k < width
      invariant out == buffer + BE.Encode(BE.ShiftBytes(value, k + 1), width - 1 - k)
      decreases k
    {
      BE.EncodeStep(value, k, width - 1 - k);
      out := out + [BE.ShiftBytes(value, k) % 256];
      if k == 0 {
        return;
      }
      k := k - 1;
    }
  }

  datatype Decoded = Decoded(major: nat, value: nat, rest: seq<Byte>)

  /** How many argument bytes follow an initial byte, by its low five bits. */
  function ArgumentWidth(info: nat): Option<nat> {
    if info < 24 then Some(0)
    else if info == 24 then Some(1)
    else if info == 25 then Some(2)
    else if info == 26 then Some(4)
    else if info == 27 then Some(8)
    else None
  }

  /** Any definite head the standard allows, shortest or not. */
  function ReadHead(bytes: seq<Byte>): (d: Option<Decoded>)
    ensures d.Some? ==> |d.value.rest| < |bytes|
  {
    if bytes == [] then None
    else
      var info := bytes[0] % 32;
      match ArgumentWidth(info)
      case None => None
      case Some(width) =>
        if |bytes| < 1 + width then None
        else
          var value := if width == 0 then info else BE.Decode(bytes[1..1 + width]);
          Some(Decoded(bytes[0] / 32, value, bytes[1 + width..]))
  }

  lemma ReadWideHead(major: nat, info: nat, argument: seq<Byte>, rest: seq<Byte>)
    requires major < 8 && 24 <= info < 28 && ArgumentWidth(info) == Some(|argument|)
    ensures ReadHead([major * 32 + info] + argument + rest) == Some(Decoded(major, BE.Decode(argument), rest))
  {
    hide BE.Decode;
    var bytes := [major * 32 + info] + argument + rest;
    assert bytes[0] % 32 == info && bytes[0] / 32 == major;
    assert bytes[1..1 + |argument|] == argument && bytes[1 + |argument|..] == rest;
  }

  lemma HeadRoundTrip(major: nat, value: nat, rest: seq<Byte>)
    requires major < 8 && value < U64
    ensures ReadHead(Head(major, value) + rest) == Some(Decoded(major, value, rest))
  {
    BE.Powers();
    hide BE.Encode;
    hide BE.Decode;
    hide BE.Pow256;
    if value < 24 {
      assert (Head(major, value) + rest)[1..] == rest;
    } else {
      hide ReadHead;
      var width := if value <= 0xff then 1 else if value <= 0xffff then 2 else if value <= 0xffff_ffff then 4 else 8;
      var info := if width == 1 then 24 else if width == 2 then 25 else if width == 4 then 26 else 27;
      BE.RoundTrip(value, width);
      ReadWideHead(major, info, BE.Encode(value, width), rest);
    }
  }

  /** No head that reads as the same major type and argument is shorter. */
  lemma HeadShortest(bytes: seq<Byte>)
    requires ReadHead(bytes).Some?
    ensures var d := ReadHead(bytes).value;
            d.major < 8 && d.value < U64 && |Head(d.major, d.value)| <= |bytes| - |d.rest|
  {
    var width := ArgumentWidth(bytes[0] % 32).value;
    BE.Powers();
    if width > 0 {
      BE.DecodeBound(bytes[1..1 + width]);
      hide BE.Encode;
      hide BE.Decode;
    }
  }

  // ----- Items -----

  datatype Item = UInt(n: nat) | Text(text: seq<Byte>) | Blob(bytes: seq<Byte>) | Null

  predicate Encodable(item: Item) {
    match item
    case UInt(n) => n < U64
    case Text(text) => |text| < U64
    case Blob(bytes) => |bytes| < U64
    case Null => true
  }

  function EncodeItem(item: Item): (out: seq<Byte>)
    requires Encodable(item)
    ensures out != []
  {
    match item
    case UInt(n) => Head(0, n)
    case Text(text) => Head(3, |text|) + text
    case Blob(bytes) => Head(2, |bytes|) + bytes
    case Null => [0xf6]
  }

  datatype Parsed = Parsed(item: Item, rest: seq<Byte>)

  function ReadItem(bytes: seq<Byte>): (p: Option<Parsed>)
    ensures p.Some? ==> |p.value.rest| < |bytes|
  {
    match ReadHead(bytes)
    case None => None
    case Some(d) =>
      if d.major == 0 then Some(Parsed(UInt(d.value), d.rest))
      else if d.major == 7 && d.value == 22 then Some(Parsed(Null, d.rest))
      else if (d.major == 2 || d.major == 3) && d.value <= |d.rest| then
        Some(Parsed(if d.major == 2 then Blob(d.rest[..d.value]) else Text(d.rest[..d.value]), d.rest[d.value..]))
      else None
  }

  lemma ItemRoundTrip(item: Item, rest: seq<Byte>)
    requires Encodable(item)
    ensures ReadItem(EncodeItem(item) + rest) == Some(Parsed(item, rest))
  {
    hide ReadHead;
    hide Head;
    match item
    case UInt(n) => HeadRoundTrip(0, n, rest);
    case Text(text) => BodyRoundTrip(3, text, rest);
    case Blob(bytes) => BodyRoundTrip(2, bytes, rest);
    case Null => NullRoundTrip(rest);
  }

  lemma BodyRoundTrip(major: nat, body: seq<Byte>, rest: seq<Byte>)
    requires major < 8 && |body| < U64
    ensures ReadHead(Head(major, |body|) + body + rest) == Some(Decoded(major, |body|, body + rest))
    ensures (body + rest)[..|body|] == body && (body + rest)[|body|..] == rest
  {
    HeadRoundTrip(major, |body|, body + rest);
    Associative(Head(major, |body|), body, rest);
  }

  lemma NullRoundTrip(rest: seq<Byte>)
    ensures ReadHead([0xf6] + rest) == Some(Decoded(7, 22, rest))
  {
    assert ([0xf6] + rest)[1..] == rest;
  }

  // ----- Arrays -----

  predicate AllEncodable(items: seq<Item>) {
    forall i :: 0 <= i < |items| ==> Encodable(items[i])
  }

  function EncodeItems(items: seq<Item>): seq<Byte>
    requires AllEncodable(items)
  {
    if items == [] then [] else EncodeItem(items[0]) + EncodeItems(items[1..])
  }

  function EncodeArray(items: seq<Item>): seq<Byte>
    requires AllEncodable(items) && |items| < U64
  {
    Head(4, |items|) + EncodeItems(items)
  }

  datatype ParsedItems = ParsedItems(items: seq<Item>, rest: seq<Byte>)

  function ReadItems(bytes: seq<Byte>, count: nat): Option<ParsedItems> {
    if count == 0 then Some(ParsedItems([], bytes))
    else
      match ReadItem(bytes)
      case None => None
      case Some(first) =>
        match ReadItems(first.rest, count - 1)
        case None => None
        case Some(more) => Some(ParsedItems([first.item] + more.items, more.rest))
  }

  function ReadArray(bytes: seq<Byte>): Option<ParsedItems> {
    match ReadHead(bytes)
    case None => None
    case Some(d) => if d.major == 4 then ReadItems(d.rest, d.value) else None
  }

  lemma {:induction false} ItemsRoundTrip(items: seq<Item>, rest: seq<Byte>)
    requires AllEncodable(items)
    ensures ReadItems(EncodeItems(items) + rest, |items|) == Some(ParsedItems(items, rest))
  {
    hide ReadItem;
    hide EncodeItem;
    if items == [] {
      assert EncodeItems(items) + rest == rest;
    } else {
      ItemRoundTrip(items[0], EncodeItems(items[1..]) + rest);
      Associative(EncodeItem(items[0]), EncodeItems(items[1..]), rest);
      ItemsRoundTrip(items[1..], rest);
      assert [items[0]] + items[1..] == items;
    }
  }

  /** A standard decoder gets back the items of an array, and stops exactly where it ends. */
  lemma ArrayRoundTrip(items: seq<Item>, rest: seq<Byte>)
    requires AllEncodable(items) && |items| < U64
    ensures ReadArray(EncodeArray(items) + rest) == Some(ParsedItems(items, rest))
  {
    hide ReadHead;
    hide Head;
    HeadRoundTrip(4, |items|, EncodeItems(items) + rest);
    Associative(Head(4, |items|), EncodeItems(items), rest);
    ItemsRoundTrip(items, rest);
  }

  /** Array encodings are prefix free, so distinct arrays have distinct bytes. */
  lemma ArrayPrefixFree(a: seq<Item>, b: seq<Item>, x: seq<Byte>, y: seq<Byte>)
    requires AllEncodable(a) && AllEncodable(b) && |a| < U64 && |b| < U64
    requires EncodeArray(a) + x == EncodeArray(b) + y
    ensures a == b && x == y
  {
    ArrayRoundTrip(a, x);
    ArrayRoundTrip(b, y);
  }

  // ----- The standard's own examples -----

  lemma LowByte(high: nat, low: Byte, width: nat)
    ensures BE.Encode(high * 256 + low, width + 1) == BE.Encode(high, width) + [low]
  {
  }

  lemma MillionBytes()
    ensures BE.Encode(1000, 2) == [0x03, 0xe8] && BE.Encode(1000000, 4) == [0x00, 0x0f, 0x42, 0x40]
  {
    assert BE.Encode(0, 0) == [];
    hide BE.Encode;
    LowByte(0, 3, 0);
    LowByte(3, 0xe8, 1);
    LowByte(0, 0, 0);
    LowByte(0, 15, 1);
    LowByte(15, 0x42, 2);
    LowByte(3906, 0x40, 3);
  }

  lemma TrillionBytes()
    ensures BE.Encode(1000000000000, 8) == [0x00, 0x00, 0x00, 0xe8, 0xd4, 0xa5, 0x10, 0x00]
  {
    assert BE.Encode(0, 0) == [];
    hide BE.Encode;
    LowByte(0, 0, 0);
    LowByte(0, 0, 1);
    LowByte(0, 0, 2);
    LowByte(0, 0xe8, 3);
    LowByte(232, 0xd4, 4);
    LowByte(59604, 0xa5, 5);
    LowByte(15258789, 0x10, 6);
    LowByte(3906250000, 0x00, 7);
  }

  /** Integers from appendix A of RFC 8949. */
  lemma StandardIntegers()
    ensures EncodeItem(UInt(0)) == [0x00] && EncodeItem(UInt(23)) == [0x17] && EncodeItem(UInt(24)) == [0x18, 0x18]
    ensures EncodeItem(UInt(100)) == [0x18, 0x64] && EncodeItem(UInt(1000)) == [0x19, 0x03, 0xe8]
  {
    assert BE.Encode(0, 0) == [];
    hide BE.Encode;
    LowByte(0, 24, 0);
    LowByte(0, 100, 0);
    MillionBytes();
  }

  /** Integers of four and of eight bytes from appendix A of RFC 8949. */
  lemma StandardWideIntegers()
    ensures EncodeItem(UInt(1000000)) == [0x1a, 0x00, 0x0f, 0x42, 0x40]
    ensures EncodeItem(UInt(1000000000000)) == [0x1b, 0x00, 0x00, 0x00, 0xe8, 0xd4, 0xa5, 0x10, 0x00]
  {
    hide BE.Encode;
    MillionBytes();
    TrillionBytes();
  }

  /** A byte string, a text string, an array and null from appendix A of RFC 8949. */
  lemma StandardItems()
    ensures EncodeItem(Blob([1, 2, 3, 4])) == [0x44, 0x01, 0x02, 0x03, 0x04]
    ensures EncodeItem(Text([0x49, 0x45, 0x54, 0x46])) == [0x64, 0x49, 0x45, 0x54, 0x46]
    ensures EncodeItem(Null) == [0xf6]
    ensures EncodeArray([UInt(1), UInt(2), UInt(3)]) == [0x83, 0x01, 0x02, 0x03]
  {
    var items := [UInt(1), UInt(2), UInt(3)];
    assert items[1..] == [UInt(2), UInt(3)] && [UInt(2), UInt(3)][1..] == [UInt(3)] && [UInt(3)][1..] == [];
    assert EncodeItems([UInt(3)]) == [3] + EncodeItems([]);
    assert EncodeItems([UInt(2), UInt(3)]) == [2] + EncodeItems([UInt(3)]);
    assert EncodeItems(items) == [1] + EncodeItems([UInt(2), UInt(3)]);
  }
}
