/** Fixed-width big-endian integers. */
module BigEndian {
  import opened Bytes

  function Pow256(width: nat): (p: nat)
    ensures p > 0
  {
    if width == 0 then 1 else 256 * Pow256(width - 1)
  }

  /** The low `width` bytes of a value, most significant first. */
  function Encode(value: nat, width: nat): (bytes: seq<Byte>)
    ensures |bytes| == width
  {
    if width == 0 then [] else Encode(value / 256, width - 1) + [value % 256]
  }

  function Decode(bytes: seq<Byte>): nat {
    if bytes == [] then 0 else Decode(bytes[..|bytes| - 1]) * 256 + bytes[|bytes| - 1]
  }

  lemma {:induction false} RoundTrip(value: nat, width: nat)
    requires value < Pow256(width)
    ensures Decode(Encode(value, width)) == value
  {
    if width > 0 {
      RoundTrip(value / 256, width - 1);
      var bytes := Encode(value, width);
      assert bytes[..width - 1] == Encode(value / 256, width - 1);
    }
  }

  lemma {:induction false} DecodeBound(bytes: seq<Byte>)
    ensures Decode(bytes) < Pow256(|bytes|)
  {
    if bytes != [] {
      DecodeBound(bytes[..|bytes| - 1]);
    }
  }

  lemma Powers()
    ensures Pow256(1) == 0x100 && Pow256(2) == 0x1_0000 && Pow256(4) == 0x1_0000_0000
    ensures Pow256(8) == 0x1_0000_0000_0000_0000
  {
    assert Pow256(3) == 0x100_0000;
    assert Pow256(5) == 0x100_0000_0000 && Pow256(6) == 0x1_0000_0000_0000 && Pow256(7) == 0x100_0000_0000_0000;
  }

  /** A right shift by k bytes. */
  function ShiftBytes(value: nat, k: nat): nat {
    if k == 0 then value else ShiftBytes(value, k - 1) / 256
  }

  /** The next byte written by a shift loop extends the encoding of the higher bytes. */
  lemma EncodeStep(value: nat, k: nat, width: nat)
    ensures Encode(ShiftBytes(value, k), width + 1)
         == Encode(ShiftBytes(value, k + 1), width) + [ShiftBytes(value, k) % 256]
  {
  }
}
