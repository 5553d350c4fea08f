/** Byte-level arithmetic used by the wire format: unsigned little-endian
    integers of a fixed width and two's-complement 16-bit samples. */
module LittleEndian {

  type byte = b: int | 0 <= b < 256

  /** 256 raised to `width`: the number of values a `width`-byte field holds. */
  function Pow256(width: nat): (r: nat)
    ensures r >= 1
  {
    if width == 0 then 1 else 256 * Pow256(width - 1)
  }

  /** The unsigned value of `s` read least significant byte first: the value
      of an `I`, `Q` or `H` field, which always fits the field's width. */
  function Value(s: seq<byte>): (r: nat)
    ensures r < Pow256(|s|)
  {
    if |s| == 0 then 0 else s[0] + 256 * Value(s[1..])
  }

  /** `v` written as `width` bytes, least significant first. */
  function Bytes(v: nat, width: nat): (r: seq<byte>)
    requires v < Pow256(width)
    ensures |r| == width
    ensures Value(r) == v
  {
    if width == 0 then []
    else
      var rest := Bytes(v / 256, width - 1);
      assert Value([v % 256] + rest) == v % 256 + 256 * Value(rest) by {
        assert ([v % 256] + rest)[1..] == rest;
      }
      [v % 256] + rest
  }

  /** Writing back the value read from `s` gives `s`: the encoding is injective. */
  lemma {:induction false} BytesOfValue(s: seq<byte>)
    ensures Value(s) < Pow256(|s|)
    ensures Bytes(Value(s), |s|) == s
  {
    if |s| > 0 {
      BytesOfValue(s[1..]);
      assert Value(s) % 256 == s[0];
      assert Value(s) / 256 == Value(s[1..]);
    }
  }

  const Int16Min: int := -0x8000
  const Int16Max: int := 0x7FFF

  /** A Python int that fits the `h` format: what one sample can hold. */
  type int16 = x: int | Int16Min <= x <= Int16Max

  /** The signed 16-bit value stored little-endian in `lo`, `hi`
      (format character `h` with `<`). */
  function Int16(lo: byte, hi: byte): (r: int16)
    ensures hi < 0x80 <==> r >= 0
    ensures Unsigned(r) == lo + 256 * hi
  {
    var u := lo + 256 * hi;
    if u >= 0x8000 then u - 0x10000 else u
  }

  /** The 16-bit word whose two's-complement reading is `x`. */
  function Unsigned(x: int16): nat {
    if x < 0 then x + 0x10000 else x
  }

  /** The two bytes that carry the 16-bit sample `x`. */
  function Int16Bytes(x: int16): (r: seq<byte>)
    ensures |r| == 2
    ensures Int16(r[0], r[1]) == x
  {
    Bytes(Unsigned(x), 2)
  }

  /** Every byte pair is the encoding of the sample it decodes to. */
  lemma {:induction false} Int16BytesOfPair(lo: byte, hi: byte)
    ensures Int16Bytes(Int16(lo, hi)) == [lo, hi]
  {
    var u := lo + 256 * hi;
    BytesOfValue([lo, hi]);
    assert Value([lo, hi]) == u by {
      assert [lo, hi][1..] == [hi];
      assert [hi][1..] == [];
    }
  }
}
