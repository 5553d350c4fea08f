/** The datagram wire format: a 14-byte little-endian header (`"<IQH"`:
    sequence number, base timestamp in microseconds, sample count `n`)
    followed by `n` little-endian signed 16-bit samples. */
module Packet {
  import opened Results
  import opened LittleEndian

  /** `struct.calcsize("<IQH")`: 4 + 8 + 2 bytes, no padding under `<`. */
  const HeaderSize: nat := 14

  datatype Header = Header(seqNo: nat, t0Micros: nat, count: nat)

  /** A decoded datagram; the sample count is `|samples|`. */
  datatype Packet = Packet(seqNo: nat, t0Micros: nat, samples: seq<int16>)

  /** The two ways a datagram is refused. The receiver reacts differently:
      a short header ends the cycle quietly, a short payload raises. */
  datatype DecodeError = HeaderTooShort | PayloadTooShort

  /** Field ranges of the wire format: `I`, `Q`, `H` and `h` values. */
  predicate WellFormed(p: Packet) {
    && p.seqNo < Pow256(4)
    && p.t0Micros < Pow256(8)
    && |p.samples| < Pow256(2)
  }

  /** The sample count a buffer of at least 14 bytes declares. */
  function DeclaredCount(data: seq<byte>): nat
    requires |data| >= HeaderSize
  {
    Value(data[12..14])
  }

  /** `struct.unpack_from("<IQH", data, 0)`. */
  function DecodeHeader(data: seq<byte>): (r: Result<Header, DecodeError>)
    ensures r.Ok? <==> |data| >= HeaderSize
    ensures r.Err? ==> r.error == HeaderTooShort
    ensures r.Ok? ==> r.value.seqNo == Value(data[0..4]) && r.value.t0Micros == Value(data[4..12])
    ensures r.Ok? ==> r.value.count == DeclaredCount(data)
    ensures r.Ok? ==> r.value.seqNo < Pow256(4) && r.value.t0Micros < Pow256(8) && r.value.count < Pow256(2)
  {
    if |data| < HeaderSize then Err(HeaderTooShort)
    else
      Ok(Header(Value(data[0..4]), Value(data[4..12]), Value(data[12..14])))
  }

  /** The signed 16-bit little-endian value stored at byte `at` of `data`. */
  function SampleAt(data: seq<byte>, at: nat): int16
    requires at + 2 <= |data|
  {
    Int16(data[at], data[at + 1])
  }

  /** `struct.unpack_from(f"<{n}h", data, offset)` once the buffer is long enough:
      sample `i` is the 16-bit value at `offset + 2*i`. */
  function Samples(data: seq<byte>, offset: nat, n: nat): (r: seq<int16>)
    requires offset + 2 * n <= |data|
    ensures |r| == n
  {
    if n == 0 then []
    else Samples(data, offset, n - 1) + [SampleAt(data, offset + 2 * (n - 1))]
  }

  /** Sample `i` is read from bytes `offset + 2*i` and `offset + 2*i + 1`. */
  lemma {:induction false} SamplesAt(data: seq<byte>, offset: nat, n: nat)
    requires offset + 2 * n <= |data|
    ensures forall i :: 0 <= i < n ==> Samples(data, offset, n)[i] == SampleAt(data, offset + 2 * i)
  {
    if n > 0 {
      SamplesAt(data, offset, n - 1);
    }
  }

  /** Decoding one datagram as the receive loop does: header, then exactly the
      declared number of samples; bytes past `14 + 2n` are never read. */
  function Decode(data: seq<byte>): (r: Result<Packet, DecodeError>)
    ensures r == Err(HeaderTooShort) <==> |data| < HeaderSize
    ensures r == Err(PayloadTooShort) <==> |data| >= HeaderSize && |data| < HeaderSize + 2 * DeclaredCount(data)
    ensures r.Ok? ==> |r.value.samples| == DeclaredCount(data) && WellFormed(r.value)
    ensures r.Ok? ==> r.value.seqNo == Value(data[0..4]) && r.value.t0Micros == Value(data[4..12])
  {
    var h :- DecodeHeader(data);
    if |data| < HeaderSize + 2 * h.count then Err(PayloadTooShort)
    else Ok(Packet(h.seqNo, h.t0Micros, Samples(data, HeaderSize, h.count)))
  }

  /** The payload bytes of a list of samples, two per sample. */
  function EncodeSamples(ss: seq<int16>): (r: seq<byte>)
    ensures |r| == 2 * |ss|
  {
    if |ss| == 0 then []
    else EncodeSamples(ss[..|ss| - 1]) + Int16Bytes(ss[|ss| - 1])
  }

  /** Sample `i` is written as bytes `2*i` and `2*i + 1` of the payload. */
  lemma {:induction false} EncodeSamplesAt(ss: seq<int16>)
    ensures var e := EncodeSamples(ss);
      forall i :: 0 <= i < |ss| ==> Int16(e[2 * i], e[2 * i + 1]) == ss[i]
  {
    if |ss| > 0 {
      var n := |ss| - 1;
      EncodeSamplesAt(ss[..n]);
      var e' := EncodeSamples(ss[..n]);
      var e := EncodeSamples(ss);
      assert e == e' + Int16Bytes(ss[n]);
      forall i | 0 <= i < |ss|
        ensures Int16(e[2 * i], e[2 * i + 1]) == ss[i]
      {
        if i < n {
          assert e[2 * i] == e'[2 * i] && e[2 * i + 1] == e'[2 * i + 1];
          assert ss[..n][i] == ss[i];
        }
      }
    }
  }

  /** The datagram a sender produces for `p` (`struct.pack("<IQH...")`). */
  function Encode(p: Packet): (r: seq<byte>)
    requires WellFormed(p)
    ensures |r| == HeaderSize + 2 * |p.samples|
  {
    EncodeHeader(p) + EncodeSamples(p.samples)
  }

  /** The 14 header bytes of `p`. */
  function EncodeHeader(p: Packet): (r: seq<byte>)
    requires WellFormed(p)
    ensures |r| == HeaderSize
  {
    Bytes(p.seqNo, 4) + Bytes(p.t0Micros, 8) + Bytes(|p.samples|, 2)
  }

  /** Decoding what was encoded gives the packet back, whatever bytes trail it. */
  lemma {:induction false} RoundTrip(p: Packet, trailing: seq<byte>)
    requires WellFormed(p)
    ensures Decode(Encode(p) + trailing) == Ok(p)
  {
    var n := |p.samples|;
    var h := EncodeHeader(p);
    var e := EncodeSamples(p.samples);
    var data := Encode(p) + trailing;
    assert data == h + (e + trailing);
    assert data[0..4] == Bytes(p.seqNo, 4) && data[4..12] == Bytes(p.t0Micros, 8) && data[12..14] == Bytes(n, 2) by {
      assert data[..HeaderSize] == h;
    }
    assert Samples(data, HeaderSize, n) == p.samples by {
      SamplesOfEncoded(p.samples, h, trailing);
    }
  }

  /** The payload half of `RoundTrip`: samples read back after any 14-byte prefix. */
  lemma {:induction false} SamplesOfEncoded(ss: seq<int16>, h: seq<byte>, trailing: seq<byte>)
    requires |h| == HeaderSize
    ensures HeaderSize + 2 * |ss| <= |h + EncodeSamples(ss) + trailing|
    ensures Samples(h + EncodeSamples(ss) + trailing, HeaderSize, |ss|) == ss
  {
    var e := EncodeSamples(ss);
    var data := h + e + trailing;
    var r := Samples(data, HeaderSize, |ss|);
    SamplesAt(data, HeaderSize, |ss|);
    EncodeSamplesAt(ss);
    forall i | 0 <= i < |ss|
      ensures r[i] == ss[i]
    {
      assert data[HeaderSize + 2 * i] == e[2 * i];
      assert data[HeaderSize + 2 * i + 1] == e[2 * i + 1];
    }
  }

  /** The payload of a decodable buffer is re-encoded to the same bytes. */
  lemma {:induction false} EncodeSamplesOfDecoded(data: seq<byte>, offset: nat, n: nat)
    requires offset + 2 * n <= |data|
    ensures EncodeSamples(Samples(data, offset, n)) == data[offset..offset + 2 * n]
  {
    if n > 0 {
      var k := offset + 2 * (n - 1);
      var last := Int16Bytes(SampleAt(data, k));
      var whole := EncodeSamples(Samples(data, offset, n));
      var prefix := EncodeSamples(Samples(data, offset, n - 1));
      assert whole == prefix + last by {
        EncodeLastSample(data, offset, n);
      }
      assert prefix == data[offset..k] by {
        EncodeSamplesOfDecoded(data, offset, n - 1);
      }
      assert data[offset..k] + last == data[offset..k + 2] by {
        SampleBytes(data, offset, k);
      }
      SameTail(whole, prefix, data[offset..k], last, data[offset..k + 2]);
    }
  }

  /** Re-encoding `n` decoded samples appends the last one's two bytes to the
      encoding of the first `n - 1`. */
  lemma EncodeLastSample(data: seq<byte>, offset: nat, n: nat)
    requires n > 0 && offset + 2 * n <= |data|
    ensures EncodeSamples(Samples(data, offset, n))
         == EncodeSamples(Samples(data, offset, n - 1)) + Int16Bytes(SampleAt(data, offset + 2 * (n - 1)))
  {
    EncodeSamplesSnoc(Samples(data, offset, n - 1), SampleAt(data, offset + 2 * (n - 1)));
  }

  /** The two bytes a sample was read from are the two bytes it is written back as. */
  lemma SampleBytes(data: seq<byte>, offset: nat, k: nat)
    requires offset <= k && k + 2 <= |data|
    ensures data[offset..k] + Int16Bytes(SampleAt(data, k)) == data[offset..k + 2]
  {
    Int16BytesOfPair(data[k], data[k + 1]);
    SliceExtend(data, offset, k);
  }

  /** Appending the same tail to equal prefixes gives equal sequences. */
  lemma SameTail(x: seq<byte>, y: seq<byte>, z: seq<byte>, t: seq<byte>, w: seq<byte>)
    requires x == y + t && y == z && z + t == w
    ensures x == w
  {
  }

  /** Widening a slice by two bytes appends those two bytes. */
  lemma {:induction false} SliceExtend(s: seq<byte>, a: nat, b: nat)
    requires a <= b && b + 2 <= |s|
    ensures s[a..b] + [s[b], s[b + 1]] == s[a..b + 2]
  {
  }

  /** Encoding one more sample appends its two bytes. */
  lemma {:induction false} EncodeSamplesSnoc(ss: seq<int16>, x: int16)
    ensures EncodeSamples(ss + [x]) == EncodeSamples(ss) + Int16Bytes(x)
  {
    assert (ss + [x])[..|ss|] == ss;
  }

  /** Conversely, a decoded packet is exactly the leading `14 + 2n` bytes of its
      datagram: decoding loses nothing but the trailing bytes. */
  lemma {:induction false} EncodeOfDecode(data: seq<byte>, p: Packet)
    requires Decode(data) == Ok(p)
    ensures Encode(p) == data[..HeaderSize + 2 * |p.samples|]
  {
    var n := DeclaredCount(data);
    var end := HeaderSize + 2 * n;
    assert p.samples == Samples(data, HeaderSize, n);
    assert EncodeHeader(p) == data[..HeaderSize] by {
      HeaderOfDecode(data, p);
    }
    assert EncodeSamples(p.samples) == data[HeaderSize..end] by {
      EncodeSamplesOfDecoded(data, HeaderSize, n);
    }
    SliceSplit(data, 0, HeaderSize, end);
    assert data[..end] == data[0..end];
    assert data[..HeaderSize] == data[0..HeaderSize];
  }

  /** The header half of `EncodeOfDecode`. */
  lemma {:induction false} HeaderOfDecode(data: seq<byte>, p: Packet)
    requires Decode(data) == Ok(p)
    ensures EncodeHeader(p) == data[..HeaderSize]
  {
    assert p.seqNo == Value(data[0..4]) && p.t0Micros == Value(data[4..12]);
    assert |p.samples| == Value(data[12..14]);
    BytesOfValue(data[0..4]);
    BytesOfValue(data[4..12]);
    BytesOfValue(data[12..14]);
    assert data[..HeaderSize] == data[0..4] + data[4..12] + data[12..14] by {
      SliceSplit(data, 0, 4, 12);
      SliceSplit(data, 0, 12, HeaderSize);
      assert data[..HeaderSize] == data[0..HeaderSize];
    }
  }

  /** A slice is its two halves at any cut point. */
  lemma {:induction false} SliceSplit(s: seq<byte>, a: nat, b: nat, c: nat)
    requires a <= b <= c <= |s|
    ensures s[a..c] == s[a..b] + s[b..c]
  {
  }
}
