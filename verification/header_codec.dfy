/**
 * The fixed-width header codec of `Header::read` / `Header::write`: five big-endian
 * integers (u32, u64, u64, u32, u32) followed by the sixteen key bytes, 44 bytes in all.
 */
module HeaderCodec {
  import opened Wrappers
  import opened Bytes
  import opened Records

  /** Number of bytes `Header::write` emits and `Header::read` consumes. */
  const HeaderSize: nat := 44

  /** The reader ran out of bytes (an `UnexpectedEof` I/O error). */
  datatype ReadError = UnexpectedEof

  /** Reads an n-byte big-endian integer from the front of a byte stream. */
  function ReadBigEndian(input: seq<byte>, n: nat): (r: Result<(nat, seq<byte>), ReadError>)
    ensures r.Success? <==> n <= |input|
    ensures r.Success? ==> r.value.0 < Pow256(n) && input == ToBigEndian(r.value.0, n) + r.value.1
  {
    if |input| < n then Failure(UnexpectedEof)
    else
      ToFromBigEndian(input[..n]);
      Success((FromBigEndian(input[..n]), input[n..]))
  }

  /** Reads exactly sixteen raw bytes (`read_exact` into a `[u8; 16]`). */
  function ReadKey(input: seq<byte>): (r: Result<(Block, seq<byte>), ReadError>)
    ensures r.Success? <==> BlockSize <= |input|
    ensures r.Success? ==> input == r.value.0 + r.value.1
  {
    if |input| < BlockSize then Failure(UnexpectedEof)
    else Success((input[..BlockSize], input[BlockSize..]))
  }

  /**
   * `Header::read`: the decoded header and the unread rest of the stream. It fails exactly
   * when fewer than 44 bytes are available, and a success consumed exactly the encoding
   * of the header it returns.
   */
  function Read(input: seq<byte>): (r: Result<(Header, seq<byte>), ReadError>)
    ensures r.Failure? <==> |input| < HeaderSize
    ensures r.Success? ==> input == Write(r.value.0) + r.value.1
  {
    assert Pow256(4) == 0x1_0000_0000 && Pow256(8) == 0x1_0000_0000_0000_0000;
    var (version, r1) :- ReadBigEndian(input, 4);
    var (count, r2) :- ReadBigEndian(r1, 8);
    var (resolution, r3) :- ReadBigEndian(r2, 8);
    var (size, r4) :- ReadBigEndian(r3, 4);
    var (recordType, r5) :- ReadBigEndian(r4, 4);
    var (key, rest) :- ReadKey(r5);
    var h := Header(version as u32, count as u64, resolution as u64, size as u32, recordType as u32, key);
    FieldsFormEncoding(h, input, r1, r2, r3, r4, r5, rest);
    Success((h, rest))
  }

  /** `Header::write`: the 44-byte encoding of a header. */
  function Write(h: Header): (r: seq<byte>)
    ensures |r| == HeaderSize
  {
    assert Pow256(4) == 0x1_0000_0000 && Pow256(8) == 0x1_0000_0000_0000_0000;
    ToBigEndian(h.version as nat, 4)
    + ToBigEndian(h.timestampCount as nat, 8)
    + ToBigEndian(h.timestampResolution as nat, 8)
    + ToBigEndian(h.size as nat, 4)
    + ToBigEndian(h.recordType as nat, 4)
    + h.aesKey
  }

  /** Field layout of a written header: each integer reads back big-endian from its fixed offset, then the key verbatim. */
  lemma WriteLayout(h: Header)
    ensures |Write(h)| == HeaderSize
    ensures FromBigEndian(Write(h)[0..4]) == h.version as nat
    ensures FromBigEndian(Write(h)[4..12]) == h.timestampCount as nat
    ensures FromBigEndian(Write(h)[12..20]) == h.timestampResolution as nat
    ensures FromBigEndian(Write(h)[20..24]) == h.size as nat
    ensures FromBigEndian(Write(h)[24..28]) == h.recordType as nat
    ensures Write(h)[28..44] == h.aesKey
  {
    assert Pow256(4) == 0x1_0000_0000 && Pow256(8) == 0x1_0000_0000_0000_0000;
    var w := Write(h);
    assert w[0..4] == ToBigEndian(h.version as nat, 4);
    assert w[4..12] == ToBigEndian(h.timestampCount as nat, 8);
    assert w[12..20] == ToBigEndian(h.timestampResolution as nat, 8);
    assert w[20..24] == ToBigEndian(h.size as nat, 4);
    assert w[24..28] == ToBigEndian(h.recordType as nat, 4);
    FromToBigEndian(h.version as nat, 4);
    FromToBigEndian(h.timestampCount as nat, 8);
    FromToBigEndian(h.timestampResolution as nat, 8);
    FromToBigEndian(h.size as nat, 4);
    FromToBigEndian(h.recordType as nat, 4);
  }

  /** Reading what was written returns the header, consumes exactly 44 bytes and leaves the rest unread. */
  lemma ReadWrite(h: Header, rest: seq<byte>)
    ensures Read(Write(h) + rest) == Success((h, rest))
  {
    assert Pow256(4) == 0x1_0000_0000 && Pow256(8) == 0x1_0000_0000_0000_0000;
    var a := ToBigEndian(h.version as nat, 4);
    var b := ToBigEndian(h.timestampCount as nat, 8);
    var c := ToBigEndian(h.timestampResolution as nat, 8);
    var d := ToBigEndian(h.size as nat, 4);
    var e := ToBigEndian(h.recordType as nat, 4);
    FromToBigEndian(h.version as nat, 4);
    FromToBigEndian(h.timestampCount as nat, 8);
    FromToBigEndian(h.timestampResolution as nat, 8);
    FromToBigEndian(h.size as nat, 4);
    FromToBigEndian(h.recordType as nat, 4);
    var s := Write(h) + rest;
    assert s == a + (b + (c + (d + (e + (h.aesKey + rest)))));
    ReadsBack(a, b + (c + (d + (e + (h.aesKey + rest)))));
    ReadsBack(b, c + (d + (e + (h.aesKey + rest))));
    ReadsBack(c, d + (e + (h.aesKey + rest)));
    ReadsBack(d, e + (h.aesKey + rest));
    ReadsBack(e, h.aesKey + rest);
    assert (h.aesKey + rest)[..BlockSize] == h.aesKey;
    assert (h.aesKey + rest)[BlockSize..] == rest;
  }

  /** Five big-endian fields and a key, read one after another, are the header's encoding. */
  lemma FieldsFormEncoding(h: Header, input: seq<byte>, r1: seq<byte>, r2: seq<byte>, r3: seq<byte>,
                           r4: seq<byte>, r5: seq<byte>, rest: seq<byte>)
    requires Pow256(4) == 0x1_0000_0000 && Pow256(8) == 0x1_0000_0000_0000_0000
    requires input == ToBigEndian(h.version as nat, 4) + r1
    requires r1 == ToBigEndian(h.timestampCount as nat, 8) + r2
    requires r2 == ToBigEndian(h.timestampResolution as nat, 8) + r3
    requires r3 == ToBigEndian(h.size as nat, 4) + r4
    requires r4 == ToBigEndian(h.recordType as nat, 4) + r5
    requires r5 == h.aesKey + rest
    ensures |input| >= HeaderSize && input == Write(h) + rest
  {
  }

  lemma ReadsBack(a: seq<byte>, rest: seq<byte>)
    ensures (a + rest)[..|a|] == a && (a + rest)[|a|..] == rest
  {
  }
}
