// The byte layout of one write-ahead-log record:
// magic "PGV1", big-endian payload length, big-endian CRC32 of the payload, payload.
module WalFormat {
  import opened Bytes
  import opened RaftTypes
  import opened RecordLog

  const WAL_MAGIC: seq<byte> := [80, 71, 86, 49]
  const HEADER_LEN: nat := 12

  // The serializer and the checksum are foreign code: the model takes them as functions.
  datatype Codec = Codec(encode: Entry -> seq<byte>, decode: seq<byte> -> Option<Entry>, crc: seq<byte> -> u32)

  // All that is used of the serializer: what it writes, it reads back.
  ghost predicate Invertible(c: Codec) {
    forall e: Entry :: c.decode(c.encode(e)) == Some(e)
  }

  // The length field holds the payload length modulo 2^32.
  function Frame(c: Codec, payload: seq<byte>): (f: seq<byte>)
    ensures |f| == HEADER_LEN + |payload|
  {
    WAL_MAGIC + Be32(|payload| % TWO_TO_THE_32) + Be32(c.crc(payload)) + payload
  }

  function ParseRecord(c: Codec, bytes: seq<byte>): (p: Parsed)
    ensures p.Good? ==> HEADER_LEN <= p.len <= |bytes|
  {
    if |bytes| < HEADER_LEN || bytes[..4] != WAL_MAGIC then Torn else
    var n := FromBe32(bytes[4..8]);
    if |bytes| < HEADER_LEN + n then Torn else
    var payload := bytes[HEADER_LEN..HEADER_LEN + n];
    if c.crc(payload) != FromBe32(bytes[8..12]) then Torn else
    match c.decode(payload)
    case None => Undecodable
    case Some(e) => Good(e, HEADER_LEN + n)
  }

  // The log's format; an entry fits if its payload is below 4 GiB.
  function WalRecords(c: Codec): (f: Format)
    ensures Progress(f)
  {
    Format(
      (e: Entry) => Frame(c, c.encode(e)),
      (b: seq<byte>) => ParseRecord(c, b),
      (e: Entry) => |c.encode(e)| < TWO_TO_THE_32)
  }

  // ---- An independent account of a frame.

  // The bytes are a header that describes the rest of them exactly.
  predicate IsFrame(c: Codec, b: seq<byte>) {
    HEADER_LEN <= |b| < HEADER_LEN + TWO_TO_THE_32 && b == Frame(c, b[HEADER_LEN..])
  }

  lemma HeaderFields(c: Codec, payload: seq<byte>, rest: seq<byte>)
    requires |payload| < TWO_TO_THE_32
    ensures var b := Frame(c, payload) + rest;
            && b[..4] == WAL_MAGIC && FromBe32(b[4..8]) == |payload|
            && FromBe32(b[8..12]) == c.crc(payload) && b[12..12 + |payload|] == payload
  {
    var b := Frame(c, payload) + rest;
    assert b[4..8] == Be32(|payload|);
    assert b[8..12] == Be32(c.crc(payload));
    WordRoundTrip(|payload|);
    WordRoundTrip(c.crc(payload));
    assert b[..4] == WAL_MAGIC;
    assert b[12..12 + |payload|] == payload;
  }

  lemma ParseFrame(c: Codec, payload: seq<byte>, rest: seq<byte>)
    requires |payload| < TWO_TO_THE_32
    ensures ParseRecord(c, Frame(c, payload) + rest) ==
            match c.decode(payload) case None => Undecodable case Some(e) => Good(e, |Frame(c, payload)|)
  {
    HeaderFields(c, payload, rest);
  }

  // A cut frame is never taken for a record.
  lemma ParseTornFrame(c: Codec, payload: seq<byte>, k: nat)
    requires |payload| < TWO_TO_THE_32 && k < |Frame(c, payload)|
    ensures ParseRecord(c, Frame(c, payload)[..k]) == Torn
  {
    var f := Frame(c, payload);
    HeaderFields(c, payload, []);
    assert f + [] == f;
    if HEADER_LEN <= k {
      assert f[..k][..4] == f[..4] && f[..k][4..8] == f[4..8];
    }
  }

  // The scan goes on, or gives up with an error, only at a whole frame: magic, length
  // and checksum all right. Everywhere else it cuts the file.
  lemma ParsedIsFrame(c: Codec, bytes: seq<byte>)
    ensures ParseRecord(c, bytes) != Torn ==>
              var n := HEADER_LEN + FromBe32(bytes[4..8]);
              && n <= |bytes| && IsFrame(c, bytes[..n])
              && ParseRecord(c, bytes) ==
                 match c.decode(bytes[HEADER_LEN..n]) case None => Undecodable case Some(e) => Good(e, n)
  {
    if ParseRecord(c, bytes) != Torn {
      var n := FromBe32(bytes[4..8]);
      var f := bytes[..HEADER_LEN + n];
      assert f[HEADER_LEN..] == bytes[HEADER_LEN..HEADER_LEN + n];
      SplitHeader(c, bytes, n);
    }
  }

  lemma SplitHeader(c: Codec, bytes: seq<byte>, n: u32)
    requires HEADER_LEN + n <= |bytes| && bytes[..4] == WAL_MAGIC && FromBe32(bytes[4..8]) == n
    requires c.crc(bytes[HEADER_LEN..HEADER_LEN + n]) == FromBe32(bytes[8..12])
    ensures bytes[..HEADER_LEN + n] == Frame(c, bytes[HEADER_LEN..HEADER_LEN + n])
  {
    hide Be32, FromBe32;
    BytesRoundTrip(bytes[4..8]);
    BytesRoundTrip(bytes[8..12]);
    assert bytes[..HEADER_LEN + n] == bytes[..4] + bytes[4..8] + bytes[8..12] + bytes[HEADER_LEN..HEADER_LEN + n];
  }

  // A whole record is exactly a frame whose payload decodes to the entry.
  lemma RecordIffFrame(c: Codec, b: seq<byte>, e: Entry)
    ensures IsRecord(WalRecords(c), b, e) <==> IsFrame(c, b) && c.decode(b[HEADER_LEN..]) == Some(e)
  {
    if IsRecord(WalRecords(c), b, e) {
      ParsedIsFrame(c, b);
      assert b[..|b|] == b;
    } else if IsFrame(c, b) {
      ParseFrame(c, b[HEADER_LEN..], []);
      assert b + [] == b;
    }
  }

  // The log's format obeys the laws that recovery rests on.
  lemma WalRecordsLawful(c: Codec)
    requires Invertible(c)
    ensures Lawful(WalRecords(c))
  {
    var f := WalRecords(c);
    forall e, rest
      ensures ReadsBack(f, e, rest)
    {
      if f.fits(e) { ParseFrame(c, c.encode(e), rest); }
    }
    forall e, k: nat
      ensures DetectsCut(f, e, k)
    {
      if f.fits(e) && k < |f.record(e)| { ParseTornFrame(c, c.encode(e), k); }
    }
    forall b, rest
      ensures SelfDelimiting(f, b, rest)
    {
      if f.parse(b).Good? && f.parse(b).len == |b| { ExtendFrame(c, b, rest); }
    }
    forall b
      ensures StopsAtLength(f, b)
    {
      if f.parse(b).Good? { StopAtFrame(c, b); }
    }
  }

  lemma ExtendFrame(c: Codec, b: seq<byte>, rest: seq<byte>)
    requires ParseRecord(c, b).Good? && ParseRecord(c, b).len == |b|
    ensures ParseRecord(c, b + rest) == ParseRecord(c, b)
  {
    ParsedIsFrame(c, b);
    assert b[..|b|] == b;
    ParseFrame(c, b[HEADER_LEN..], rest);
  }

  lemma StopAtFrame(c: Codec, b: seq<byte>)
    requires ParseRecord(c, b).Good?
    ensures ParseRecord(c, b[..ParseRecord(c, b).len]) == ParseRecord(c, b)
  {
    ParsedIsFrame(c, b);
    var n := ParseRecord(c, b).len;
    var f := b[..n];
    assert f[HEADER_LEN..] == b[HEADER_LEN..n];
    ParseFrame(c, f[HEADER_LEN..], []);
    assert f + [] == f;
  }
}
