// The column block of a DataRow message: per column a signed length, -1 for NULL, and
// the value's bytes.
module DataRow {
  import opened Bytes
  import opened Frames

  // Text encoding is foreign code: encoding, and the lossy decoding that undoes it.
  datatype Text = Text(encode: string -> seq<byte>, lossy: seq<byte> -> string)

  ghost predicate Invertible(t: Text) {
    forall s :: t.lossy(t.encode(s)) == s
  }

  // A signed 32-bit number as a word; the source's narrowing cast wraps.
  function Word(n: int): u32 {
    n % TWO_TO_THE_32
  }

  function EncodeColumn(t: Text, v: Option<string>): seq<byte> {
    match v
    case None => Be32(Word(-1))
    case Some(s) => Be32(Word(|t.encode(s)|)) + t.encode(s)
  }

  function EncodeColumns(t: Text, vs: seq<Option<string>>): seq<byte> {
    if vs == [] then [] else EncodeColumn(t, vs[0]) + EncodeColumns(t, vs[1..])
  }

  // Values of up to 2^31 - 1 bytes, so that no length reads as negative.
  ghost predicate Fits(t: Text, vs: seq<Option<string>>) {
    forall i :: 0 <= i < |vs| && vs[i].Some? ==> |t.encode(vs[i].value)| < TWO_TO_THE_31
  }

  // At most n columns of the block; a cut block ends the row, a length below -1 is skipped.
  function DecodeColumns(t: Text, b: seq<byte>, n: nat): seq<Option<string>> {
    if n == 0 || |b| < 4 then [] else
    var len := Signed(FromBe32(b[..4]));
    var rest := b[4..];
    if len == -1 then [None] + DecodeColumns(t, rest, n - 1) else
    if len < 0 then DecodeColumns(t, rest, n - 1) else
    if |rest| < len then [] else
    [Some(t.lossy(rest[..len]))] + DecodeColumns(t, rest[len..], n - 1)
  }

  // Encodes the columns one after the other.
  method EncodeDataRow(t: Text, values: seq<Option<string>>) returns (data: seq<byte>)
    ensures data == EncodeColumns(t, values)
  {
    hide Be32, Word;
    data := [];
    assert values[0..] == values;
    for i := 0 to |values|
      invariant data + EncodeColumns(t, values[i..]) == EncodeColumns(t, values)
    {
      assert values[i..][1..] == values[i + 1..];
      Assoc(data, EncodeColumn(t, values[i]), EncodeColumns(t, values[i + 1..]));
      match values[i] {
        case None =>
          data := data + Be32(Word(-1));
        case Some(s) =>
          var b := t.encode(s);
          Assoc(data, Be32(Word(|b|)), b);
          data := data + Be32(Word(|b|));
          data := data + b;
      }
    }
    assert values[|values|..] == [];
    assert data + [] == data;
  }

  // The 16-bit signed column count that the message header carries for n columns.
  function HeaderCount(n: nat): int {
    var w := n % 0x1_0000;
    if w < 0x8000 then w else w - 0x1_0000
  }

  // Decoding a row with the header's count; None stands for the failure on a negative one.
  function DecodeRow(t: Text, b: seq<byte>, fieldCount: int): Option<seq<Option<string>>> {
    if fieldCount < 0 then None else Some(DecodeColumns(t, b, fieldCount))
  }

  // Decodes over a shrinking slice.
  method DecodeDataRowValues(t: Text, data: seq<byte>, fieldCount: int) returns (row: Option<seq<Option<string>>>)
    ensures row == DecodeRow(t, data, fieldCount)
  {
    if fieldCount < 0 {
      return None;
    }
    var buf := data;
    var values: seq<Option<string>> := [];
    for i := 0 to fieldCount
      invariant values + DecodeColumns(t, buf, fieldCount - i) == DecodeColumns(t, data, fieldCount)
    {
      ghost var before := values;
      if |buf| < 4 {
        assert values + [] == values;
        return Some(values);
      }
      var len := Signed(FromBe32([buf[0], buf[1], buf[2], buf[3]]));
      assert [buf[0], buf[1], buf[2], buf[3]] == buf[..4];
      buf := buf[4..];
      if len == -1 {
        values := values + [None];
        Assoc(before, [None], DecodeColumns(t, buf, fieldCount - i - 1));
      } else if len >= 0 {
        if |buf| < len {
          assert values + [] == values;
          return Some(values);
        }
        var val := t.lossy(buf[..len]);
        buf := buf[len..];
        values := values + [Some(val)];
        Assoc(before, [Some(val)], DecodeColumns(t, buf, fieldCount - i - 1));
      }
    }
    assert values + [] == values;
    return Some(values);
  }

  lemma ReadLength(n: int, rest: seq<byte>)
    requires -TWO_TO_THE_31 <= n < TWO_TO_THE_31
    ensures var b := Be32(Word(n)) + rest;
            Signed(FromBe32(b[..4])) == n && b[4..] == rest
  {
    var b := Be32(Word(n)) + rest;
    assert b[..4] == Be32(Word(n));
    WordRoundTrip(Word(n));
  }

  // One encoded column is read back, and the rest of the block goes on behind it.
  lemma DecodeOne(t: Text, v: Option<string>, rest: seq<byte>, n: nat)
    requires Invertible(t) && n > 0 && (v.Some? ==> |t.encode(v.value)| < TWO_TO_THE_31)
    ensures DecodeColumns(t, EncodeColumn(t, v) + rest, n) == [v] + DecodeColumns(t, rest, n - 1)
  {
    match v
    case None => ReadLength(-1, rest);
    case Some(s) =>
      var x := t.encode(s);
      assert EncodeColumn(t, v) + rest == Be32(Word(|x|)) + (x + rest);
      ReadLength(|x|, x + rest);
      assert (x + rest)[..|x|] == x && (x + rest)[|x|..] == rest;
  }

  // Reading the first n columns of an encoded row gives them.
  lemma {:induction false} FirstColumns(t: Text, vs: seq<Option<string>>, n: nat)
    requires Invertible(t) && Fits(t, vs) && n <= |vs|
    ensures DecodeColumns(t, EncodeColumns(t, vs), n) == vs[..n]
    decreases |vs|
  {
    hide EncodeColumn, DecodeColumns;
    if n == 0 {
      NothingToDecode(t, EncodeColumns(t, vs));
    } else {
      DecodeOne(t, vs[0], EncodeColumns(t, vs[1..]), n);
      FirstColumns(t, vs[1..], n - 1);
      assert vs[..n] == [vs[0]] + vs[1..][..n - 1];
    }
  }

  // Round trip: an encoded row is decoded as it was, with the column count of its own
  // header, exactly if it has fewer than 2^15 columns.
  lemma RowRoundTripIff(t: Text, vs: seq<Option<string>>)
    requires Invertible(t) && Fits(t, vs)
    ensures DecodeRow(t, EncodeColumns(t, vs), HeaderCount(|vs|)) == Some(vs) <==> |vs| < 0x8000
  {
    hide EncodeColumns, DecodeColumns, HeaderCount;
    var n := HeaderCount(|vs|);
    HeaderCountIs(|vs|);
    if n >= 0 {
      FirstColumns(t, vs, n);
      assert |vs[..n]| == n && vs[..|vs|] == vs;
    }
  }

  lemma HeaderCountIs(n: nat)
    ensures HeaderCount(n) <= n && (HeaderCount(n) == n <==> n < 0x8000)
  {
  }

  // A column cut anywhere decodes to nothing.
  lemma DecodeCut(t: Text, v: Option<string>, k: nat, n: nat)
    requires n > 0 && (v.Some? ==> |t.encode(v.value)| < TWO_TO_THE_31) && k < |EncodeColumn(t, v)|
    ensures DecodeColumns(t, EncodeColumn(t, v)[..k], n) == []
  {
    var b := EncodeColumn(t, v);
    if k >= 4 {
      var x := t.encode(v.value);
      ReadLength(|x|, x);
      assert b[..k][..4] == b[..4];
    }
  }

  lemma NothingToDecode(t: Text, b: seq<byte>)
    ensures DecodeColumns(t, b, 0) == []
  {
  }

  // A truncated block decodes to the columns that lie in it whole: a beginning of the row.
  lemma {:induction false} TruncatedRow(t: Text, vs: seq<Option<string>>, k: nat) returns (j: nat)
    requires Invertible(t) && Fits(t, vs) && k <= |EncodeColumns(t, vs)|
    ensures j <= |vs| && DecodeColumns(t, EncodeColumns(t, vs)[..k], |vs|) == vs[..j]
    ensures |EncodeColumns(t, vs[..j])| <= k
    ensures j < |vs| ==> k < |EncodeColumns(t, vs[..j + 1])|
    decreases |vs|
  {
    hide EncodeColumn, DecodeColumns;
    if vs == [] {
      j := 0;
      NothingToDecode(t, EncodeColumns(t, vs)[..k]);
    } else {
      var b := EncodeColumn(t, vs[0]);
      if k < |b| {
        j := 0;
        assert EncodeColumns(t, vs)[..k] == b[..k];
        DecodeCut(t, vs[0], k, |vs|);
        assert vs[..1] == [vs[0]];
        assert EncodeColumns(t, vs[..1]) == b + EncodeColumns(t, vs[..1][1..]);
      } else {
        var i := TruncatedRow(t, vs[1..], k - |b|);
        j := i + 1;
        assert EncodeColumns(t, vs)[..k] == b + EncodeColumns(t, vs[1..])[..k - |b|];
        DecodeOne(t, vs[0], EncodeColumns(t, vs[1..])[..k - |b|], |vs|);
        assert vs[..j] == [vs[0]] + vs[1..][..i] && vs[..j][1..] == vs[1..][..i];
        if j < |vs| {
          assert vs[..j + 1][1..] == vs[1..][..i + 1];
        }
      }
    }
  }

  // A length field below -1 counts as a column, but gives none.
  lemma NegativeLength(t: Text, len: int, rest: seq<byte>, n: nat)
    requires -TWO_TO_THE_31 <= len < -1 && n > 0
    ensures DecodeColumns(t, Be32(Word(len)) + rest, n) == DecodeColumns(t, rest, n - 1)
  {
    hide Be32, Word, Signed, FromBe32;
    ReadLength(len, rest);
  }
}
