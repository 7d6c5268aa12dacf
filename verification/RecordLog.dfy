// Files that are a run of self-delimiting records: what a recovery scan finds in
// arbitrary bytes, and what a torn append leaves behind. The theory holds for every
// record format that obeys `Lawful`; WalFormat shows that the log's format does.
module RecordLog {
  import opened Bytes
  import opened RaftTypes

  // What the scan makes of the bytes at one offset. `Torn` is every case in which
  // the file is cut there; `Undecodable` is the case in which opening fails.
  datatype Parsed = Torn | Undecodable | Good(entry: Entry, len: nat)

  datatype Format = Format(record: Entry -> seq<byte>, parse: seq<byte> -> Parsed, fits: Entry -> bool)

  // A written record is read back, whatever follows it.
  predicate ReadsBack(f: Format, e: Entry, rest: seq<byte>) {
    f.fits(e) ==> f.parse(f.record(e) + rest) == Good(e, |f.record(e)|)
  }

  // A record cut short is never taken for a record.
  predicate DetectsCut(f: Format, e: Entry, k: nat) {
    f.fits(e) && k < |f.record(e)| ==> f.parse(f.record(e)[..k]) == Torn
  }

  // What follows a whole record does not change how it parses ...
  predicate SelfDelimiting(f: Format, b: seq<byte>, rest: seq<byte>) {
    f.parse(b).Good? && f.parse(b).len == |b| ==> f.parse(b + rest) == f.parse(b)
  }

  // ... nor does dropping what follows it.
  predicate StopsAtLength(f: Format, b: seq<byte>) {
    f.parse(b).Good? ==> f.parse(b).len <= |b| && f.parse(b[..f.parse(b).len]) == f.parse(b)
  }

  ghost predicate Progress(f: Format) {
    forall b :: f.parse(b).Good? ==> 0 < f.parse(b).len <= |b|
  }

  ghost predicate Lawful(f: Format) {
    && Progress(f)
    && (forall e, rest :: ReadsBack(f, e, rest))
    && (forall e, k :: DetectsCut(f, e, k))
    && (forall b, rest :: SelfDelimiting(f, b, rest))
    && (forall b :: StopsAtLength(f, b))
  }

  ghost predicate Fits(f: Format, es: seq<Entry>) {
    forall i :: 0 <= i < |es| ==> f.fits(es[i])
  }

  function EncodeLog(f: Format, es: seq<Entry>): seq<byte> {
    if es == [] then [] else f.record(es[0]) + EncodeLog(f, es[1..])
  }

  // A record found by the scan.
  datatype Located = Located(entry: Entry, offset: nat, len: nat)

  function Prepend(rs: seq<Located>, found: Option<seq<Located>>): Option<seq<Located>> {
    if found == None then None else Some(rs + found.value)
  }

  // The recovery scan from offset `at` on: the records found, or None if opening fails.
  ghost function Scan(f: Format, file: seq<byte>, at: nat): Option<seq<Located>>
    requires Progress(f) && at <= |file|
    decreases |file| - at
  {
    if at == |file| then Some([]) else
    match f.parse(file[at..])
    case Torn => Some([])
    case Undecodable => None
    case Good(e, n) => Prepend([Located(e, at, n)], Scan(f, file, at + n))
  }

  // The offset just past records that lie end to end from `at` on.
  function EndOf(rs: seq<Located>, at: nat): nat {
    if rs == [] then at else EndOf(rs[1..], at + rs[0].len)
  }

  // Where each entry of a log lies when the log is written at `at`.
  function Locate(f: Format, es: seq<Entry>, at: nat): (rs: seq<Located>)
    ensures |rs| == |es|
  {
    if es == [] then [] else [Located(es[0], at, |f.record(es[0])|)] + Locate(f, es[1..], at + |f.record(es[0])|)
  }

  // The bytes are one whole record of `e`.
  predicate IsRecord(f: Format, b: seq<byte>, e: Entry) {
    f.parse(b) == Good(e, |b|)
  }

  // The records lie end to end from `at` on, inside the file.
  predicate Tiles(f: Format, file: seq<byte>, rs: seq<Located>, at: nat)
    decreases rs
  {
    rs != [] ==>
      && rs[0].offset == at && at + rs[0].len <= |file|
      && IsRecord(f, file[at..at + rs[0].len], rs[0].entry)
      && Tiles(f, file, rs[1..], at + rs[0].len)
  }

  // ---- Written logs.

  lemma {:induction false} EncodeConcat(f: Format, a: seq<Entry>, b: seq<Entry>)
    ensures EncodeLog(f, a + b) == EncodeLog(f, a) + EncodeLog(f, b)
  {
    if a == [] {
      assert a + b == b;
    } else {
      EncodeConcat(f, a[1..], b);
      assert (a + b)[1..] == a[1..] + b;
    }
  }

  lemma {:induction false} LocateConcat(f: Format, a: seq<Entry>, b: seq<Entry>, at: nat)
    ensures Locate(f, a + b, at) == Locate(f, a, at) + Locate(f, b, at + |EncodeLog(f, a)|)
  {
    if a == [] {
      assert a + b == b;
    } else {
      LocateConcat(f, a[1..], b, at + |f.record(a[0])|);
      assert (a + b)[1..] == a[1..] + b;
    }
  }

  lemma {:induction false} LocateEnds(f: Format, es: seq<Entry>, at: nat)
    ensures EndOf(Locate(f, es, at), at) == at + |EncodeLog(f, es)|
  {
    if es != [] {
      var n := |f.record(es[0])|;
      LocateEnds(f, es[1..], at + n);
      assert Locate(f, es, at)[1..] == Locate(f, es[1..], at + n);
    }
  }

  lemma {:induction false} PrependConcat(a: seq<Located>, b: seq<Located>, found: Option<seq<Located>>)
    ensures Prepend(a, Prepend(b, found)) == Prepend(a + b, found)
    ensures Prepend([], found) == found
  {
    if found.Some? {
      assert a + (b + found.value) == (a + b) + found.value;
      assert [] + found.value == found.value;
    }
  }

  // A whole record in the file is parsed as that record.
  lemma ParseAt(f: Format, file: seq<byte>, at: nat, end: nat, e: Entry)
    requires Lawful(f) && at <= end <= |file| && IsRecord(f, file[at..end], e)
    ensures f.parse(file[at..]) == Good(e, end - at) && at < end
  {
    assert SelfDelimiting(f, file[at..end], file[end..]);
    assert file[at..] == file[at..end] + file[end..];
  }

  // The scan passes through every run of whole records and finds each of them.
  lemma {:induction false} ScanThroughTiles(f: Format, file: seq<byte>, rs: seq<Located>, at: nat)
    requires Lawful(f) && at <= |file| && Tiles(f, file, rs, at)
    ensures at <= EndOf(rs, at) <= |file|
    ensures Scan(f, file, at) == Prepend(rs, Scan(f, file, EndOf(rs, at)))
    decreases |rs|
  {
    PrependConcat(rs[..0], rs, Scan(f, file, at));
    if rs != [] {
      var mid := at + rs[0].len;
      ParseAt(f, file, at, mid, rs[0].entry);
      ScanThroughTiles(f, file, rs[1..], mid);
      PrependConcat([rs[0]], rs[1..], Scan(f, file, EndOf(rs, at)));
      assert rs == [rs[0]] + rs[1..];
    }
  }

  lemma TilesCons(f: Format, file: seq<byte>, r: Located, rs: seq<Located>)
    requires r.offset + r.len <= |file| && IsRecord(f, file[r.offset..r.offset + r.len], r.entry)
    requires Tiles(f, file, rs, r.offset + r.len)
    ensures Tiles(f, file, [r] + rs, r.offset)
  {
    assert ([r] + rs)[1..] == rs;
  }

  // Written entries are a run of whole records.
  lemma {:induction false} WrittenTiles(f: Format, file: seq<byte>, pre: seq<byte>, es: seq<Entry>, tail: seq<byte>)
    requires file == pre + EncodeLog(f, es) + tail
    requires forall e :: e in es ==> IsRecord(f, f.record(e), e)
    ensures Tiles(f, file, Locate(f, es, |pre|), |pre|)
    decreases |es|
  {
    if es != [] {
      var r := f.record(es[0]);
      SplitFirst(file, pre, r, EncodeLog(f, es[1..]), tail);
      WrittenTiles(f, file, pre + r, es[1..], tail);
      TilesCons(f, file, Located(es[0], |pre|, |r|), Locate(f, es[1..], |pre + r|));
    }
  }

  lemma SplitFirst(file: seq<byte>, pre: seq<byte>, r: seq<byte>, rest: seq<byte>, tail: seq<byte>)
    requires file == pre + (r + rest) + tail
    ensures file == (pre + r) + rest + tail && file[|pre|..|pre + r|] == r
  {
  }

  lemma RecordIsRecord(f: Format, e: Entry)
    requires Lawful(f) && f.fits(e)
    ensures IsRecord(f, f.record(e), e)
  {
    assert ReadsBack(f, e, []);
    assert f.record(e) + [] == f.record(e);
  }

  // Scanning past written records finds each of them where it was written.
  lemma {:induction false} ScanWritten(f: Format, es: seq<Entry>, tail: seq<byte>)
    requires Lawful(f) && Fits(f, es)
    ensures var file := EncodeLog(f, es) + tail;
            Scan(f, file, 0) == Prepend(Locate(f, es, 0), Scan(f, file, |EncodeLog(f, es)|))
  {
    var file := EncodeLog(f, es) + tail;
    assert file == [] + EncodeLog(f, es) + tail;
    forall e | e in es
      ensures IsRecord(f, f.record(e), e)
    {
      RecordIsRecord(f, e);
    }
    WrittenTiles(f, file, [], es, tail);
    LocateEnds(f, es, 0);
    ScanThroughTiles(f, file, Locate(f, es, 0), 0);
  }

  // An undamaged log scans to its entries.
  lemma {:induction false} ScanWhole(f: Format, es: seq<Entry>)
    requires Lawful(f) && Fits(f, es)
    ensures Scan(f, EncodeLog(f, es), 0) == Some(Locate(f, es, 0))
  {
    ScanWritten(f, es, []);
    assert EncodeLog(f, es) + [] == EncodeLog(f, es);
    assert Locate(f, es, 0) + [] == Locate(f, es, 0);
  }

  // ---- Torn appends.

  // How many entries are written in full once `k` bytes of the batch are on disk.
  function WholeRecords(f: Format, es: seq<Entry>, k: nat): (j: nat)
    ensures j <= |es|
  {
    if es == [] || k < |f.record(es[0])| then 0 else 1 + WholeRecords(f, es[1..], k - |f.record(es[0])|)
  }

  // That count is the largest number of entries whose bytes all lie before the cut.
  lemma {:induction false} WholeRecordsIsLargest(f: Format, es: seq<Entry>, k: nat)
    ensures var j := WholeRecords(f, es, k);
            && |EncodeLog(f, es[..j])| <= k
            && (j < |es| ==> k < |EncodeLog(f, es[..j + 1])|)
  {
    var j := WholeRecords(f, es, k);
    if es == [] {
    } else if k < |f.record(es[0])| {
      assert es[..1][1..] == [];
    } else {
      WholeRecordsIsLargest(f, es[1..], k - |f.record(es[0])|);
      assert es[..j][1..] == es[1..][..j - 1];
      if j < |es| {
        assert es[..j + 1][1..] == es[1..][..j];
      }
    }
  }

  // A file that ends in a cut record scans to the records before the cut.
  lemma ScanCut(f: Format, file: seq<byte>, at: nat, e: Entry)
    requires Lawful(f) && f.fits(e)
    requires at <= |file| && |file| - at < |f.record(e)| && file[at..] <= f.record(e)
    ensures Scan(f, file, at) == Some([])
  {
    assert DetectsCut(f, e, |file| - at);
    assert file[at..] == f.record(e)[..|file| - at];
  }

  // A batch cut after `k` bytes is its whole records and then a proper beginning of the next one.
  lemma {:induction false} CutBatch(f: Format, es: seq<Entry>, k: nat)
    requires k <= |EncodeLog(f, es)|
    ensures var j := WholeRecords(f, es, k);
            var whole := EncodeLog(f, es[..j]);
            && |whole| <= k && EncodeLog(f, es)[..|whole|] == whole
            && (j == |es| ==> |whole| == k)
            && (j < |es| ==> k - |whole| < |f.record(es[j])| && EncodeLog(f, es)[|whole|..k] <= f.record(es[j]))
  {
    var j := WholeRecords(f, es, k);
    WholeRecordsIsLargest(f, es, k);
    assert es == es[..j] + es[j..];
    EncodeConcat(f, es[..j], es[j..]);
    if j < |es| {
      assert es[..j + 1] == es[..j] + [es[j]];
      EncodeConcat(f, es[..j], [es[j]]);
      assert EncodeLog(f, [es[j]]) == f.record(es[j]) + [];
    } else {
      assert es[..j] == es;
    }
  }

  // Torn-write recovery: any old log, any batch and any number of its bytes on disk.
  // Recovery finds the old entries and the fully written new ones where they were
  // written, and cutting the file where they end leaves precisely their bytes.
  lemma {:induction false} TornWriteRecovery(f: Format, before: seq<Entry>, batch: seq<Entry>, k: nat)
    requires Lawful(f) && Fits(f, before) && Fits(f, batch) && k <= |EncodeLog(f, batch)|
    ensures var file := EncodeLog(f, before) + EncodeLog(f, batch)[..k];
            var survivors := before + batch[..WholeRecords(f, batch, k)];
            && Scan(f, file, 0) == Some(Locate(f, survivors, 0))
            && EndOf(Locate(f, survivors, 0), 0) <= |file|
            && file[..EndOf(Locate(f, survivors, 0), 0)] == EncodeLog(f, survivors)
  {
    var j := WholeRecords(f, batch, k);
    var survivors := before + batch[..j];
    var tail := TornTail(f, before, batch, k);
    if j == |batch| {
      assert EncodeLog(f, survivors) + tail == EncodeLog(f, survivors);
      ScanWhole(f, survivors);
    } else {
      ScanCutTail(f, survivors, tail, batch[j]);
    }
    LocateEnds(f, survivors, 0);
  }

  // The file left by a torn append is the survivors' bytes and then less than one more record.
  lemma {:induction false} TornTail(f: Format, before: seq<Entry>, batch: seq<Entry>, k: nat) returns (tail: seq<byte>)
    requires k <= |EncodeLog(f, batch)|
    ensures var j := WholeRecords(f, batch, k);
            && EncodeLog(f, before) + EncodeLog(f, batch)[..k] == EncodeLog(f, before + batch[..j]) + tail
            && (j == |batch| ==> tail == [])
            && (j < |batch| ==> |tail| < |f.record(batch[j])| && tail <= f.record(batch[j]))
  {
    var j := WholeRecords(f, batch, k);
    EncodeConcat(f, before, batch[..j]);
    CutBatch(f, batch, k);
    var whole := EncodeLog(f, batch[..j]);
    tail := EncodeLog(f, batch)[|whole|..k];
    ConcatCut(EncodeLog(f, before), EncodeLog(f, batch), whole, k);
  }

  lemma ConcatCut(a: seq<byte>, b: seq<byte>, whole: seq<byte>, k: nat)
    requires |whole| <= k <= |b| && b[..|whole|] == whole
    ensures a + b[..k] == a + whole + b[|whole|..k]
  {
  }

  // A log with less than one more record behind it scans to the log.
  lemma {:induction false} ScanCutTail(f: Format, es: seq<Entry>, tail: seq<byte>, e: Entry)
    requires Lawful(f) && Fits(f, es) && f.fits(e) && |tail| < |f.record(e)| && tail <= f.record(e)
    ensures Scan(f, EncodeLog(f, es) + tail, 0) == Some(Locate(f, es, 0))
  {
    var file, n := EncodeLog(f, es) + tail, |EncodeLog(f, es)|;
    ScanWritten(f, es, tail);
    assert file[n..] == tail;
    ScanCut(f, file, n, e);
    assert Locate(f, es, 0) + [] == Locate(f, es, 0);
  }

  // ---- Arbitrary bytes.

  lemma {:induction false} ScanTiles(f: Format, file: seq<byte>, at: nat)
    requires Lawful(f) && at <= |file| && Scan(f, file, at).Some?
    ensures var rs := Scan(f, file, at).value;
            Tiles(f, file, rs, at) && at <= EndOf(rs, at) <= |file|
    decreases |file| - at
  {
    if at < |file| && f.parse(file[at..]).Good? {
      var p := f.parse(file[at..]);
      ScanTiles(f, file, at + p.len);
      RecordAt(f, file, at);
      assert Scan(f, file, at).value[1..] == Scan(f, file, at + p.len).value;
    }
  }

  // Bytes that parse as a record are a whole record, up to its length.
  lemma RecordAt(f: Format, file: seq<byte>, at: nat)
    requires Lawful(f) && at <= |file| && f.parse(file[at..]).Good?
    ensures var p := f.parse(file[at..]);
            0 < p.len <= |file| - at && IsRecord(f, file[at..at + p.len], p.entry)
  {
    var p := f.parse(file[at..]);
    assert StopsAtLength(f, file[at..]);
    assert file[at..][..p.len] == file[at..at + p.len];
  }

  // Every way of tiling a beginning of the file is a beginning of what the scan finds.
  lemma {:induction false} ScanIsMaximal(f: Format, file: seq<byte>, at: nat, rs: seq<Located>)
    requires Lawful(f) && at <= |file| && Scan(f, file, at).Some? && Tiles(f, file, rs, at)
    ensures rs <= Scan(f, file, at).value
  {
    ScanThroughTiles(f, file, rs, at);
  }

  // Whole records, and right behind them bytes that stop the scan with an error.
  predicate EndsUndecodable(f: Format, file: seq<byte>, rs: seq<Located>, at: nat) {
    Tiles(f, file, rs, at) && EndOf(rs, at) < |file| && f.parse(file[EndOf(rs, at)..]).Undecodable?
  }

  // Opening fails exactly when the whole records are followed by such bytes.
  lemma {:induction false} ScanFailsIff(f: Format, file: seq<byte>, at: nat)
    requires Lawful(f) && at <= |file|
    ensures Scan(f, file, at) == None <==> exists rs :: EndsUndecodable(f, file, rs, at)
  {
    if Scan(f, file, at) == None {
      var rs := FailureWitness(f, file, at);
      assert EndsUndecodable(f, file, rs, at);
    }
    forall rs | EndsUndecodable(f, file, rs, at)
      ensures Scan(f, file, at) == None
    {
      FailurePropagates(f, file, at, rs);
    }
  }

  lemma {:induction false} FailureWitness(f: Format, file: seq<byte>, at: nat) returns (rs: seq<Located>)
    requires Lawful(f) && at <= |file| && Scan(f, file, at) == None
    ensures EndsUndecodable(f, file, rs, at)
    decreases |file| - at
  {
    var p := f.parse(file[at..]);
    if p.Undecodable? {
      rs := [];
    } else {
      RecordAt(f, file, at);
      var rest := FailureWitness(f, file, at + p.len);
      rs := [Located(p.entry, at, p.len)] + rest;
      assert rs[1..] == rest;
    }
  }

  lemma {:induction false} FailurePropagates(f: Format, file: seq<byte>, at: nat, rs: seq<Located>)
    requires Lawful(f) && at <= |file| && EndsUndecodable(f, file, rs, at)
    ensures Scan(f, file, at) == None
  {
    ScanThroughTiles(f, file, rs, at);
  }

  // Cutting the file where the scan stopped, and scanning the cut file, finds the same
  // records again, and they fill the cut file.
  lemma {:induction false} ReopenChangesNothing(f: Format, file: seq<byte>)
    requires Lawful(f) && Scan(f, file, 0).Some?
    ensures var rs := Scan(f, file, 0).value;
            EndOf(rs, 0) <= |file| && Scan(f, file[..EndOf(rs, 0)], 0) == Some(rs)
  {
    var rs := Scan(f, file, 0).value;
    ScanTiles(f, file, 0);
    var cut := file[..EndOf(rs, 0)];
    TilesCut(f, file, rs, 0, |cut|);
    ScanThroughTiles(f, cut, rs, 0);
    assert rs + [] == rs;
  }

  // Bytes past the end of a tiling do not matter to it.
  lemma {:induction false} TilesCut(f: Format, file: seq<byte>, rs: seq<Located>, at: nat, end: nat)
    requires Tiles(f, file, rs, at) && EndOf(rs, at) <= end <= |file|
    ensures Tiles(f, file[..end], rs, at) && at <= EndOf(rs, at)
    decreases |rs|
  {
    if rs != [] {
      var mid := at + rs[0].len;
      TilesCut(f, file, rs[1..], mid, end);
      assert file[..end][at..mid] == file[at..mid];
    }
  }
}
