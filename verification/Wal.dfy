// The write-ahead log: a byte file and an ordered in-memory index over it.
module Wal {
  import opened Bytes
  import opened RaftTypes
  import opened RecordLog
  import opened WalFormat

  datatype LogIndexEntry = LogIndexEntry(fileOffset: nat, totalLen: nat, logId: LogId)

  type Index = map<nat, LogIndexEntry>

  // Everything the log is: the file's bytes, the index, and the last log id.
  datatype WalView = WalView(file: seq<byte>, index: Index, last: Option<LogId>)

  function MetaOf(r: Located): LogIndexEntry {
    LogIndexEntry(r.offset, r.len, r.entry.logId)
  }

  // The index after inserting records in order; a later record replaces an earlier
  // one with the same log index.
  function Insert(index: Index, rs: seq<Located>): Index {
    if rs == [] then index else
    var r := rs[|rs| - 1];
    Insert(index, rs[..|rs| - 1])[r.entry.logId.index := MetaOf(r)]
  }

  function LastId(rs: seq<Located>, otherwise: Option<LogId>): Option<LogId> {
    if rs == [] then otherwise else Some(rs[|rs| - 1].entry.logId)
  }

  // Opening: the records the scan finds, indexed, and the file cut behind them.
  ghost function OpenView(f: Format, bytes: seq<byte>): Option<WalView>
    requires Progress(f)
  {
    match Scan(f, bytes, 0)
    case None => None
    case Some(rs) => Some(WalView(CutTo(bytes, EndOf(rs, 0)), Insert(map[], rs), LastId(rs, None)))
  }

  // The file size change of the operating system: cut, or extended with zero bytes.
  function CutTo(bytes: seq<byte>, n: nat): seq<byte> {
    if n <= |bytes| then bytes[..n] else bytes + seq(n - |bytes|, _ => 0)
  }

  function AppendView(f: Format, v: WalView, es: seq<Entry>): WalView {
    var rs := Locate(f, es, |v.file|);
    WalView(v.file + EncodeLog(f, es), Insert(v.index, rs), LastId(rs, v.last))
  }

  ghost predicate IsLeastFrom(index: Index, since: nat, k: nat) {
    k in index && since <= k && forall k' :: k' in index && since <= k' ==> k <= k'
  }

  ghost predicate IsGreatest(index: Index, k: nat) {
    k in index && forall k' :: k' in index ==> k' <= k
  }

  // Truncation cuts the file at the first indexed record from `since` on, drops the
  // index from there, and takes the last log id from what the index still holds.
  ghost predicate Truncates(v: WalView, since: nat, v': WalView) {
    if forall k :: k in v.index ==> k < since then v' == v else
    && (exists k :: IsLeastFrom(v.index, since, k) && v'.file == CutTo(v.file, v.index[k].fileOffset))
    && v'.index == (map k | k in v.index && k < since :: v.index[k])
    && (if v'.index == map[] then v'.last == None
        else exists k :: IsGreatest(v'.index, k) && v'.last == Some(v'.index[k].logId))
  }

  // Purging is inclusive, and touches nothing but the index.
  function PurgeView(v: WalView, upto: nat): WalView {
    v.(index := map k | k in v.index && k > upto :: v.index[k])
  }

  datatype ReadResult = Missing | Found(entry: Entry) | Broken

  function ReadView(c: Codec, v: WalView, i: nat): ReadResult {
    if i !in v.index then Missing else
    var m := v.index[i];
    if m.totalLen < HEADER_LEN || |v.file| < m.fileOffset + m.totalLen then Broken else
    match c.decode(v.file[m.fileOffset + HEADER_LEN..m.fileOffset + m.totalLen])
    case None => Broken
    case Some(e) => Found(e)
  }

  // Entries from `start` up to the first missing index or `end`; None if a read fails.
  function ReadRangeView(c: Codec, v: WalView, start: nat, end: nat): Option<seq<Entry>>
    decreases end - start
  {
    if end <= start then Some([]) else
    match ReadView(c, v, start)
    case Broken => None
    case Missing => Some([])
    case Found(e) =>
      match ReadRangeView(c, v, start + 1, end)
      case None => None
      case Some(rest) => Some([e] + rest)
  }

  // The least key at or above `since`, as an ordered map finds it.
  method FirstKeyFrom(index: Index, since: nat) returns (k: Option<nat>)
    ensures k == None <==> forall k' :: k' in index ==> k' < since
    ensures k.Some? ==> IsLeastFrom(index, since, k.value)
  {
    k := None;
    var todo := index.Keys;
    while todo != {}
      invariant todo <= index.Keys
      invariant k == None ==> forall k' :: k' in index && k' !in todo ==> k' < since
      invariant k.Some? ==> k.value in index && since <= k.value
      invariant k.Some? ==> forall k' :: k' in index && k' !in todo && since <= k' ==> k.value <= k'
    {
      var x :| x in todo;
      todo := todo - {x};
      if since <= x && (k == None || x < k.value) {
        k := Some(x);
      }
    }
  }

  // The greatest key, as an ordered map finds it.
  method LastKey(index: Index) returns (k: Option<nat>)
    ensures k == None <==> index == map[]
    ensures k.Some? ==> IsGreatest(index, k.value)
  {
    k := None;
    var todo := index.Keys;
    while todo != {}
      invariant todo <= index.Keys
      invariant k == None ==> todo == index.Keys
      invariant k.Some? ==> k.value in index
      invariant k.Some? ==> forall k' :: k' in index && k' !in todo ==> k' <= k.value
    {
      var x :| x in todo;
      todo := todo - {x};
      if k == None || k.value < x {
        k := Some(x);
      }
    }
    assert k == None ==> index.Keys == {};
  }

  // The format parses records as the codec's frames.
  ghost predicate Parses(c: Codec, f: Format) {
    Progress(f) && forall b :: ParsesAt(c, f, b)
  }

  predicate ParsesAt(c: Codec, f: Format, b: seq<byte>) {
    f.parse(b) == ParseRecord(c, b)
  }

  // One step of the recovery scan: header, magic, length, payload, checksum, payload decoding.
  method ReadRecord(c: Codec, bytes: seq<byte>, at: nat, ghost f: Format) returns (p: Parsed)
    requires at <= |bytes| && Parses(c, f)
    ensures p == f.parse(bytes[at..])
  {
    assert ParsesAt(c, f, bytes[at..]);
    if |bytes| < at + HEADER_LEN {
      return Torn;
    }
    var header := bytes[at..at + HEADER_LEN];
    ghost var b := bytes[at..];
    assert header == b[..HEADER_LEN];
    assert header[..4] == b[..4] && header[4..8] == b[4..8] && header[8..12] == b[8..12];
    if header[..4] != WAL_MAGIC {
      return Torn;
    }
    var payloadLen := FromBe32(header[4..8]);
    var expectedCrc := FromBe32(header[8..12]);
    if |bytes| < at + HEADER_LEN + payloadLen {
      return Torn;
    }
    var payload := bytes[at + HEADER_LEN..at + HEADER_LEN + payloadLen];
    assert payload == b[HEADER_LEN..HEADER_LEN + payloadLen];
    if c.crc(payload) != expectedCrc {
      return Torn;
    }
    match c.decode(payload)
    case None => return Undecodable;
    case Some(e) => return Good(e, HEADER_LEN + payloadLen);
  }

  // Scans the file, indexes what it finds, and cuts the file at the first bad record.
  method Recover(codec: Codec, bytes: seq<byte>, ghost f: Format) returns (found: Option<WalView>)
    requires Parses(codec, f)
    ensures found == OpenView(f, bytes)
  {
    ghost var rs: seq<Located> := [];
    var file, index, last := bytes, map[], None;
    var at := 0;
    PrependConcat([], [], Scan(f, bytes, 0));
    while at < |bytes|
      invariant at <= |bytes| && file == bytes
      invariant at == EndOf(rs, 0) && Scan(f, bytes, 0) == Prepend(rs, Scan(f, bytes, at))
      invariant index == Insert(map[], rs) && last == LastId(rs, None)
    {
      var p := ReadRecord(codec, bytes, at, f);
      match p
      case Torn =>
        ScanEnds(f, bytes, rs, at);
        file := bytes[..at];
        break;
      case Undecodable =>
        ScanFails(f, bytes, rs, at);
        return None;
      case Good(e, n) =>
        rs := ScannedOne(f, bytes, rs, at, e, n);
        index := index[e.logId.index := LogIndexEntry(at, n, e.logId)];
        last := Some(e.logId);
        at := at + n;
    }
    if at == |bytes| {
      ScanEnds(f, bytes, rs, at);
      assert bytes[..|bytes|] == bytes;
    }
    return Some(WalView(file, index, last));
  }

  class Log {
    const codec: Codec
    var file: seq<byte>
    var index: Index
    var lastLogId: Option<LogId>

    ghost function View(): WalView
      reads this
    {
      WalView(file, index, lastLogId)
    }

    ghost function Records(): (f: Format)
      ensures Progress(f)
    {
      WalRecords(codec)
    }

    constructor (codec: Codec, file: seq<byte>, index: Index, lastLogId: Option<LogId>)
      ensures this.codec == codec && View() == WalView(file, index, lastLogId)
    {
      this.codec, this.file, this.index, this.lastLogId := codec, file, index, lastLogId;
    }

    // Opens a log on a file's bytes; the file is left alone if that fails.
    static method Open(codec: Codec, bytes: seq<byte>) returns (log: Option<Log>)
      ensures log.Some? <==> OpenView(WalRecords(codec), bytes).Some?
      ensures log.Some? ==> fresh(log.value) && log.value.codec == codec
                            && log.value.View() == OpenView(WalRecords(codec), bytes).value
    {
      var found := Recover(codec, bytes, WalRecords(codec));
      if found == None {
        return None;
      }
      var wal := new Log(codec, found.value.file, found.value.index, found.value.last);
      log := Some(wal);
    }

    // Writes one record at the end of the file, field by field.
    method WriteRecord(payload: seq<byte>)
      modifies this`file
      ensures file == old(file) + Frame(codec, payload)
    {
      var crc := codec.crc(payload);
      ghost var before := file;
      ghost var len, sum := Be32(|payload| % TWO_TO_THE_32), Be32(crc);
      file := file + WAL_MAGIC;
      file := file + Be32(|payload| % TWO_TO_THE_32);
      file := file + Be32(crc);
      file := file + payload;
      Assoc(before, WAL_MAGIC, len);
      Assoc(before, WAL_MAGIC + len, sum);
      Assoc(before, WAL_MAGIC + len + sum, payload);
    }

    // Writes one entry's record and indexes it.
    method AppendEntry(entry: Entry)
      modifies this
      ensures View() == AppendView(Records(), old(View()), [entry])
    {
      AppendSingle(Records(), View(), entry);
      var payload := codec.encode(entry);
      var at := |file|;
      WriteRecord(payload);
      var totalLen := HEADER_LEN + |payload|;
      index := index[entry.logId.index := LogIndexEntry(at, totalLen, entry.logId)];
      lastLogId := Some(entry.logId);
    }

    // Writes the entries one record after the other.
    method Append(entries: seq<Entry>)
      modifies this
      ensures View() == AppendView(Records(), old(View()), entries)
    {
      AppendNothing(Records(), View());
      for i := 0 to |entries|
        invariant View() == AppendView(Records(), old(View()), entries[..i])
      {
        AppendTwice(Records(), old(View()), entries[..i], [entries[i]]);
        AppendEntry(entries[i]);
        assert entries[..i + 1] == entries[..i] + [entries[i]];
      }
      assert entries[..|entries|] == entries;
    }

    // Reads one entry through the index.
    method ReadEntry(i: nat) returns (r: ReadResult)
      ensures r == ReadView(codec, View(), i)
    {
      if i !in index {
        return Missing;
      }
      var m := index[i];
      if m.totalLen < HEADER_LEN || |file| < m.fileOffset + m.totalLen {
        return Broken;
      }
      var payload := file[m.fileOffset + HEADER_LEN..m.fileOffset + m.totalLen];
      match codec.decode(payload)
      case None => return Broken;
      case Some(e) => return Found(e);
    }

    // Reads [start, end), stopping at the first missing entry.
    method ReadRange(start: nat, end: nat) returns (r: Option<seq<Entry>>)
      ensures r == ReadRangeView(codec, View(), start, end)
    {
      var entries: seq<Entry> := [];
      var i := start;
      ghost var all := ReadRangeView(codec, View(), start, end);
      assert all.Some? ==> [] + all.value == all.value;
      while i < end
        invariant start <= i
        invariant all ==
                  match ReadRangeView(codec, View(), i, end)
                  case None => None
                  case Some(rest) => Some(entries + rest)
        decreases end - i
      {
        var x := ReadEntry(i);
        match x
        case Broken =>
          return None;
        case Missing =>
          assert entries + [] == entries;
          return Some(entries);
        case Found(e) =>
          ghost var rest := ReadRangeView(codec, View(), i + 1, end);
          assert rest.Some? ==> entries + ([e] + rest.value) == (entries + [e]) + rest.value;
          entries := entries + [e];
          i := i + 1;
      }
      assert entries + [] == entries;
      return Some(entries);
    }

    // Drops every entry from `since` on.
    method TruncateSince(since: nat)
      modifies this
      ensures Truncates(old(View()), since, View())
    {
      var first := FirstKeyFrom(index, since);
      if first.Some? {
        ghost var before := index;
        file := CutTo(file, index[first.value].fileOffset);
        index := map k | k in index && k < first.value :: index[k];
        assert index == map k | k in before && k < since :: before[k];
        var last := LastKey(index);
        lastLogId := if last == None then None else Some(index[last.value].logId);
        assert first.value in before && since <= first.value;
      }
    }

    // Drops the index entries up to and including `upto`; the file keeps the records.
    method PurgeUpto(upto: nat)
      modifies this`index
      ensures View() == PurgeView(old(View()), upto)
    {
      ghost var before := index;
      var keys := set k: nat | k in index && k <= upto;
      while keys != {}
        invariant forall k :: k in keys ==> k in index && k <= upto
        invariant forall k :: k in index ==> k in before && index[k] == before[k]
        invariant forall k :: k in before ==> (k in index && index[k] == before[k]) || k <= upto
        invariant forall k :: k in index && k <= upto ==> k in keys
        decreases |keys|
      {
        var k: nat :| k in keys;
        keys := keys - {k};
        index := index - {k};
      }
      assert index == map k | k in before && k > upto :: before[k];
    }
  }

  lemma {:induction false} EndOfSnoc(rs: seq<Located>, r: Located, at: nat)
    ensures EndOf(rs + [r], at) == EndOf(rs, at) + r.len
    decreases |rs|
  {
    if rs == [] {
      assert ([] + [r])[1..] == [];
    } else {
      EndOfSnoc(rs[1..], r, at + rs[0].len);
      assert (rs + [r])[1..] == rs[1..] + [r];
    }
  }

  // The scan stops behind the records it found ...
  lemma ScanEnds(f: Format, bytes: seq<byte>, rs: seq<Located>, at: nat)
    requires Progress(f) && at == EndOf(rs, 0) <= |bytes| && (at == |bytes| || f.parse(bytes[at..]) == Torn)
    requires Scan(f, bytes, 0) == Prepend(rs, Scan(f, bytes, at))
    ensures OpenView(f, bytes) == Some(WalView(bytes[..at], Insert(map[], rs), LastId(rs, None)))
  {
    assert rs + [] == rs;
  }

  // ... or fails there.
  lemma ScanFails(f: Format, bytes: seq<byte>, rs: seq<Located>, at: nat)
    requires Progress(f) && at < |bytes| && f.parse(bytes[at..]) == Undecodable
    requires Scan(f, bytes, 0) == Prepend(rs, Scan(f, bytes, at))
    ensures OpenView(f, bytes) == None
  {
  }

  // The scan takes one more record.
  lemma ScannedOne(f: Format, bytes: seq<byte>, rs: seq<Located>, at: nat, e: Entry, n: nat)
    returns (rs': seq<Located>)
    requires Progress(f) && at == EndOf(rs, 0) < |bytes| && f.parse(bytes[at..]) == Good(e, n)
    requires Scan(f, bytes, 0) == Prepend(rs, Scan(f, bytes, at))
    ensures at + n == EndOf(rs', 0) <= |bytes| && Scan(f, bytes, 0) == Prepend(rs', Scan(f, bytes, at + n))
    ensures rs' == rs + [Located(e, at, n)] && rs'[..|rs|] == rs
  {
    rs' := rs + [Located(e, at, n)];
    PrependConcat(rs, [Located(e, at, n)], Scan(f, bytes, at + n));
    EndOfSnoc(rs, Located(e, at, n), 0);
  }

  lemma AppendNothing(f: Format, v: WalView)
    ensures AppendView(f, v, []) == v
  {
    assert v.file + [] == v.file;
  }

  lemma AppendSingle(f: Format, v: WalView, e: Entry)
    ensures AppendView(f, v, [e]) ==
            WalView(v.file + f.record(e),
                    v.index[e.logId.index := LogIndexEntry(|v.file|, |f.record(e)|, e.logId)],
                    Some(e.logId))
  {
    assert EncodeLog(f, [e]) == f.record(e) + EncodeLog(f, []) == f.record(e);
    var r := Located(e, |v.file|, |f.record(e)|);
    assert Locate(f, [e], |v.file|) == [r] + Locate(f, [], |v.file| + r.len) == [r];
    assert Insert(v.index, [r]) == Insert(v.index, [r][..0])[e.logId.index := MetaOf(r)];
  }

  // Appending two batches is appending them as one.
  lemma AppendTwice(f: Format, v: WalView, a: seq<Entry>, b: seq<Entry>)
    ensures AppendView(f, AppendView(f, v, a), b) == AppendView(f, v, a + b)
  {
    EncodeConcat(f, a, b);
    LocateConcat(f, a, b, |v.file|);
    InsertConcat(v.index, Locate(f, a, |v.file|), Locate(f, b, |v.file| + |EncodeLog(f, a)|));
    Assoc(v.file, EncodeLog(f, a), EncodeLog(f, b));
  }

  lemma {:induction false} InsertConcat(index: Index, a: seq<Located>, b: seq<Located>)
    ensures Insert(index, a + b) == Insert(Insert(index, a), b)
    decreases |b|
  {
    if b == [] {
      assert a + b == a;
    } else {
      InsertConcat(index, a, b[..|b| - 1]);
      assert (a + b)[..|a + b| - 1] == a + b[..|b| - 1];
    }
  }
}
