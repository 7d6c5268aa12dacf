// What a log file and its index stand for: a sequence of records with increasing log
// indices, of which the index shows all but a hidden beginning. Each operation of the
// log is followed on that sequence.
module WalRefinement {
  import opened Bytes
  import opened RaftTypes
  import opened RecordLog
  import opened WalFormat
  import opened Wal

  function Idx(e: Entry): nat {
    e.logId.index
  }

  // The log indices go up from entry to entry.
  ghost predicate Increasing(es: seq<Entry>) {
    forall i, j :: 0 <= i < j < |es| ==> Idx(es[i]) < Idx(es[j])
  }

  // How many leading entries have an index below `x`.
  function Below(es: seq<Entry>, x: nat): (n: nat)
    ensures n <= |es|
    ensures forall i :: 0 <= i < n ==> Idx(es[i]) < x
    ensures n < |es| ==> x <= Idx(es[n])
  {
    if es == [] || x <= Idx(es[0]) then 0 else 1 + Below(es[1..], x)
  }

  // The index maps exactly the records from `hidden` on to their place in the file.
  ghost predicate Indexes(index: Index, rs: seq<Located>, hidden: nat) {
    && (forall i :: hidden <= i < |rs| ==> Idx(rs[i].entry) in index && index[Idx(rs[i].entry)] == MetaOf(rs[i]))
    && (forall k :: k in index ==> exists i :: hidden <= i < |rs| && Idx(rs[i].entry) == k)
  }

  // The log holds the records, the first `hidden` of them out of the index's sight.
  ghost predicate Holds(f: Format, w: WalView, recs: seq<Entry>, hidden: nat) {
    && hidden <= |recs| && Fits(f, recs) && Increasing(recs)
    && w.file == EncodeLog(f, recs)
    && Indexes(w.index, Locate(f, recs, 0), hidden)
  }

  // The file, perhaps with a torn end, from which opening recovers the records.
  ghost predicate Recoverable(f: Format, file: seq<byte>, recs: seq<Entry>)
    requires Progress(f)
  {
    && Fits(f, recs) && Increasing(recs)
    && Scan(f, file, 0) == Some(Locate(f, recs, 0))
    && EncodeLog(f, recs) <= file
  }

  function LastOf(recs: seq<Entry>): Option<LogId> {
    if recs == [] then None else Some(recs[|recs| - 1].logId)
  }

  // ---- Where records lie.

  lemma {:induction false} LocateAt(f: Format, es: seq<Entry>, at: nat, i: nat)
    requires i < |es|
    ensures Locate(f, es, at)[i] == Located(es[i], at + |EncodeLog(f, es[..i])|, |f.record(es[i])|)
    decreases |es|
  {
    if i > 0 {
      LocateAt(f, es[1..], at + |f.record(es[0])|, i - 1);
      assert es[..i][1..] == es[1..][..i - 1];
    }
  }

  lemma LocateEntries(f: Format, es: seq<Entry>)
    ensures forall i :: 0 <= i < |es| ==> Locate(f, es, 0)[i].entry == es[i]
  {
    forall i | 0 <= i < |es|
      ensures Locate(f, es, 0)[i].entry == es[i]
    {
      LocateAt(f, es, 0, i);
    }
  }

  // A beginning of the log lies where it lay.
  lemma LocatePrefix(f: Format, es: seq<Entry>, n: nat)
    requires n <= |es|
    ensures Locate(f, es[..n], 0) == Locate(f, es, 0)[..n]
    ensures EncodeLog(f, es[..n]) <= EncodeLog(f, es)
  {
    assert es == es[..n] + es[n..];
    LocateConcat(f, es[..n], es[n..], 0);
    EncodeConcat(f, es[..n], es[n..]);
  }

  // ---- Opening and appending.

  ghost predicate IncreasingRecords(rs: seq<Located>) {
    forall i, j :: 0 <= i < j < |rs| ==> Idx(rs[i].entry) < Idx(rs[j].entry)
  }

  // Inserting records with larger indices extends what the index shows.
  lemma {:induction false} InsertIndexes(index: Index, a: seq<Located>, b: seq<Located>, hidden: nat)
    requires hidden <= |a| && Indexes(index, a, hidden) && IncreasingRecords(a + b)
    ensures Indexes(Insert(index, b), a + b, hidden)
    decreases |b|
  {
    if b == [] {
      assert a + b == a;
    } else {
      var init, r := b[..|b| - 1], b[|b| - 1];
      var all := a + b;
      var rs := all[..|all| - 1];
      assert a + init == rs && all[|rs|] == r;
      assert forall i :: 0 <= i < |rs| ==> rs[i] == all[i];
      InsertIndexes(index, a, init, hidden);
      InsertLast(Insert(index, init), rs, r, hidden);
      assert rs + [r] == all;
    }
  }

  lemma InsertLast(index: Index, rs: seq<Located>, r: Located, hidden: nat)
    requires hidden <= |rs| && Indexes(index, rs, hidden)
    requires forall i :: 0 <= i < |rs| ==> Idx(rs[i].entry) < Idx(r.entry)
    ensures Indexes(index[Idx(r.entry) := MetaOf(r)], rs + [r], hidden)
  {
    var index', rs' := index[Idx(r.entry) := MetaOf(r)], rs + [r];
    assert rs'[|rs|] == r;
    forall k | k in index'
      ensures exists i :: hidden <= i < |rs'| && Idx(rs'[i].entry) == k
    {
      if k in index {
        var i :| hidden <= i < |rs| && Idx(rs[i].entry) == k;
        assert rs'[i] == rs[i];
      }
    }
  }

  lemma LocateIncreasing(f: Format, es: seq<Entry>)
    requires Increasing(es)
    ensures IncreasingRecords(Locate(f, es, 0))
  {
    LocateEntries(f, es);
  }

  lemma AppendHolds(f: Format, w: WalView, recs: seq<Entry>, hidden: nat, es: seq<Entry>)
    requires Holds(f, w, recs, hidden) && Fits(f, es) && Increasing(recs + es)
    ensures Holds(f, AppendView(f, w, es), recs + es, hidden)
    ensures AppendView(f, w, es).last == if es == [] then w.last else LastOf(recs + es)
  {
    EncodeConcat(f, recs, es);
    LocateConcat(f, recs, es, 0);
    LocateIncreasing(f, recs + es);
    var rs := Locate(f, es, |w.file|);
    InsertIndexes(w.index, Locate(f, recs, 0), rs, hidden);
    if es != [] {
      LocateAt(f, es, |w.file|, |es| - 1);
    }
  }

  // An index built from scratch shows every record.
  lemma FreshIndex(rs: seq<Located>)
    requires IncreasingRecords(rs)
    ensures Indexes(Insert(map[], rs), rs, 0)
  {
    assert [] + rs == rs;
    InsertIndexes(map[], [], rs, 0);
  }

  // Opening shows every record again, also those that had been purged from the index.
  lemma OpenHolds(f: Format, file: seq<byte>, recs: seq<Entry>)
    requires Progress(f) && Recoverable(f, file, recs)
    ensures OpenView(f, file).Some?
    ensures var w := OpenView(f, file).value;
            Holds(f, w, recs, 0) && w.last == LastOf(recs)
  {
    OpenedHolds(f, file, recs, Locate(f, recs, 0));
  }

  lemma OpenedHolds(f: Format, file: seq<byte>, recs: seq<Entry>, rs: seq<Located>)
    requires Fits(f, recs) && Increasing(recs) && EncodeLog(f, recs) <= file && rs == Locate(f, recs, 0)
    ensures Holds(f, WalView(CutTo(file, EndOf(rs, 0)), Insert(map[], rs), LastId(rs, None)), recs, 0)
    ensures LastId(rs, None) == LastOf(recs)
  {
    hide Increasing, Indexes, IncreasingRecords, Insert, EncodeLog;
    LocateEnds(f, recs, 0);
    LocateIncreasing(f, recs);
    FreshIndex(rs);
    if recs != [] {
      LocateAt(f, recs, 0, |recs| - 1);
    }
  }

  // A log at rest can be reopened.
  lemma HoldsRecoverable(f: Format, w: WalView, recs: seq<Entry>, hidden: nat)
    requires Lawful(f) && Holds(f, w, recs, hidden)
    ensures Recoverable(f, w.file, recs)
  {
    ScanWhole(f, recs);
  }

  // So can a log whose last append was cut anywhere.
  lemma TornRecoverable(f: Format, w: WalView, recs: seq<Entry>, hidden: nat, es: seq<Entry>, k: nat)
    requires Lawful(f) && Holds(f, w, recs, hidden) && Fits(f, es) && Increasing(recs + es)
    requires k <= |EncodeLog(f, es)|
    ensures Recoverable(f, w.file + EncodeLog(f, es)[..k], recs + es[..WholeRecords(f, es, k)])
  {
    var j := WholeRecords(f, es, k);
    TornWriteRecovery(f, recs, es, k);
    LocateEnds(f, recs + es[..j], 0);
    assert recs + es[..j] == (recs + es)[..|recs| + j];
  }

  // ---- Purging and truncating.

  lemma PurgeHolds(f: Format, w: WalView, recs: seq<Entry>, hidden: nat, upto: nat)
    requires Holds(f, w, recs, hidden) && hidden <= Below(recs, upto + 1)
    ensures Holds(f, PurgeView(w, upto), recs, Below(recs, upto + 1))
  {
    var n := Below(recs, upto + 1);
    var rs := Locate(f, recs, 0);
    LocateEntries(f, recs);
    BelowSplits(recs, upto + 1);
    DropIndex(w.index, rs, hidden, n, upto);
  }

  // The index above `upto` shows the records above `upto`.
  lemma DropIndex(index: Index, rs: seq<Located>, hidden: nat, n: nat, upto: nat)
    requires Indexes(index, rs, hidden) && hidden <= n <= |rs|
    requires forall i :: 0 <= i < |rs| ==> (i < n <==> Idx(rs[i].entry) <= upto)
    ensures Indexes(map k | k in index && k > upto :: index[k], rs, n)
  {
    var index' := map k | k in index && k > upto :: index[k];
    forall k | k in index'
      ensures exists i :: n <= i < |rs| && Idx(rs[i].entry) == k
    {
      var i :| hidden <= i < |rs| && Idx(rs[i].entry) == k;
      assert n <= i;
    }
  }

  // Truncation keeps exactly the records below `since`. The last log id is then the
  // last record's, or None when the index has gone empty although hidden records remain.
  lemma TruncateHolds(f: Format, w: WalView, recs: seq<Entry>, hidden: nat, since: nat, w': WalView)
    requires Holds(f, w, recs, hidden) && hidden <= Below(recs, since) && Truncates(w, since, w')
    ensures var n := Below(recs, since);
            && Holds(f, w', recs[..n], hidden)
            && (n == |recs| ==> w' == w)
            && (n < |recs| ==> w'.last == if n == hidden then None else LastOf(recs[..n]))
  {
    var n := Below(recs, since);
    if n == |recs| {
      NothingToCut(f, w, recs, hidden, since);
      assert recs[..n] == recs;
    } else {
      TruncatedFile(f, w, recs, hidden, since, w');
      TruncatedIndex(f, w, recs, hidden, since, w');
    }
  }

  lemma NothingToCut(f: Format, w: WalView, recs: seq<Entry>, hidden: nat, since: nat)
    requires Holds(f, w, recs, hidden) && Below(recs, since) == |recs|
    ensures forall k :: k in w.index ==> k < since
  {
    LocateEntries(f, recs);
  }

  // The first record to go is the first one the index shows from `since` on.
  lemma FirstToGo(index: Index, rs: seq<Located>, hidden: nat, n: nat, since: nat)
    requires Indexes(index, rs, hidden) && IncreasingRecords(rs) && hidden <= n < |rs|
    requires forall i :: 0 <= i < |rs| ==> (i < n <==> Idx(rs[i].entry) < since)
    ensures forall k :: IsLeastFrom(index, since, k) <==> k == Idx(rs[n].entry)
  {
    var key := Idx(rs[n].entry);
    assert key in index && since <= key;
    forall k | k in index && since <= k
      ensures key <= k
    {
      var i :| hidden <= i < |rs| && Idx(rs[i].entry) == k;
      assert n <= i;
    }
  }

  // The index below `since` shows the records below `since`.
  lemma CutIndex(index: Index, rs: seq<Located>, hidden: nat, n: nat, since: nat)
    requires Indexes(index, rs, hidden) && hidden <= n <= |rs|
    requires forall i :: 0 <= i < |rs| ==> (i < n <==> Idx(rs[i].entry) < since)
    ensures Indexes(map k | k in index && k < since :: index[k], rs[..n], hidden)
  {
    var index' := map k | k in index && k < since :: index[k];
    forall k | k in index'
      ensures exists i :: hidden <= i < n && Idx(rs[..n][i].entry) == k
    {
      var i :| hidden <= i < |rs| && Idx(rs[i].entry) == k;
      assert rs[..n][i] == rs[i];
    }
  }

  // The greatest shown key is the last record's.
  lemma LastShown(index: Index, rs: seq<Located>, hidden: nat)
    requires Indexes(index, rs, hidden) && IncreasingRecords(rs) && hidden <= |rs|
    ensures index == map[] <==> hidden == |rs|
    ensures forall k :: IsGreatest(index, k) ==>
              hidden < |rs| && k == Idx(rs[|rs| - 1].entry) && index[k] == MetaOf(rs[|rs| - 1])
  {
    if hidden < |rs| {
      assert Idx(rs[|rs| - 1].entry) in index;
    } else {
      assert forall k :: k !in index;
    }
  }

  lemma BelowSplits(es: seq<Entry>, x: nat)
    requires Increasing(es)
    ensures forall i :: 0 <= i < |es| ==> (i < Below(es, x) <==> Idx(es[i]) < x)
  {
    var n := Below(es, x);
    forall i | n <= i < |es|
      ensures x <= Idx(es[i])
    {
      assert i == n || Idx(es[n]) < Idx(es[i]);
    }
  }

  lemma TruncatedFile(f: Format, w: WalView, recs: seq<Entry>, hidden: nat, since: nat, w': WalView)
    requires Holds(f, w, recs, hidden) && hidden <= Below(recs, since) < |recs| && Truncates(w, since, w')
    ensures w'.file == EncodeLog(f, recs[..Below(recs, since)])
    ensures w'.index == map k | k in w.index && k < since :: w.index[k]
    ensures if w'.index == map[] then w'.last == None
            else exists k :: IsGreatest(w'.index, k) && w'.last == Some(w'.index[k].logId)
  {
    var n := Below(recs, since);
    var rs := Locate(f, recs, 0);
    LocateEntries(f, recs);
    LocateIncreasing(f, recs);
    BelowSplits(recs, since);
    FirstToGo(w.index, rs, hidden, n, since);
    assert IsLeastFrom(w.index, since, Idx(rs[n].entry));
    assert w'.file == CutTo(w.file, rs[n].offset);
    LocateAt(f, recs, 0, n);
    LocatePrefix(f, recs, n);
  }

  lemma TruncatedIndex(f: Format, w: WalView, recs: seq<Entry>, hidden: nat, since: nat, w': WalView)
    requires Holds(f, w, recs, hidden) && hidden <= Below(recs, since) < |recs|
    requires w'.index == map k | k in w.index && k < since :: w.index[k]
    requires if w'.index == map[] then w'.last == None
             else exists k :: IsGreatest(w'.index, k) && w'.last == Some(w'.index[k].logId)
    ensures var n := Below(recs, since);
            && Indexes(w'.index, Locate(f, recs[..n], 0), hidden)
            && w'.last == if n == hidden then None else LastOf(recs[..n])
  {
    var n := Below(recs, since);
    assert Indexes(w'.index, Locate(f, recs[..n], 0), hidden) by {
      LocateEntries(f, recs);
      LocatePrefix(f, recs, n);
      BelowSplits(recs, since);
      CutIndex(w.index, Locate(f, recs, 0), hidden, n, since);
    }
    LastIdShown(f, w', recs[..n], hidden);
  }

  lemma LastIdShown(f: Format, w: WalView, recs: seq<Entry>, hidden: nat)
    requires hidden <= |recs| && Increasing(recs) && Indexes(w.index, Locate(f, recs, 0), hidden)
    requires if w.index == map[] then w.last == None
             else exists k :: IsGreatest(w.index, k) && w.last == Some(w.index[k].logId)
    ensures w.last == if |recs| == hidden then None else LastOf(recs)
  {
    hide Increasing, Indexes, IncreasingRecords, IsGreatest;
    LocateIncreasing(f, recs);
    LastShown(w.index, Locate(f, recs, 0), hidden);
    if recs != [] {
      LocateAt(f, recs, 0, |recs| - 1);
    }
  }

  // ---- Reading.

  // A shown record is where the index says.
  lemma ShownInPlace(f: Format, w: WalView, recs: seq<Entry>, hidden: nat, i: nat)
    requires Holds(f, w, recs, hidden) && hidden <= i < |recs|
    ensures Idx(recs[i]) in w.index
    ensures var m := w.index[Idx(recs[i])];
            && m.totalLen == |f.record(recs[i])| && m.fileOffset + m.totalLen <= |w.file|
            && w.file[m.fileOffset..m.fileOffset + m.totalLen] == f.record(recs[i])
  {
    LocateAt(f, recs, 0, i);
    assert w.index[Idx(recs[i])] == MetaOf(Locate(f, recs, 0)[i]);
    RecordInPlace(f, recs, i);
  }

  // The format writes records as the codec's frames.
  ghost predicate Writes(c: Codec, f: Format) {
    forall e :: WritesAt(c, f, e)
  }

  predicate WritesAt(c: Codec, f: Format, e: Entry) {
    f.record(e) == Frame(c, c.encode(e))
  }

  // A shown record is read back.
  lemma ReadHolds(c: Codec, f: Format, w: WalView, recs: seq<Entry>, hidden: nat, i: nat)
    requires Invertible(c) && Writes(c, f) && Holds(f, w, recs, hidden) && hidden <= i < |recs|
    ensures ReadView(c, w, Idx(recs[i])) == Found(recs[i])
  {
    ShownInPlace(f, w, recs, hidden, i);
    assert WritesAt(c, f, recs[i]);
    ReadFrame(c, w, Idx(recs[i]), recs[i]);
  }

  lemma ReadFrame(c: Codec, w: WalView, k: nat, e: Entry)
    requires Invertible(c) && k in w.index
    requires var m := w.index[k];
             && m.totalLen == |Frame(c, c.encode(e))| && m.fileOffset + m.totalLen <= |w.file|
             && w.file[m.fileOffset..m.fileOffset + m.totalLen] == Frame(c, c.encode(e))
    ensures ReadView(c, w, k) == Found(e)
  {
    var m := w.index[k];
    var at, end := m.fileOffset, m.fileOffset + m.totalLen;
    assert w.file[at + HEADER_LEN..end] == w.file[at..end][HEADER_LEN..];
    FramePayload(c, c.encode(e));
  }

  lemma FramePayload(c: Codec, payload: seq<byte>)
    ensures Frame(c, payload)[HEADER_LEN..] == payload
  {
  }

  lemma RecordInPlace(f: Format, es: seq<Entry>, i: nat)
    requires i < |es|
    ensures var at := |EncodeLog(f, es[..i])|;
            var end := at + |f.record(es[i])|;
            end <= |EncodeLog(f, es)| && EncodeLog(f, es)[at..end] == f.record(es[i])
  {
    assert es == es[..i] + es[i..];
    EncodeConcat(f, es[..i], es[i..]);
    assert EncodeLog(f, es[i..]) == f.record(es[i]) + EncodeLog(f, es[i..][1..]);
  }

  lemma ReadMissing(c: Codec, f: Format, w: WalView, recs: seq<Entry>, hidden: nat, k: nat)
    requires Holds(f, w, recs, hidden)
    requires forall i :: hidden <= i < |recs| ==> Idx(recs[i]) != k
    ensures ReadView(c, w, k) == Missing
  {
    LocateEntries(f, recs);
  }
}
