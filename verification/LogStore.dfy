// The Raft log store: the write-ahead log beside a metadata file that holds the vote
// and the purge point. Every run of operations and crashes refines a plain log.
module LogStore {
  import opened Bytes
  import opened RaftTypes
  import opened RecordLog
  import opened WalFormat
  import opened Wal
  import opened WalRefinement

  datatype LogMetadata = LogMetadata(vote: Option<Vote>, purged: Option<LogId>)

  const NO_METADATA := LogMetadata(None, None)

  // The metadata file as opening finds it.
  datatype MetaFile = NoFile | NotText | Corrupt | Readable(meta: LogMetadata)

  // A missing file and a text that does not parse read as empty metadata.
  function ReadMeta(file: MetaFile): LogMetadata {
    if file.Readable? then file.meta else NO_METADATA
  }

  // The store: whether its process runs, the log, the metadata in memory, and the
  // metadata file. While the process is down only the two files mean anything.
  datatype Store = Store(up: bool, wal: WalView, meta: LogMetadata, saved: LogMetadata)

  // A range bound as the reader is given it.
  datatype Bound = Included(n: nat) | Excluded(n: nat) | Unbounded

  function StartOf(b: Bound, meta: LogMetadata): nat {
    match b
    case Included(n) => n
    case Excluded(n) => n + 1
    case Unbounded => if meta.purged == None then 0 else meta.purged.value.index + 1
  }

  function StopOf(b: Bound, start: nat, last: Option<LogId>): nat {
    match b
    case Included(n) => n + 1
    case Excluded(n) => n
    case Unbounded => if last == None then start else last.value.index + 1
  }

  // The read of a range that is given by its bounds.
  function ReadBy(c: Codec, s: Store, from: Bound, to: Bound): Option<seq<Entry>> {
    var start := StartOf(from, s.meta);
    ReadRangeView(c, s.wal, start, StopOf(to, start, s.wal.last))
  }

  function ReadAll(c: Codec, s: Store): Option<seq<Entry>> {
    ReadBy(c, s, Unbounded, Unbounded)
  }

  // What happens to a store. A crash inside any other operation is the run with or
  // without that operation followed by `Crash`: its one change to the disk is atomic.
  datatype Op =
    | Append(entries: seq<Entry>)
    | Truncate(since: nat)
    | Purge(id: LogId)
    | SaveVote(vote: Vote)
    | Crash
    | TornAppend(entries: seq<Entry>, written: nat)  // crash with `written` bytes of the batch on disk
    | Reopen

  ghost predicate Next(f: Format, s: Store, op: Op, s': Store)
    requires Progress(f)
  {
    match op
    case Append(es) => s.up && s' == s.(wal := AppendView(f, s.wal, es))
    case Truncate(since) => s.up && Truncates(s.wal, since, s'.wal) && s' == s.(wal := s'.wal)
    case Purge(id) =>
      var meta := s.meta.(purged := Some(id));
      s.up && s' == s.(wal := PurgeView(s.wal, id.index), meta := meta, saved := meta)
    case SaveVote(v) =>
      var meta := s.meta.(vote := Some(v));
      s.up && s' == s.(meta := meta, saved := meta)
    case Crash => s' == s.(up := false)
    case TornAppend(es, k) =>
      && s.up && k <= |EncodeLog(f, es)|
      && s' == s.(up := false, wal := s.wal.(file := s.wal.file + EncodeLog(f, es)[..k]))
    case Reopen =>
      && !s.up && OpenView(f, s.wal.file).Some?
      && s' == Store(true, OpenView(f, s.wal.file).value, s.saved, s.saved)
  }

  class LogStorage {
    const wal: Log
    var meta: LogMetadata
    var metaFile: LogMetadata

    ghost function View(): Store
      reads this, wal
    {
      Store(true, wal.View(), meta, metaFile)
    }

    constructor (wal: Log, metaFile: LogMetadata)
      ensures this.wal == wal && meta == metaFile && this.metaFile == metaFile
    {
      this.wal, this.meta, this.metaFile := wal, metaFile, metaFile;
    }

    // Opens the store on its two files; a metadata file that is not text makes it fail.
    static method Open(codec: Codec, bytes: seq<byte>, metaFile: MetaFile)
      returns (store: Option<LogStorage>)
      ensures store.Some? <==> OpenView(WalRecords(codec), bytes).Some? && metaFile != NotText
      ensures var saved := ReadMeta(metaFile);
              store.Some? ==> fresh(store.value) && fresh(store.value.wal) && store.value.wal.codec == codec
                              && store.value.View() ==
                                 Store(true, OpenView(WalRecords(codec), bytes).value, saved, saved)
    {
      var log := Log.Open(codec, bytes);
      if log == None || metaFile == NotText {
        return None;
      }
      var storage := new LogStorage(log.value, ReadMeta(metaFile));
      store := Some(storage);
    }

    // Writes the metadata to a temporary file and renames it into place.
    method PersistMeta()
      modifies this`metaFile
      ensures metaFile == meta
    {
      var tmp := meta;
      metaFile := tmp;
    }

    method SaveVote(vote: Vote)
      modifies this
      ensures Next(wal.Records(), old(View()), Op.SaveVote(vote), View())
    {
      meta := meta.(vote := Some(vote));
      PersistMeta();
    }

    method ReadVote() returns (vote: Option<Vote>)
      ensures vote == View().meta.vote
    {
      vote := meta.vote;
    }

    method Append(entries: seq<Entry>)
      modifies wal
      ensures Next(wal.Records(), old(View()), Op.Append(entries), View())
    {
      wal.Append(entries);
    }

    method Truncate(id: LogId)
      modifies wal
      ensures Next(wal.Records(), old(View()), Op.Truncate(id.index), View())
    {
      wal.TruncateSince(id.index);
    }

    method Purge(id: LogId)
      modifies this, wal
      ensures Next(wal.Records(), old(View()), Op.Purge(id), View())
    {
      meta := meta.(purged := Some(id));
      wal.PurgeUpto(id.index);
      PersistMeta();
    }

    method TryGetLogEntries(from: Bound, to: Bound) returns (r: Option<seq<Entry>>)
      ensures r == ReadBy(wal.codec, View(), from, to)
    {
      var start := StartOf(from, meta);
      var end := StopOf(to, start, wal.lastLogId);
      r := wal.ReadRange(start, end);
    }

    method GetLogState() returns (purged: Option<LogId>, last: Option<LogId>)
      ensures purged == View().meta.purged && last == View().wal.last
    {
      purged, last := meta.purged, wal.lastLogId;
    }
  }

  // ---- The plain log that the store implements.

  datatype RaftLog = RaftLog(entries: seq<Entry>, vote: Option<Vote>, purged: Option<LogId>)

  ghost predicate Consecutive(es: seq<Entry>) {
    forall i :: 0 <= i < |es| ==> Idx(es[i]) == Idx(es[0]) + i
  }

  predicate Above(purged: Option<LogId>, i: nat) {
    purged.Some? ==> purged.value.index < i
  }

  // What the consensus layer promises: entries are appended behind the log without a
  // gap and above the purge point, truncation is above the purge point, and the purge
  // point does not move back.
  ghost predicate Legal(f: Format, a: RaftLog, op: Op) {
    match op
    case Append(es) => Appendable(f, a, es)
    case TornAppend(es, _) => Appendable(f, a, es)
    case Truncate(since) => Above(a.purged, since)
    case Purge(id) => a.purged.Some? ==> a.purged.value.index <= id.index
    case _ => true
  }

  ghost predicate Appendable(f: Format, a: RaftLog, es: seq<Entry>) {
    Fits(f, es) && Consecutive(a.entries + es) && (es != [] ==> Above(a.purged, Idx(es[0])))
  }

  // The plain log's own step. A torn append leaves the entries written in full.
  function Step(f: Format, a: RaftLog, op: Op): RaftLog {
    match op
    case Append(es) => a.(entries := a.entries + es)
    case TornAppend(es, k) => a.(entries := a.entries + es[..WholeRecords(f, es, k)])
    case Truncate(since) => a.(entries := a.entries[..Below(a.entries, since)])
    case Purge(id) => a.(entries := a.entries[Below(a.entries, id.index + 1)..], purged := Some(id))
    case SaveVote(v) => a.(vote := Some(v))
    case Crash => a
    case Reopen => a
  }

  // ---- The refinement relation.

  // The file holds the records of `dead`, all purged, and then the log's entries; the
  // index has lost sight of the first `hidden` records.
  datatype Witness = Witness(dead: seq<Entry>, hidden: nat)

  ghost predicate UpToPurge(dead: seq<Entry>, purged: Option<LogId>) {
    forall i :: 0 <= i < |dead| ==> purged.Some? && Idx(dead[i]) <= purged.value.index
  }

  ghost predicate BeyondPurge(es: seq<Entry>, purged: Option<LogId>) {
    forall i :: 0 <= i < |es| ==> Above(purged, Idx(es[i]))
  }

  // The last log id is the last entry's; on an empty log it is None or the last dead record's.
  predicate LastFits(last: Option<LogId>, dead: seq<Entry>, entries: seq<Entry>) {
    if entries != [] then last == LastOf(entries) else last == None || last == LastOf(dead)
  }

  ghost predicate WellFormed(a: RaftLog, dead: seq<Entry>) {
    UpToPurge(dead, a.purged) && BeyondPurge(a.entries, a.purged) && Consecutive(a.entries)
  }

  // The running log stands for the plain log's entries.
  ghost predicate Runs(f: Format, wal: WalView, entries: seq<Entry>, w: Witness) {
    && w.hidden <= |w.dead|
    && Holds(f, wal, w.dead + entries, w.hidden) && LastFits(wal.last, w.dead, entries)
  }

  ghost predicate RefinesBy(f: Format, s: Store, a: RaftLog, w: Witness)
    requires Progress(f)
  {
    && WellFormed(a, w.dead)
    && s.saved == LogMetadata(a.vote, a.purged)
    && (if s.up then s.meta == s.saved && Runs(f, s.wal, a.entries, w)
        else Recoverable(f, s.wal.file, w.dead + a.entries))
  }

  // ---- The plain log stays well formed.

  lemma ConsecutiveSlice(es: seq<Entry>, i: nat, j: nat)
    requires Consecutive(es) && i <= j <= |es|
    ensures Consecutive(es[i..j])
  {
    forall k | 0 <= k < |es[i..j]|
      ensures Idx(es[i..j][k]) == Idx(es[i..j][0]) + k
    {
      assert Idx(es[i + k]) == Idx(es[0]) + i + k && Idx(es[i]) == Idx(es[0]) + i;
    }
  }

  // Entries appended within the contract lie above everything before them.
  lemma AppendedAbove(f: Format, a: RaftLog, dead: seq<Entry>, es: seq<Entry>)
    requires WellFormed(a, dead) && Appendable(f, a, es)
    ensures forall i :: 0 <= i < |es| ==> Idx(es[i]) == Idx(es[0]) + i
    ensures forall i, j :: 0 <= i < |a.entries| && 0 <= j < |es| ==> Idx(a.entries[i]) < Idx(es[j])
    ensures BeyondPurge(es, a.purged)
  {
    var all, n := a.entries + es, |a.entries|;
    assert forall i :: 0 <= i < n ==> all[i] == a.entries[i];
    forall i | 0 <= i < |es|
      ensures Idx(es[i]) == Idx(all[0]) + n + i
    {
      assert all[n + i] == es[i];
    }
  }

  lemma AppendIncreasing(f: Format, a: RaftLog, dead: seq<Entry>, es: seq<Entry>)
    requires WellFormed(a, dead) && Appendable(f, a, es) && Increasing(dead + a.entries)
    ensures Increasing((dead + a.entries) + es)
  {
    AppendedAbove(f, a, dead, es);
    var recs := dead + a.entries;
    var all := recs + es;
    forall i, j | 0 <= i < j < |all|
      ensures Idx(all[i]) < Idx(all[j])
    {
      if j < |recs| {
        assert Idx(recs[i]) < Idx(recs[j]);
      } else if |recs| <= i {
        assert all[i] == es[i - |recs|] && all[j] == es[j - |recs|];
      } else if |dead| <= i {
        assert all[i] == a.entries[i - |dead|] && all[j] == es[j - |recs|];
      } else {
        assert all[i] == dead[i] && all[j] == es[j - |recs|];
      }
    }
  }

  lemma AppendWellFormed(f: Format, a: RaftLog, dead: seq<Entry>, es: seq<Entry>, n: nat)
    requires WellFormed(a, dead) && Appendable(f, a, es) && n <= |es|
    ensures WellFormed(a.(entries := a.entries + es[..n]), dead)
  {
    AppendedAbove(f, a, dead, es);
    assert a.entries + es[..n] == (a.entries + es)[0..|a.entries| + n];
    ConsecutiveSlice(a.entries + es, 0, |a.entries| + n);
  }

  lemma TruncateWellFormed(a: RaftLog, dead: seq<Entry>, n: nat)
    requires WellFormed(a, dead) && n <= |a.entries|
    ensures WellFormed(a.(entries := a.entries[..n]), dead)
  {
    ConsecutiveSlice(a.entries, 0, n);
    assert a.entries[..n] == a.entries[0..n];
  }

  lemma PurgeWellFormed(a: RaftLog, dead: seq<Entry>, id: LogId)
    requires WellFormed(a, dead) && (a.purged.Some? ==> a.purged.value.index <= id.index)
    ensures var n := Below(a.entries, id.index + 1);
            WellFormed(a.(entries := a.entries[n..], purged := Some(id)), dead + a.entries[..n])
  {
    var n := Below(a.entries, id.index + 1);
    ConsecutiveSlice(a.entries, n, |a.entries|);
    assert a.entries[n..] == a.entries[n..|a.entries|];
    forall i | 0 <= i < |a.entries[n..]|
      ensures id.index < Idx(a.entries[n..][i])
    {
      assert Idx(a.entries[n + i]) == Idx(a.entries[0]) + n + i && Idx(a.entries[n]) == Idx(a.entries[0]) + n;
    }
  }

  // ---- The running log follows.

  lemma LastOfConcat(a: seq<Entry>, b: seq<Entry>)
    ensures LastOf(a + b) == if b == [] then LastOf(a) else LastOf(b)
  {
    if b == [] {
      assert a + b == a;
    }
  }

  lemma AppendRuns(f: Format, wal: WalView, entries: seq<Entry>, w: Witness, es: seq<Entry>)
    requires Runs(f, wal, entries, w) && Fits(f, es) && Increasing((w.dead + entries) + es)
    ensures Runs(f, AppendView(f, wal, es), entries + es, w)
  {
    hide Holds, EncodeLog, AppendView;
    AppendHolds(f, wal, w.dead + entries, w.hidden, es);
    assert (w.dead + entries) + es == w.dead + (entries + es);
    LastOfConcat(w.dead + entries, es);
    LastOfConcat(entries, es);
    if es == [] {
      assert entries + es == entries;
    }
  }

  // Counting below a point, behind a beginning that is all below it.
  lemma {:induction false} BelowBehind(dead: seq<Entry>, es: seq<Entry>, x: nat)
    requires forall i :: 0 <= i < |dead| ==> Idx(dead[i]) < x
    ensures Below(dead + es, x) == |dead| + Below(es, x)
  {
    if dead == [] {
      assert dead + es == es;
    } else {
      BelowBehind(dead[1..], es, x);
      assert (dead + es)[1..] == dead[1..] + es;
    }
  }

  lemma TruncateRuns(f: Format, wal: WalView, entries: seq<Entry>, w: Witness, since: nat, wal': WalView)
    requires Runs(f, wal, entries, w) && Truncates(wal, since, wal')
    requires forall i :: 0 <= i < |w.dead| ==> Idx(w.dead[i]) < since
    ensures Runs(f, wal', entries[..Below(entries, since)], w)
  {
    hide Holds, Truncates, Below;
    var n := Below(entries, since);
    assert Below(w.dead + entries, since) == |w.dead| + n by {
      BelowBehind(w.dead, entries, since);
    }
    TruncateHolds(f, wal, w.dead + entries, w.hidden, since, wal');
    assert (w.dead + entries)[..|w.dead| + n] == w.dead + entries[..n];
    TruncateLast(wal.last, wal'.last, w.dead, entries, w.hidden, n);
  }

  lemma TruncateLast(last: Option<LogId>, last': Option<LogId>, dead: seq<Entry>, es: seq<Entry>, hidden: nat, n: nat)
    requires LastFits(last, dead, es) && hidden <= |dead| && n <= |es|
    requires if n == |es| then last' == last
             else last' == if |dead| + n == hidden then None else LastOf(dead + es[..n])
    ensures LastFits(last', dead, es[..n])
  {
    LastOfConcat(dead, es[..n]);
    if n == |es| {
      assert es[..n] == es;
    }
  }

  // Purged entries count as dead records from then on.
  lemma PurgeRuns(f: Format, wal: WalView, wal': WalView, entries: seq<Entry>, w: Witness, n: nat)
    requires Runs(f, wal, entries, w) && n <= |entries| && wal'.last == wal.last
    requires Holds(f, wal', w.dead + entries, |w.dead| + n)
    ensures Runs(f, wal', entries[n..], Witness(w.dead + entries[..n], |w.dead| + n))
  {
    hide Holds;
    Regroup(w.dead, entries, n);
    PurgeLast(wal.last, w.dead, entries, n);
  }

  lemma PurgedHolds(f: Format, wal: WalView, entries: seq<Entry>, w: Witness, id: LogId)
    requires Runs(f, wal, entries, w) && UpToPurge(w.dead, Some(id))
    ensures Holds(f, PurgeView(wal, id.index), w.dead + entries, |w.dead| + Below(entries, id.index + 1))
  {
    BelowBehind(w.dead, entries, id.index + 1);
    PurgeHolds(f, wal, w.dead + entries, w.hidden, id.index);
  }

  lemma PurgePointMoves(dead: seq<Entry>, purged: Option<LogId>, id: LogId)
    requires UpToPurge(dead, purged) && (purged.Some? ==> purged.value.index <= id.index)
    ensures UpToPurge(dead, Some(id))
  {
  }

  lemma Regroup(a: seq<Entry>, b: seq<Entry>, n: nat)
    requires n <= |b|
    ensures (a + b[..n]) + b[n..] == a + b
  {
  }

  lemma PurgeLast(last: Option<LogId>, dead: seq<Entry>, es: seq<Entry>, n: nat)
    requires LastFits(last, dead, es) && n <= |es|
    ensures LastFits(last, dead + es[..n], es[n..])
  {
    LastOfConcat(es[..n], es[n..]);
    LastOfConcat(dead, es[..n]);
    assert es == es[..n] + es[n..];
  }

  // ---- Each operation keeps the refinement.

  lemma StepAppend(f: Format, s: Store, a: RaftLog, w: Witness, op: Op, s': Store)
    requires Progress(f) && RefinesBy(f, s, a, w) && op.Append? && Legal(f, a, op) && Next(f, s, op, s')
    ensures RefinesBy(f, s', Step(f, a, op), w)
  {
    hide WellFormed, AppendView, EncodeLog;
    var es := op.entries;
    AppendIncreasing(f, a, w.dead, es);
    AppendRuns(f, s.wal, a.entries, w, es);
    AppendWellFormed(f, a, w.dead, es, |es|);
    assert es[..|es|] == es;
  }

  lemma StepTornAppend(f: Format, s: Store, a: RaftLog, w: Witness, op: Op, s': Store)
    requires Lawful(f) && RefinesBy(f, s, a, w) && op.TornAppend? && Legal(f, a, op) && Next(f, s, op, s')
    ensures RefinesBy(f, s', Step(f, a, op), w)
  {
    hide WellFormed, EncodeLog, WholeRecords, Recoverable;
    var es := op.entries;
    var j := WholeRecords(f, es, op.written);
    AppendIncreasing(f, a, w.dead, es);
    TornRecoverable(f, s.wal, w.dead + a.entries, w.hidden, es, op.written);
    assert (w.dead + a.entries) + es[..j] == w.dead + (a.entries + es[..j]);
    AppendWellFormed(f, a, w.dead, es, j);
  }

  lemma StepTruncate(f: Format, s: Store, a: RaftLog, w: Witness, op: Op, s': Store)
    requires Progress(f) && RefinesBy(f, s, a, w) && op.Truncate? && Legal(f, a, op) && Next(f, s, op, s')
    ensures RefinesBy(f, s', Step(f, a, op), w)
  {
    hide Truncates, Runs;
    TruncateRuns(f, s.wal, a.entries, w, op.since, s'.wal);
    TruncateWellFormed(a, w.dead, Below(a.entries, op.since));
  }

  lemma PurgedRuns(f: Format, wal: WalView, a: RaftLog, w: Witness, id: LogId)
    requires Runs(f, wal, a.entries, w) && WellFormed(a, w.dead)
    requires a.purged.Some? ==> a.purged.value.index <= id.index
    ensures var n := Below(a.entries, id.index + 1);
            Runs(f, PurgeView(wal, id.index), a.entries[n..], Witness(w.dead + a.entries[..n], |w.dead| + n))
  {
    hide Holds, Below, Runs;
    PurgePointMoves(w.dead, a.purged, id);
    PurgedHolds(f, wal, a.entries, w, id);
    PurgeRuns(f, wal, PurgeView(wal, id.index), a.entries, w, Below(a.entries, id.index + 1));
  }

  lemma StepPurge(f: Format, s: Store, a: RaftLog, w: Witness, op: Op, s': Store) returns (w': Witness)
    requires Progress(f) && RefinesBy(f, s, a, w) && op.Purge? && Legal(f, a, op) && Next(f, s, op, s')
    ensures RefinesBy(f, s', Step(f, a, op), w') && w' == NextWitness(a, w, op)
  {
    hide Runs, WellFormed, Below, PurgeView;
    var n := Below(a.entries, op.id.index + 1);
    w' := Witness(w.dead + a.entries[..n], |w.dead| + n);
    PurgedRuns(f, s.wal, a, w, op.id);
    PurgeWellFormed(a, w.dead, op.id);
  }

  lemma StepSaveVote(f: Format, s: Store, a: RaftLog, w: Witness, op: Op, s': Store)
    requires Progress(f) && RefinesBy(f, s, a, w) && op.SaveVote? && Next(f, s, op, s')
    ensures RefinesBy(f, s', Step(f, a, op), w)
  {
    hide Runs;
  }

  lemma StepCrash(f: Format, s: Store, a: RaftLog, w: Witness)
    requires Lawful(f) && RefinesBy(f, s, a, w)
    ensures RefinesBy(f, s.(up := false), a, w)
  {
    hide WellFormed, Recoverable;
    if s.up {
      HoldsRecoverable(f, s.wal, w.dead + a.entries, w.hidden);
    }
  }

  // Reopening never fails, and resurrects every purged record in the index.
  lemma StepReopen(f: Format, s: Store, a: RaftLog, w: Witness)
    requires Progress(f) && RefinesBy(f, s, a, w) && !s.up
    ensures OpenView(f, s.wal.file).Some?
    ensures RefinesBy(f, Store(true, OpenView(f, s.wal.file).value, s.saved, s.saved), a, w.(hidden := 0))
  {
    hide WellFormed, Holds, Recoverable;
    OpenHolds(f, s.wal.file, w.dead + a.entries);
    LastOfConcat(w.dead, a.entries);
  }

  // The dead and hidden records after an operation: purging makes entries dead and hides
  // them, reopening shows everything.
  function NextWitness(a: RaftLog, w: Witness, op: Op): Witness {
    match op
    case Purge(id) =>
      var n := Below(a.entries, id.index + 1);
      Witness(w.dead + a.entries[..n], |w.dead| + n)
    case Reopen => w.(hidden := 0)
    case _ => w
  }

  lemma StepRefines(f: Format, s: Store, a: RaftLog, w: Witness, op: Op, s': Store) returns (w': Witness)
    requires Lawful(f) && RefinesBy(f, s, a, w) && Legal(f, a, op) && Next(f, s, op, s')
    ensures RefinesBy(f, s', Step(f, a, op), w') && w' == NextWitness(a, w, op)
  {
    hide WellFormed, Runs, Recoverable;
    w' := w;
    match op
    case Append(_) => StepAppend(f, s, a, w, op, s');
    case Truncate(_) => StepTruncate(f, s, a, w, op, s');
    case Purge(_) => w' := StepPurge(f, s, a, w, op, s');
    case SaveVote(_) => StepSaveVote(f, s, a, w, op, s');
    case Crash => StepCrash(f, s, a, w);
    case TornAppend(_, _) => StepTornAppend(f, s, a, w, op, s');
    case Reopen =>
      StepReopen(f, s, a, w);
      w' := w.(hidden := 0);
  }

  // ---- Every run.

  // A store whose directory is empty and whose process has not started.
  const EMPTY_STORE := Store(false, WalView([], map[], None), NO_METADATA, NO_METADATA)
  const EMPTY_LOG := RaftLog([], None, None)

  ghost predicate IsRun(f: Format, ss: seq<Store>, ops: seq<Op>)
    requires Progress(f)
  {
    && |ss| == |ops| + 1 && ss[0] == EMPTY_STORE
    && forall i :: 0 <= i < |ops| ==> Next(f, ss[i], ops[i], ss[i + 1])
  }

  // The plain log after the operations.
  function LogAfter(f: Format, ops: seq<Op>): RaftLog {
    if ops == [] then EMPTY_LOG else Step(f, LogAfter(f, ops[..|ops| - 1]), ops[|ops| - 1])
  }

  // The records that are dead, and the number of hidden ones, after the operations.
  function WitnessAfter(f: Format, ops: seq<Op>): Witness {
    if ops == [] then Witness([], 0) else
    var init := ops[..|ops| - 1];
    NextWitness(LogAfter(f, init), WitnessAfter(f, init), ops[|ops| - 1])
  }

  ghost predicate LegalRun(f: Format, ops: seq<Op>) {
    forall i :: 0 <= i < |ops| ==> Legal(f, LogAfter(f, ops[..i]), ops[i])
  }

  lemma RunPrefix(f: Format, ss: seq<Store>, ops: seq<Op>)
    requires Progress(f) && IsRun(f, ss, ops) && LegalRun(f, ops) && ops != []
    ensures var n := |ops| - 1;
            && IsRun(f, ss[..n + 1], ops[..n]) && LegalRun(f, ops[..n]) && ss[..n + 1][n] == ss[n]
            && Legal(f, LogAfter(f, ops[..n]), ops[n]) && Next(f, ss[n], ops[n], ss[n + 1])
  {
    var n := |ops| - 1;
    forall i | 0 <= i < n
      ensures Legal(f, LogAfter(f, ops[..n][..i]), ops[..n][i])
    {
      assert ops[..n][..i] == ops[..i];
    }
    assert forall i :: 0 <= i < n ==> Next(f, ss[i], ops[i], ss[i + 1]);
  }

  // Storage refinement: along every run of operations, crashes and reopenings within
  // the contract, the store implements the plain log.
  lemma {:induction false} RunRefines(f: Format, ss: seq<Store>, ops: seq<Op>) returns (w: Witness)
    requires Lawful(f) && IsRun(f, ss, ops) && LegalRun(f, ops)
    ensures RefinesBy(f, ss[|ops|], LogAfter(f, ops), w) && w == WitnessAfter(f, ops)
    decreases |ops|
  {
    if ops == [] {
      ScanWhole(f, []);
      w := Witness([], 0);
    } else {
      var n := |ops| - 1;
      RunPrefix(f, ss, ops);
      w := RunRefines(f, ss[..n + 1], ops[..n]);
      w := StepRefines(f, ss[n], LogAfter(f, ops[..n]), w, ops[n], ss[n + 1]);
    }
  }

  // ---- What a caller sees.

  // Every acknowledged vote and purge point is what the store holds, in memory while it
  // runs and on disk always; and a store that is down can always be reopened.
  lemma MetadataSurvives(f: Format, ss: seq<Store>, ops: seq<Op>)
    requires Lawful(f) && IsRun(f, ss, ops) && LegalRun(f, ops)
    ensures var s, a := ss[|ops|], LogAfter(f, ops);
            && s.saved == LogMetadata(a.vote, a.purged) && (s.up ==> s.meta == s.saved)
            && (!s.up ==> OpenView(f, s.wal.file).Some?)
  {
    var w := RunRefines(f, ss, ops);
    if !ss[|ops|].up {
      StepReopen(f, ss[|ops|], LogAfter(f, ops), w);
    }
  }

  ghost predicate FormatOf(c: Codec, f: Format) {
    Invertible(c) && Lawful(f) && Writes(c, f)
  }

  // What the plain log holds at an index.
  function EntryAt(es: seq<Entry>, i: nat): ReadResult {
    if es != [] && Idx(es[0]) <= i < Idx(es[0]) + |es| then Found(es[i - Idx(es[0])]) else Missing
  }

  // Above the purge point a read finds the log's entry or nothing, whatever purged
  // records the index still shows.
  ghost predicate ReadsAs(c: Codec, wal: WalView, a: RaftLog) {
    forall i :: ReadsAt(c, wal, a, i)
  }

  predicate ReadsAt(c: Codec, wal: WalView, a: RaftLog, i: nat) {
    Above(a.purged, i) ==> ReadView(c, wal, i) == EntryAt(a.entries, i)
  }

  lemma ReadOne(c: Codec, f: Format, wal: WalView, a: RaftLog, w: Witness, i: nat)
    requires FormatOf(c, f) && WellFormed(a, w.dead) && Runs(f, wal, a.entries, w)
    ensures ReadsAt(c, wal, a, i)
  {
    var recs := w.dead + a.entries;
    if EntryAt(a.entries, i).Found? {
      var j := i - Idx(a.entries[0]);
      assert recs[|w.dead| + j] == a.entries[j];
      ReadHolds(c, f, wal, recs, w.hidden, |w.dead| + j);
    } else if Above(a.purged, i) {
      assert forall j :: 0 <= j < |recs| ==> Idx(recs[j]) != i;
      ReadMissing(c, f, wal, recs, w.hidden, i);
    }
  }

  lemma RefinedReads(c: Codec, f: Format, s: Store, a: RaftLog, w: Witness)
    requires FormatOf(c, f) && RefinesBy(f, s, a, w) && s.up
    ensures ReadsAs(c, s.wal, a)
  {
    forall i: nat
      ensures ReadsAt(c, s.wal, a, i)
    {
      ReadOne(c, f, s.wal, a, w, i);
    }
  }

  // The log's entries with an index in [start, end).
  function Window(es: seq<Entry>, start: nat, end: nat): (r: seq<Entry>)
  {
    if Below(es, start) <= Below(es, end) then es[Below(es, start)..Below(es, end)] else []
  }

  // What a range read is due: those entries, or nothing if the range starts below them.
  function Due(es: seq<Entry>, start: nat, end: nat): seq<Entry> {
    if es != [] && start < Idx(es[0]) then [] else Window(es, start, end)
  }

  // In a log without gaps the count below an index is a subtraction.
  lemma BelowConsecutive(es: seq<Entry>, x: nat)
    requires Consecutive(es) && es != []
    ensures Below(es, x) ==
            if x <= Idx(es[0]) then 0 else if x - Idx(es[0]) <= |es| then x - Idx(es[0]) else |es|
  {
    var n := Below(es, x);
    if 0 < n {
      assert Idx(es[n - 1]) < x;
    }
  }

  lemma DueStep(es: seq<Entry>, start: nat, end: nat)
    requires Consecutive(es) && start < end
    ensures Due(es, start, end) ==
            match EntryAt(es, start)
            case Found(e) => [e] + Due(es, start + 1, end)
            case _ => []
  {
    hide Below;
    if es != [] {
      BelowConsecutive(es, start);
      BelowConsecutive(es, start + 1);
      BelowConsecutive(es, end);
    }
  }

  // A read of [start, end) above the purge point returns exactly the log's entries in
  // that range, unless the range starts below the log's first entry: then it returns
  // nothing.
  lemma {:induction false} ReadsAreExact(c: Codec, wal: WalView, a: RaftLog, start: nat, end: nat)
    requires ReadsAs(c, wal, a) && Consecutive(a.entries) && Above(a.purged, start) && start <= end
    ensures ReadRangeView(c, wal, start, end) == Some(Due(a.entries, start, end))
    decreases end - start
  {
    if start < end {
      assert ReadsAt(c, wal, a, start);
      ReadsAreExact(c, wal, a, start + 1, end);
      DueStep(a.entries, start, end);
    } else {
      assert |Due(a.entries, start, end)| == 0;
    }
  }

  // Reading the whole range returns the whole log exactly when the log is empty or
  // starts right behind the purge point, or at index 0 if nothing was purged.
  lemma UnboundedReadIsExact(c: Codec, s: Store, a: RaftLog)
    requires ReadsAs(c, s.wal, a) && Consecutive(a.entries) && BeyondPurge(a.entries, a.purged)
    requires s.meta.purged == a.purged
    requires a.entries != [] ==> s.wal.last == LastOf(a.entries)
    requires a.entries == [] && s.wal.last.Some? ==> !Above(a.purged, s.wal.last.value.index)
    ensures var start := StartOf(Unbounded, s.meta);
            var read := ReadRangeView(c, s.wal, start, StopOf(Unbounded, start, s.wal.last));
            read == Some(a.entries) <==> a.entries == [] || Idx(a.entries[0]) == start
  {
    var start := StartOf(Unbounded, s.meta);
    if a.entries != [] {
      var n := |a.entries|;
      var stop := Idx(a.entries[0]) + n;
      assert Above(a.purged, Idx(a.entries[0]));
      assert Idx(a.entries[n - 1]) == Idx(a.entries[0]) + n - 1;
      ReadsAreExact(c, s.wal, a, start, stop);
      WholeWindow(a.entries);
    }
  }

  lemma WholeWindow(es: seq<Entry>)
    requires Consecutive(es) && es != []
    ensures Window(es, Idx(es[0]), Idx(es[0]) + |es|) == es
  {
    BelowConsecutive(es, Idx(es[0]));
    BelowConsecutive(es, Idx(es[0]) + |es|);
  }

  // The reported last log id is the last entry's. On an empty log it is None, or the id
  // of a record at or below the purge point; it need not be the purge point itself.
  lemma LastLogId(f: Format, s: Store, a: RaftLog, w: Witness)
    requires Progress(f) && RefinesBy(f, s, a, w) && s.up
    ensures a.entries != [] ==> s.wal.last == LastOf(a.entries)
    ensures a.entries == [] && s.wal.last.Some? ==>
              a.purged.Some? && s.wal.last.value.index <= a.purged.value.index
  {
  }

  // Whether the last id is forgotten after an operation: a truncation that empties the log
  // and the index forgets it, an append or a reopening brings one back.
  predicate ForgottenNext(a: RaftLog, w: Witness, forgotten: bool, op: Op) {
    match op
    case Append(es) => es == [] && forgotten
    case Truncate(since) =>
      var n := Below(a.entries, since);
      if n == |a.entries| then forgotten else n == 0 && w.hidden == |w.dead|
    case Purge(_) => a.entries == [] && forgotten
    case Reopen => false
    case _ => forgotten
  }

  predicate Forgotten(f: Format, ops: seq<Op>) {
    ops != [] &&
    var init := ops[..|ops| - 1];
    ForgottenNext(LogAfter(f, init), WitnessAfter(f, init), Forgotten(f, init), ops[|ops| - 1])
  }

  // The last log id that a store reports.
  function Reported(entries: seq<Entry>, dead: seq<Entry>, forgotten: bool): Option<LogId> {
    if entries != [] then LastOf(entries) else if forgotten then None else LastOf(dead)
  }

  // Along every run the reported last log id is the last entry's; on an empty log it is
  // that of the last purged record, or none if it was forgotten.
  lemma {:induction false} RunReports(f: Format, ss: seq<Store>, ops: seq<Op>)
    requires Lawful(f) && IsRun(f, ss, ops) && LegalRun(f, ops)
    ensures ss[|ops|].up ==>
              ss[|ops|].wal.last == Reported(LogAfter(f, ops).entries, WitnessAfter(f, ops).dead, Forgotten(f, ops))
    decreases |ops|
  {
    hide LegalRun, Legal, RefinesBy;
    if ops != [] {
      var n := |ops| - 1;
      RunPrefix(f, ss, ops);
      RunReports(f, ss[..n + 1], ops[..n]);
      var w := RunRefines(f, ss[..n + 1], ops[..n]);
      if ops[n] == Reopen {
        ReopenReports(f, ss[n], LogAfter(f, ops[..n]), w, ss[n + 1]);
      } else if ss[n].up {
        StepReports(f, ss[n], LogAfter(f, ops[..n]), w, Forgotten(f, ops[..n]), ops[n], ss[n + 1]);
      }
    }
  }

  lemma ReopenReports(f: Format, s: Store, a: RaftLog, w: Witness, s': Store)
    requires Progress(f) && RefinesBy(f, s, a, w) && Next(f, s, Reopen, s')
    ensures s'.wal.last == Reported(a.entries, w.dead, false)
  {
    hide Holds, Recoverable, WellFormed;
    OpenHolds(f, s.wal.file, w.dead + a.entries);
    LastOfConcat(w.dead, a.entries);
  }

  lemma StepReports(f: Format, s: Store, a: RaftLog, w: Witness, forgotten: bool, op: Op, s': Store)
    requires Lawful(f) && RefinesBy(f, s, a, w) && Legal(f, a, op) && Next(f, s, op, s') && s.up && op != Reopen
    requires s.wal.last == Reported(a.entries, w.dead, forgotten)
    ensures s'.up ==> s'.wal.last == Reported(Step(f, a, op).entries, NextWitness(a, w, op).dead, ForgottenNext(a, w, forgotten, op))
  {
    hide RefinesBy, Legal, Truncates, AppendView, Reported, Below;
    match op
    case Append(es) =>
      AppendReports(f, s.wal, es);
      AppendedReport(a.entries, w.dead, forgotten, es);
    case Truncate(since) => TruncateReports(f, s, a, w, forgotten, since, s');
    case Purge(id) => PurgedReport(a.entries, w.dead, forgotten, Below(a.entries, id.index + 1));
    case _ =>
  }

  lemma AppendedReport(entries: seq<Entry>, dead: seq<Entry>, forgotten: bool, es: seq<Entry>)
    ensures Reported(entries + es, dead, es == [] && forgotten) ==
            if es == [] then Reported(entries, dead, forgotten) else LastOf(es)
  {
    LastOfConcat(entries, es);
    assert es == [] ==> entries + es == entries;
  }

  lemma PurgedReport(entries: seq<Entry>, dead: seq<Entry>, forgotten: bool, n: nat)
    requires n <= |entries|
    ensures Reported(entries[n..], dead + entries[..n], entries == [] && forgotten) == Reported(entries, dead, forgotten)
  {
    LastOfConcat(entries[..n], entries[n..]);
    LastOfConcat(dead, entries[..n]);
    assert entries == entries[..n] + entries[n..];
  }

  lemma AppendReports(f: Format, wal: WalView, es: seq<Entry>)
    ensures AppendView(f, wal, es).last == if es == [] then wal.last else LastOf(es)
  {
    if es != [] {
      LocateAt(f, es, |wal.file|, |es| - 1);
    }
  }

  lemma TruncateReports(f: Format, s: Store, a: RaftLog, w: Witness, forgotten: bool, since: nat, s': Store)
    requires Progress(f) && RefinesBy(f, s, a, w) && Legal(f, a, Truncate(since)) && Next(f, s, Truncate(since), s')
    requires s.wal.last == Reported(a.entries, w.dead, forgotten)
    ensures var n := Below(a.entries, since);
            s'.wal.last == Reported(a.entries[..n], w.dead,
                                    if n == |a.entries| then forgotten else n == 0 && w.hidden == |w.dead|)
  {
    hide Holds, Truncates, Below, Consecutive, BeyondPurge;
    var n := Below(a.entries, since);
    assert Below(w.dead + a.entries, since) == |w.dead| + n by {
      BelowBehind(w.dead, a.entries, since);
    }
    TruncateHolds(f, s.wal, w.dead + a.entries, w.hidden, since, s'.wal);
    assert (w.dead + a.entries)[..|w.dead| + n] == w.dead + a.entries[..n];
    LastOfConcat(w.dead, a.entries[..n]);
    if n == |a.entries| {
      assert a.entries[..n] == a.entries;
    }
  }

  // The reported id is at or above the purge point exactly if the log has entries, or the
  // last purged record has the purge point's index and was not forgotten.
  lemma ReportedAtPurgeIff(f: Format, ss: seq<Store>, ops: seq<Op>)
    requires Lawful(f) && IsRun(f, ss, ops) && LegalRun(f, ops)
    ensures var s, a, dead := ss[|ops|], LogAfter(f, ops), WitnessAfter(f, ops).dead;
            s.up && a.purged.Some? ==>
              (s.wal.last.Some? && s.wal.last.value.index >= a.purged.value.index <==>
               a.entries != []
               || (!Forgotten(f, ops) && dead != [] && Idx(dead[|dead| - 1]) == a.purged.value.index))
  {
    hide LegalRun, LogAfter, WitnessAfter, Forgotten, Runs, Recoverable;
    RunReports(f, ss, ops);
    var w := RunRefines(f, ss, ops);
  }

  // A run whose empty log reports an id below the purge point.
  lemma ReportedBelowPurge(f: Format, e: Entry, id: LogId) returns (ss: seq<Store>, ops: seq<Op>)
    requires Lawful(f) && f.fits(e) && Idx(e) < id.index
    ensures IsRun(f, ss, ops) && LegalRun(f, ops) && ops == [Reopen, Append([e]), Purge(id)]
    ensures LogAfter(f, ops) == RaftLog([], None, Some(id)) && ss[3].up && ss[3].wal.last == Some(e.logId)
  {
    hide AppendView, OpenView;
    var init := [Reopen, Append([e])];
    ops := [Reopen, Append([e]), Purge(id)];
    var first := FirstAppend(f, e);
    FirstLegal(f, e);
    var meta := first[2].meta.(purged := Some(id));
    var last := first[2].(wal := PurgeView(first[2].wal, id.index), meta := meta, saved := meta);
    ss := [first[0], first[1], first[2], last];
    assert ops[..2] == init;
    LegalNext(f, init, Purge(id));
    assert Below([e], id.index + 1) == 1;
  }

  lemma LegalNext(f: Format, ops: seq<Op>, op: Op)
    requires LegalRun(f, ops) && Legal(f, LogAfter(f, ops), op)
    ensures LegalRun(f, ops + [op]) && LogAfter(f, ops + [op]) == Step(f, LogAfter(f, ops), op)
  {
    hide Legal;
    var ops' := ops + [op];
    assert ops'[..|ops|] == ops;
    forall i | 0 <= i < |ops'|
      ensures Legal(f, LogAfter(f, ops'[..i]), ops'[i])
    {
      assert i < |ops| ==> ops'[..i] == ops[..i];
    }
  }

  // The whole store: after every run, a range read above the purge point returns what
  // the plain log is due.
  lemma RunReads(c: Codec, f: Format, ss: seq<Store>, ops: seq<Op>, start: nat, end: nat)
    requires FormatOf(c, f) && IsRun(f, ss, ops) && LegalRun(f, ops)
    ensures ss[|ops|].up && Above(LogAfter(f, ops).purged, start) && start <= end ==>
              ReadRangeView(c, ss[|ops|].wal, start, end) == Some(Due(LogAfter(f, ops).entries, start, end))
  {
    hide LegalRun, LogAfter, ReadsAs, Due, ReadRangeView, Runs;
    var s, a := ss[|ops|], LogAfter(f, ops);
    var w := RunRefines(f, ss, ops);
    if s.up && Above(a.purged, start) && start <= end {
      RefinedReads(c, f, s, a, w);
      ReadsAreExact(c, s.wal, a, start, end);
    }
  }

  // After every run, reading everything returns the plain log's entries exactly if there
  // are none or they start right behind the purge point.
  lemma RunReadsAll(c: Codec, f: Format, ss: seq<Store>, ops: seq<Op>)
    requires FormatOf(c, f) && IsRun(f, ss, ops) && LegalRun(f, ops)
    ensures var s, a := ss[|ops|], LogAfter(f, ops);
            s.up ==> (ReadAll(c, s) == Some(a.entries) <==>
                      a.entries == [] || Idx(a.entries[0]) == StartOf(Unbounded, s.meta))
  {
    hide LegalRun, LogAfter, ReadsAs, ReadRangeView, Runs, IsRun;
    var s, a := LastOfRun(f, ss, ops), LogAfter(f, ops);
    var w := RunRefines(f, ss, ops);
    if s.up {
      RefinedReads(c, f, s, a, w);
      LastLogId(f, s, a, w);
      UnboundedReadIsExact(c, s, a);
    }
  }

  ghost function LastOfRun(f: Format, ss: seq<Store>, ops: seq<Op>): Store
    requires Progress(f) && IsRun(f, ss, ops)
  {
    ss[|ops|]
  }

  // Both sides occur: a log that begins at a later index is read as nothing.
  lemma LateStart(c: Codec, f: Format, e: Entry) returns (ss: seq<Store>, ops: seq<Op>)
    requires FormatOf(c, f) && f.fits(e) && Idx(e) > 0
    ensures IsRun(f, ss, ops) && LegalRun(f, ops) && ops == [Reopen, Append([e])]
    ensures LogAfter(f, ops).entries == [e] && ss[2].up && ReadAll(c, ss[2]) == Some([])
  {
    ops := [Reopen, Append([e])];
    ss := FirstAppend(f, e);
    FirstLegal(f, e);
    RunReadsFromZero(c, f, ss, ops, e);
  }

  lemma FirstAppend(f: Format, e: Entry) returns (ss: seq<Store>)
    requires Lawful(f) && f.fits(e)
    ensures IsRun(f, ss, [Reopen, Append([e])]) && ss[2].up && ss[2].meta == NO_METADATA
    ensures ss[2].wal.last == Some(e.logId)
  {
    ScanWhole(f, []);
    var running := Store(true, WalView([], map[], None), NO_METADATA, NO_METADATA);
    assert CutTo([], 0) == [];
    var appended := running.(wal := AppendView(f, running.wal, [e]));
    ss := [EMPTY_STORE, running, appended];
    LocateAt(f, [e], 0, 0);
  }

  lemma FirstLegal(f: Format, e: Entry)
    requires f.fits(e)
    ensures LegalRun(f, [Reopen, Append([e])]) && LogAfter(f, [Reopen, Append([e])]) == RaftLog([e], None, None)
  {
    var ops := [Reopen, Append([e])];
    assert ops[..0] == [] && ops[..1] == [Reopen] && ops[..1][..0] == [];
    assert LogAfter(f, ops[..1]) == Step(f, LogAfter(f, ops[..1][..0]), Reopen);
    assert [] + [e] == [e];
  }

  lemma RunReadsFromZero(c: Codec, f: Format, ss: seq<Store>, ops: seq<Op>, e: Entry)
    requires FormatOf(c, f) && IsRun(f, ss, ops) && LegalRun(f, ops) && Idx(e) > 0
    ensures var s := ss[|ops|];
            LogAfter(f, ops) == RaftLog([e], None, None) && s.up && s.meta == NO_METADATA && s.wal.last == Some(e.logId)
            ==> ReadAll(c, s) == Some([])
  {
    hide LegalRun, LogAfter, IsRun, ReadRangeView;
    RunReads(c, f, ss, ops, 0, Idx(e) + 1);
  }

  // The format of the log's files is one for which all this holds.
  lemma WalRecordsIsFormat(c: Codec)
    requires Invertible(c)
    ensures FormatOf(c, WalRecords(c))
  {
    WalRecordsLawful(c);
    assert forall e :: WritesAt(c, WalRecords(c), e);
  }
}
