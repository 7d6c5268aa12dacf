// What a range read of the log store means: the bounds are inequalities on log indices.
module RangeReads {
  import opened Bytes
  import opened RaftTypes
  import opened RecordLog
  import opened WalFormat
  import opened Wal
  import opened WalRefinement
  import opened LogStore
  import opened Sorting

  predicate AboveLower(from: Bound, i: nat) {
    match from
    case Included(n) => n <= i
    case Excluded(n) => n < i
    case Unbounded => true
  }

  predicate BelowUpper(to: Bound, i: nat) {
    match to
    case Included(n) => i <= n
    case Excluded(n) => i < n
    case Unbounded => true
  }

  predicate InRange(from: Bound, to: Bound, i: nat) {
    AboveLower(from, i) && BelowUpper(to, i)
  }

  function RangeTest(from: Bound, to: Bound): Entry -> bool {
    (e: Entry) => InRange(from, to, Idx(e))
  }

  // The entries with an index in the range, in order.
  function Selected(es: seq<Entry>, from: Bound, to: Bound): seq<Entry> {
    Filter(es, RangeTest(from, to))
  }

  // A range without a lower bound is one above the purge point.
  ghost predicate StartsAbovePurge(from: Bound, purged: Option<LogId>) {
    from == Unbounded || forall i: nat :: AboveLower(from, i) ==> Above(purged, i)
  }

  // No index of the range above the purge point lies below the first entry.
  ghost predicate StartsInLog(from: Bound, purged: Option<LogId>, es: seq<Entry>) {
    es == [] || forall i: nat :: AboveLower(from, i) && Above(purged, i) ==> Idx(es[0]) <= i
  }

  // The least index of such a range.
  lemma StartIsLeast(from: Bound, meta: LogMetadata, i: nat)
    requires StartsAbovePurge(from, meta.purged)
    ensures AboveLower(from, i) && Above(meta.purged, i) <==> StartOf(from, meta) <= i
  {
    if !from.Unbounded? {
      assert AboveLower(from, StartOf(from, meta));
    }
  }

  // The window of a log without gaps is what the inequalities select.
  lemma WindowIsSelected(es: seq<Entry>, from: Bound, to: Bound, start: nat, end: nat)
    requires Consecutive(es) && start <= end
    requires forall k :: 0 <= k < |es| ==> (InRange(from, to, Idx(es[k])) <==> start <= Idx(es[k]) < end)
    ensures Window(es, start, end) == Selected(es, from, to)
  {
    hide Below;
    if es != [] {
      BelowConsecutive(es, start);
      BelowConsecutive(es, end);
      var i, j, p := Below(es, start), Below(es, end), RangeTest(from, to);
      forall k | 0 <= k < |es|
        ensures p(es[k]) <==> i <= k < j
      {
        assert Idx(es[k]) == Idx(es[0]) + k;
      }
      FilterSlice(es, i, j, p);
    }
  }

  // A range that ends before it starts selects nothing.
  lemma NothingSelected(es: seq<Entry>, from: Bound, to: Bound)
    requires forall k :: 0 <= k < |es| ==> !InRange(from, to, Idx(es[k]))
    ensures Selected(es, from, to) == []
  {
    FilterSlice(es, 0, 0, RangeTest(from, to));
  }

  // The reported last log id, as far as range reads depend on it.
  predicate LastSuits(s: Store, a: RaftLog) {
    && (a.entries != [] ==> s.wal.last == LastOf(a.entries))
    && (a.entries == [] && s.wal.last.Some? ==> !Above(a.purged, s.wal.last.value.index))
  }

  lemma RangeIsExact(c: Codec, s: Store, a: RaftLog, from: Bound, to: Bound)
    requires ReadsAs(c, s.wal, a) && Consecutive(a.entries) && BeyondPurge(a.entries, a.purged)
    requires s.meta.purged == a.purged && LastSuits(s, a) && StartsAbovePurge(from, a.purged)
    ensures ReadBy(c, s, from, to) ==
            Some(if StartsInLog(from, a.purged, a.entries) then Selected(a.entries, from, to) else [])
  {
    hide ReadsAs, StartsAbovePurge, Selected, Window, Consecutive, BeyondPurge;
    var start := StartOf(from, s.meta);
    var end := StopOf(to, start, s.wal.last);
    forall i: nat
      ensures AboveLower(from, i) && Above(a.purged, i) <==> start <= i
    {
      StartIsLeast(from, s.meta, i);
    }
    forall k | 0 <= k < |a.entries|
      ensures InRange(from, to, Idx(a.entries[k])) <==> start <= Idx(a.entries[k]) < end
    {
      EntryInRange(s, a, from, to, start, k);
    }
    assert AboveLower(from, start) && Above(a.purged, start);
    assert StartsInLog(from, a.purged, a.entries) <==> a.entries == [] || Idx(a.entries[0]) <= start;
    if start <= end {
      ReadsAreExact(c, s.wal, a, start, end);
      WindowIsSelected(a.entries, from, to, start, end);
    } else {
      NothingSelected(a.entries, from, to);
    }
  }

  lemma EntryInRange(s: Store, a: RaftLog, from: Bound, to: Bound, start: nat, k: nat)
    requires k < |a.entries| && Consecutive(a.entries) && BeyondPurge(a.entries, a.purged) && LastSuits(s, a)
    requires forall i: nat :: AboveLower(from, i) && Above(a.purged, i) <==> start <= i
    ensures InRange(from, to, Idx(a.entries[k])) <==>
            start <= Idx(a.entries[k]) < StopOf(to, start, s.wal.last)
  {
    var n := |a.entries| - 1;
    assert Idx(a.entries[k]) == Idx(a.entries[0]) + k && Idx(a.entries[n]) == Idx(a.entries[0]) + n;
  }

  // Range reads: after every run, a range that starts above the purge point is read as the
  // entries of the plain log whose index satisfies the bounds, in order, unless the range
  // starts below the first entry: then nothing is read.
  lemma RunReadsRange(c: Codec, f: Format, ss: seq<Store>, ops: seq<Op>, from: Bound, to: Bound)
    requires FormatOf(c, f) && IsRun(f, ss, ops) && LegalRun(f, ops)
    ensures var s, a := ss[|ops|], LogAfter(f, ops);
            s.up && StartsAbovePurge(from, a.purged) ==>
              ReadBy(c, s, from, to) ==
              Some(if StartsInLog(from, a.purged, a.entries) then Selected(a.entries, from, to) else [])
  {
    hide LegalRun, LogAfter, ReadsAs, Runs, StartsAbovePurge, StartsInLog, Selected, ReadBy;
    var s, a := ss[|ops|], LogAfter(f, ops);
    var w := RunRefines(f, ss, ops);
    if s.up && StartsAbovePurge(from, a.purged) {
      RefinedReads(c, f, s, a, w);
      LastLogId(f, s, a, w);
      RangeIsExact(c, s, a, from, to);
    }
  }

  // An entry is selected exactly if it is in the log and satisfies the inequalities.
  lemma SelectedIff(es: seq<Entry>, from: Bound, to: Bound, e: Entry)
    ensures e in Selected(es, from, to) <==> e in es && InRange(from, to, Idx(e))
  {
    assert RangeTest(from, to)(e) <==> InRange(from, to, Idx(e));
  }
}
