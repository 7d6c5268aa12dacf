// The audit log: a ring in memory, batch files in object storage written by background
// tasks, and the reload that brings them back.
module Audit {
  import opened Bytes
  import opened Quorums
  import Sorting

  datatype AuditEvent = AuditEvent(id: nat, detail: string)

  const MAX_EVENTS_PER_BATCH: nat := 100
  const MAX_BATCH_BYTES: nat := 65536

  // How storage answers a write: done, refused, or done although it reports a failure.
  datatype Write = Done | Failed | DoneButFailed

  // Batch files by number.
  type Files = map<nat, seq<AuditEvent>>

  datatype LogView = LogView(ring: seq<AuditEvent>, nextId: nat, batch: seq<AuditEvent>, batchId: nat)

  const FRESH_LOG := LogView([], 1, [], 1)

  // ---- Lists of events.

  ghost predicate HasId(s: seq<AuditEvent>, id: nat) {
    exists y :: y in s && y.id == id
  }

  function LastId(s: seq<AuditEvent>): nat {
    if s == [] then 0 else s[|s| - 1].id
  }

  ghost predicate StrictlySorted(s: seq<AuditEvent>) {
    forall i, j :: 0 <= i < j < |s| ==> s[i].id < s[j].id
  }

  ghost predicate Sorted(s: seq<AuditEvent>) {
    forall i, j :: 0 <= i < j < |s| ==> s[i].id <= s[j].id
  }

  function IdOf(e: AuditEvent): int {
    e.id
  }

  // A stable sort by id.
  function SortById(s: seq<AuditEvent>): seq<AuditEvent> {
    Sorting.SortBy(s, IdOf)
  }

  // Of neighbours with the same id only the first stays.
  function DedupById(s: seq<AuditEvent>): seq<AuditEvent> {
    if |s| <= 1 then s else
    var init := DedupById(s[..|s| - 1]);
    if s[|s| - 2].id == s[|s| - 1].id then init else init + [s[|s| - 1]]
  }

  function TakeLast(s: seq<AuditEvent>, n: nat): seq<AuditEvent> {
    if |s| <= n then s else s[|s| - n..]
  }

  lemma SortSorts(s: seq<AuditEvent>)
    ensures Sorted(SortById(s)) && forall x :: x in SortById(s) <==> x in s
  {
    var key := IdOf;
    Sorting.SortSorts(s, key);
    var t := SortById(s);
    forall i, j | 0 <= i < j < |t|
      ensures t[i].id <= t[j].id
    {
      assert key(t[i]) <= key(t[j]);
    }
  }

  // One event of every id is kept, and they are strictly sorted.
  ghost predicate Dedups(s: seq<AuditEvent>, d: seq<AuditEvent>) {
    && StrictlySorted(d) && (forall x :: x in d ==> x in s)
    && (forall x :: x in s ==> HasId(d, x.id))
    && LastId(d) == LastId(s) && (d == [] <==> s == [])
  }

  lemma {:induction false} DedupDedups(s: seq<AuditEvent>)
    requires Sorted(s)
    ensures Dedups(s, DedupById(s))
    decreases |s|
  {
    hide Dedups;
    if |s| > 1 {
      var init, last := s[..|s| - 1], s[|s| - 1];
      DedupDedups(init);
      DedupStep(init, DedupById(init), last);
      assert s == init + [last];
    } else {
      DedupFew(s);
    }
  }

  lemma DedupFew(s: seq<AuditEvent>)
    requires |s| <= 1
    ensures Dedups(s, s)
  {
    if s != [] {
      assert HasId(s, s[0].id);
    }
  }

  lemma DedupStep(s: seq<AuditEvent>, d: seq<AuditEvent>, e: AuditEvent)
    requires s != [] && Dedups(s, d) && LastId(s) <= e.id
    ensures Dedups(s + [e], if LastId(s) == e.id then d else d + [e])
  {
    var d' := if LastId(s) == e.id then d else d + [e];
    forall i | 0 <= i < |d|
      ensures d[i].id <= LastId(d)
    {
      assert i == |d| - 1 || d[i].id < d[|d| - 1].id;
    }
    forall x | x in s + [e]
      ensures HasId(d', x.id)
    {
      if x in s {
        var y :| y in d && y.id == x.id;
        assert y in d';
      } else {
        assert d'[|d'| - 1] in d' && d'[|d'| - 1].id == e.id;
      }
    }
  }

  // The ring holds the last events of the history; appending keeps it so.
  lemma RingIsHistorysEnd(history: seq<AuditEvent>, e: AuditEvent, capacity: nat)
    requires capacity > 0
    ensures PushRing(TakeLast(history, capacity), e, capacity) == TakeLast(history + [e], capacity)
  {
    var ring := TakeLast(history, capacity);
    if |history| >= capacity {
      assert ring[1..] + [e] == (history + [e])[|history| + 1 - capacity..];
    }
  }

  // A full ring loses its oldest event.
  function PushRing(ring: seq<AuditEvent>, e: AuditEvent, capacity: nat): seq<AuditEvent> {
    (if |ring| >= capacity && ring != [] then ring[1..] else ring) + [e]
  }

  // ---- Stored events.

  ghost predicate Stored(files: Files, e: AuditEvent) {
    exists k :: k in files && e in files[k]
  }

  // No id is stored twice.
  ghost predicate Unique(files: Files) {
    forall k, i, l, j ::
      k in files && 0 <= i < |files[k]| && l in files && 0 <= j < |files[l]| && files[k][i].id == files[l][j].id
      ==> k == l && i == j
  }

  // The list has one stored event of every stored id, in id order.
  ghost predicate Lists(s: seq<AuditEvent>, files: Files) {
    && StrictlySorted(s) && (forall e :: e in s ==> Stored(files, e))
    && forall e :: Stored(files, e) ==> HasId(s, e.id)
  }

  predicate IsLatest(files: Files, k: nat) {
    k in files && forall l :: l in files ==> l <= k
  }

  // The log after a reload.
  ghost predicate Reloaded(capacity: nat, files: Files, v: LogView) {
    && (exists s: seq<AuditEvent> :: Lists(s, files) && v.ring == TakeLast(s, capacity)
                    && v.nextId == if v.ring == [] then 1 else LastId(s) + 1)
    && (if files.Keys <= {0} then v.batch == [] && v.batchId == 1
        else exists k: nat :: IsLatest(files, k)
                         && if |files[k]| < MAX_EVENTS_PER_BATCH then v.batch == files[k] && v.batchId == k
                            else v.batch == [] && v.batchId == k + 1)
  }

  class AuditLog {
    const capacity: nat
    var ring: seq<AuditEvent>
    var nextId: nat
    var batch: seq<AuditEvent>
    var batchId: nat

    ghost function View(): LogView
      reads this
    {
      LogView(ring, nextId, batch, batchId)
    }

    constructor (capacity: nat)
      ensures this.capacity == capacity && View() == FRESH_LOG
    {
      this.capacity := capacity;
      ring, nextId, batch, batchId := [], 1, [], 1;
    }

    // The first step of an append: a new id.
    method Allocate(detail: string) returns (e: AuditEvent)
      modifies this`nextId
      ensures e == AuditEvent(old(nextId), detail) && nextId == old(nextId) + 1
    {
      e := AuditEvent(nextId, detail);
      nextId := nextId + 1;
    }

    // The second step: the event enters the ring, and its persist task is spawned.
    method Push(e: AuditEvent)
      modifies this`ring
      ensures ring == PushRing(old(ring), e, capacity)
    {
      if |ring| >= capacity {
        if ring != [] {
          ring := ring[1..];
        }
      }
      ring := ring + [e];
    }

    // A persist task: the whole batch is written again with the event in it, and the
    // batch is closed once it is large. If storage reports a failure, the event stays in
    // the open batch.
    method Persist(files: Files, e: AuditEvent, size: seq<AuditEvent> -> nat, write: Write) returns (files': Files)
      modifies this`batch, this`batchId
      ensures files' == if write == Failed then files else files[old(batchId) := old(batch) + [e]]
      ensures var full := |old(batch) + [e]| >= MAX_EVENTS_PER_BATCH || size(old(batch) + [e]) >= MAX_BATCH_BYTES;
              if write == Done && full then batch == [] && batchId == old(batchId) + 1
              else batch == old(batch) + [e] && batchId == old(batchId)
    {
      batch := batch + [e];
      files' := if write == Failed then files else files[batchId := batch];
      if write == Done {
        if |batch| >= MAX_EVENTS_PER_BATCH || size(batch) >= MAX_BATCH_BYTES {
          batch := [];
          batchId := batchId + 1;
        }
      }
    }

    // Reads all batch files in order and restores ring, next id and open batch.
    method LoadFromStorage(files: Files)
      requires View() == FRESH_LOG
      modifies this
      ensures Reloaded(capacity, files, View())
    {
      hide DedupById, SortById, Lists;
      var loaded, maxId, maxBatchId, latest := ReadBatches(files);
      ghost var sorted := DedupById(SortById(loaded));
      GatheredLists(loaded, files);
      LastIsMax(loaded, maxId);
      loaded := DedupById(SortById(loaded));
      if |loaded| > capacity {
        loaded := loaded[|loaded| - capacity..];
      }
      assert loaded == TakeLast(sorted, capacity);
      if loaded != [] {
        ring := loaded;
        nextId := maxId + 1;
      }
      if maxBatchId > 0 {
        if |latest| < MAX_EVENTS_PER_BATCH {
          batch := latest;
          batchId := maxBatchId;
        } else {
          batchId := maxBatchId + 1;
        }
        assert IsLatest(files, maxBatchId);
      }
    }
  }

  // The largest id among the events and `m0`.
  method MaxOf(es: seq<AuditEvent>, m0: nat) returns (m: nat)
    ensures m0 <= m && forall e :: e in es ==> e.id <= m
    ensures m == m0 || exists e :: e in es && e.id == m
  {
    m := m0;
    for i := 0 to |es|
      invariant m0 <= m && forall j :: 0 <= j < i ==> es[j].id <= m
      invariant m == m0 || exists e :: e in es && e.id == m
    {
      if es[i].id > m {
        m := es[i].id;
      }
    }
  }

  // Reads the batch files by number: all events, their largest id, and the last batch.
  method ReadBatches(files: Files)
    returns (loaded: seq<AuditEvent>, maxId: nat, maxBatchId: nat, latest: seq<AuditEvent>)
    ensures Gathered(loaded, files, files.Keys) && IsMaxId(loaded, maxId)
    ensures if files == map[] then maxBatchId == 0
            else IsLatest(files, maxBatchId) && latest == files[maxBatchId]
  {
    loaded, maxId, maxBatchId, latest := [], 0, 0, [];
    var todo := files.Keys;
    ghost var done: set<nat> := {};
    while todo != {}
      invariant todo <= files.Keys && done == files.Keys - todo
      invariant forall l, m :: l in done && m in todo ==> l < m
      invariant if done == {} then maxBatchId == 0 else IsLatestOf(done, maxBatchId) && latest == files[maxBatchId]
      invariant Gathered(loaded, files, done) && IsMaxId(loaded, maxId)
    {
      var k := Lowest(todo);
      todo := todo - {k};
      maxBatchId := k;
      latest := files[k];
      var m := MaxOf(files[k], maxId);
      GatherOne(loaded, files, done, k);
      MaxGrows(loaded, maxId, files[k], m);
      loaded := loaded + files[k];
      maxId := m;
      done := done + {k};
    }
    assert done == files.Keys;
    assert files == map[] <==> files.Keys == {};
  }

  // The largest id of the list; zero for the empty list.
  ghost predicate IsMaxId(s: seq<AuditEvent>, m: nat) {
    (forall e :: e in s ==> e.id <= m) && (m != 0 ==> exists e :: e in s && e.id == m)
  }

  lemma MaxGrows(s: seq<AuditEvent>, m: nat, t: seq<AuditEvent>, m': nat)
    requires IsMaxId(s, m) && m <= m' && (forall e :: e in t ==> e.id <= m')
    requires m' == m || exists e :: e in t && e.id == m'
    ensures IsMaxId(s + t, m')
  {
    if m' != 0 {
      if m' == m {
        var e :| e in s && e.id == m;
        assert e in s + t;
      } else {
        var e :| e in t && e.id == m';
        assert e in s + t;
      }
    }
  }

  lemma GatherOne(s: seq<AuditEvent>, files: Files, done: set<nat>, k: nat)
    requires Gathered(s, files, done) && k in files
    ensures Gathered(s + files[k], files, done + {k})
  {
    forall e
      ensures e in s + files[k] <==> exists l :: l in done + {k} && e in files[l]
    {
      if e in s {
        var l :| l in done && e in files[l];
        assert l in done + {k};
      }
      if e in files[k] {
        assert k in done + {k};
      }
      if l :| l in done + {k} && e in files[l] {
        assert l == k || e in s;
      }
    }
  }

  // Sorted and deduplicated, the gathered events list the files.
  lemma GatheredLists(s: seq<AuditEvent>, files: Files)
    requires Gathered(s, files, files.Keys)
    ensures Lists(DedupById(SortById(s)), files)
  {
    hide DedupById, SortById;
    SortSorts(s);
    DedupDedups(SortById(s));
    var d := DedupById(SortById(s));
    forall e | e in d
      ensures Stored(files, e)
    {
      assert e in s;
      var k :| k in files.Keys && e in files[k];
    }
    forall e | Stored(files, e)
      ensures HasId(d, e.id)
    {
      assert e in s && e in SortById(s);
    }
  }

  lemma LastIsMax(s: seq<AuditEvent>, m: nat)
    requires IsMaxId(s, m)
    ensures LastId(DedupById(SortById(s))) == m
  {
    hide DedupById, SortById;
    SortSorts(s);
    var t := SortById(s);
    DedupDedups(t);
    if t != [] {
      assert t[|t| - 1] in s;
      if m != 0 {
        var e :| e in s && e.id == m;
        var i :| 0 <= i < |t| && t[i] == e;
        assert i == |t| - 1 || t[i].id <= t[|t| - 1].id;
      }
    } else {
      assert forall e :: e !in s;
    }
  }

  predicate IsLatestOf(keys: set<nat>, k: nat) {
    k in keys && forall l :: l in keys ==> l <= k
  }

  // The list has exactly the events of the files read so far.
  ghost predicate Gathered(s: seq<AuditEvent>, files: Files, done: set<nat>) {
    && done <= files.Keys
    && forall e :: e in s <==> exists k :: k in done && e in files[k]
  }
}
