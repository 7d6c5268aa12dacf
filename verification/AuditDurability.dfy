// Audit durability: whatever the order of appends, persist tasks, rotations and restarts,
// and whichever writes storage refuses.
module AuditDurability {
  import opened Bytes
  import opened Audit

  // The process and its log, the stored files, the events that have an id but are not in
  // the ring yet, and those whose persist task has not run yet.
  datatype World = World(up: bool, log: LogView, files: Files, inFlight: set<AuditEvent>, pending: set<AuditEvent>)

  // The ring's capacity and the size of a serialized batch.
  datatype Config = Config(capacity: nat, size: seq<AuditEvent> -> nat)

  datatype Op =
    | Allocate(detail: string)
    | Push(event: AuditEvent)
    | Persist(event: AuditEvent, write: Write)
    | Crash
    | Restart(log: LogView)

  ghost predicate Enabled(c: Config, w: World, op: Op) {
    match op
    case Allocate(_) => w.up
    case Push(e) => w.up && e in w.inFlight
    case Persist(e, _) => w.up && e in w.pending
    case Crash => true
    case Restart(v) => !w.up && Reloaded(c.capacity, w.files, v)
  }

  predicate Full(c: Config, batch: seq<AuditEvent>) {
    |batch| >= MAX_EVENTS_PER_BATCH || c.size(batch) >= MAX_BATCH_BYTES
  }

  ghost function After(c: Config, w: World, op: Op): World
    requires Enabled(c, w, op)
  {
    match op
    case Allocate(detail) =>
      w.(log := w.log.(nextId := w.log.nextId + 1), inFlight := w.inFlight + {AuditEvent(w.log.nextId, detail)})
    case Push(e) =>
      w.(log := w.log.(ring := PushRing(w.log.ring, e, c.capacity)),
         inFlight := w.inFlight - {e}, pending := w.pending + {e})
    case Persist(e, write) =>
      var batch := w.log.batch + [e];
      w.(log := if write == Done && Full(c, batch) then w.log.(batch := [], batchId := w.log.batchId + 1)
                else w.log.(batch := batch),
         files := if write == Failed then w.files else w.files[w.log.batchId := batch],
         pending := w.pending - {e})
    case Crash => World(false, FRESH_LOG, w.files, {}, {})
    case Restart(v) => w.(up := true, log := v)
  }

  // ---- The invariant.

  ghost predicate FilesOk(files: Files) {
    && Unique(files)
    && (forall k :: k in files ==> k >= 1 && files[k] != [])
    && (forall e :: Stored(files, e) ==> e.id >= 1)
  }

  // How much of the open batch its file holds.
  function Written(files: Files, v: LogView): nat {
    if v.batchId in files then |files[v.batchId]| else 0
  }

  // The open batch's file holds a beginning of it, and no later file exists.
  ghost predicate BatchOk(files: Files, v: LogView) {
    && v.batchId >= 1 && (forall k :: k in files ==> k <= v.batchId)
    && (v.batchId in files ==> files[v.batchId] <= v.batch)
  }

  // The events of the open batch that storage has refused so far.
  function Refused(files: Files, v: LogView): seq<AuditEvent> {
    if Written(files, v) <= |v.batch| then v.batch[Written(files, v)..] else []
  }

  function Out(w: World): set<AuditEvent> {
    w.inFlight + w.pending
  }

  // Ids that are out, or refused, are below the next one, each is there once, and none is
  // stored.
  ghost predicate IdsOk(files: Files, out: set<AuditEvent>, refused: seq<AuditEvent>, nextId: nat) {
    && nextId >= 1
    && (forall e :: Stored(files, e) ==> e.id < nextId)
    && (forall e :: e in out ==> 1 <= e.id < nextId)
    && (forall e, f :: e in out && f in out && e.id == f.id ==> e == f)
    && (forall e, f :: e in out && Stored(files, f) ==> e.id != f.id)
    && RefusedOk(files, out, refused, nextId)
  }

  ghost predicate RefusedOk(files: Files, out: set<AuditEvent>, r: seq<AuditEvent>, nextId: nat) {
    && NewIds(files, r)
    && (forall i :: 0 <= i < |r| ==> 1 <= r[i].id < nextId)
    && (forall i, e :: 0 <= i < |r| && e in out ==> r[i].id != e.id)
  }

  // The ids are distinct, and none of them is stored.
  ghost predicate NewIds(files: Files, r: seq<AuditEvent>) {
    && (forall i, j :: 0 <= i < j < |r| ==> r[i].id != r[j].id)
    && (forall i, f :: 0 <= i < |r| && Stored(files, f) ==> r[i].id != f.id)
  }

  ghost predicate LogOk(w: World) {
    && BatchOk(w.files, w.log) && w.inFlight !! w.pending
    && IdsOk(w.files, Out(w), Refused(w.files, w.log), w.log.nextId)
  }

  ghost predicate Inv(w: World) {
    FilesOk(w.files) && (w.up ==> LogOk(w))
  }

  lemma AllocateKeepsIds(files: Files, out: set<AuditEvent>, r: seq<AuditEvent>, nextId: nat, detail: string)
    requires IdsOk(files, out, r, nextId)
    ensures IdsOk(files, out + {AuditEvent(nextId, detail)}, r, nextId + 1)
  {
    hide Stored;
  }

  lemma OneMoreNew(files: Files, out: set<AuditEvent>, r: seq<AuditEvent>, e: AuditEvent)
    requires NewIds(files, r) && e in out
    requires forall f :: Stored(files, f) ==> f.id != e.id
    requires forall i :: 0 <= i < |r| ==> r[i].id != e.id
    ensures NewIds(files, r + [e])
  {
    hide Stored;
    var r' := r + [e];
    assert r'[|r|] == e && forall i :: 0 <= i < |r| ==> r'[i] == r[i];
  }

  lemma RefuseKeepsIds(files: Files, out: set<AuditEvent>, r: seq<AuditEvent>, nextId: nat, e: AuditEvent)
    requires IdsOk(files, out, r, nextId) && e in out
    ensures NewIds(files, r + [e]) && IdsOk(files, out - {e}, r + [e], nextId)
  {
    hide Stored;
    assert NewIds(files, r + [e]) by {
      OneMoreNew(files, out, r, e);
    }
    assert RefusedOk(files, out - {e}, r + [e], nextId) by {
      hide NewIds;
      var r' := r + [e];
      assert r'[|r|] == e && forall i :: 0 <= i < |r| ==> r'[i] == r[i];
    }
  }

  lemma WriteKeepsIds(files: Files, files': Files, out: set<AuditEvent>, r: seq<AuditEvent>, nextId: nat, e: AuditEvent)
    requires IdsOk(files, out, r, nextId) && e in out
    requires forall f :: Stored(files', f) <==> Stored(files, f) || f in r || f == e
    ensures IdsOk(files', out - {e}, [], nextId) && forall f :: Stored(files', f) && !Stored(files, f) ==> f.id >= 1
  {
    hide Stored;
    forall f | f in r
      ensures 1 <= f.id < nextId && forall g :: g in out ==> g.id != f.id
    {
      var i :| 0 <= i < |r| && r[i] == f;
    }
  }

  // ---- Storing the open batch with one more event.

  lemma BatchIs(files: Files, v: LogView)
    requires BatchOk(files, v)
    ensures v.batch == (if v.batchId in files then files[v.batchId] else []) + Refused(files, v)
  {
  }

  // A write that comes through stores the event and all that was refused before it.
  lemma StoreBatch(files: Files, v: LogView, e: AuditEvent)
    requires BatchOk(files, v)
    ensures var files' := files[v.batchId := v.batch + [e]];
            forall f :: Stored(files', f) <==> Stored(files, f) || f in Refused(files, v) || f == e
  {
    var files' := files[v.batchId := v.batch + [e]];
    BatchIs(files, v);
    forall f
      ensures Stored(files', f) <==> Stored(files, f) || f in Refused(files, v) || f == e
    {
      if Stored(files, f) {
        var k :| k in files && f in files[k];
        assert k in files' && f in files'[k];
      }
      if f == e || f in Refused(files, v) {
        assert v.batchId in files' && f in files'[v.batchId];
      }
      if Stored(files', f) {
        var k :| k in files' && f in files'[k];
        assert k == v.batchId ==> f in v.batch || f == e;
        assert k != v.batchId ==> k in files && f in files[k];
        assert v.batchId in files && f in files[v.batchId] ==> Stored(files, f);
      }
    }
  }

  lemma StoreUnique(files: Files, b: nat, had: seq<AuditEvent>, more: seq<AuditEvent>)
    requires Unique(files) && had == (if b in files then files[b] else []) && NewIds(files, more)
    ensures Unique(files[b := had + more])
  {
    var files' := files[b := had + more];
    forall k, i | k in files' && 0 <= i < |files'[k]| && !(k == b && i >= |had|)
      ensures k in files && i < |files[k]| && files[k][i] == files'[k][i] && Stored(files, files'[k][i])
    {
      assert files'[k][i] in files[k];
    }
    forall i | |had| <= i < |had + more|
      ensures files'[b][i] == more[i - |had|]
    {
    }
  }

  lemma WriteKeepsUnique(files: Files, v: LogView, e: AuditEvent)
    requires Unique(files) && BatchOk(files, v) && NewIds(files, Refused(files, v) + [e])
    ensures Unique(files[v.batchId := v.batch + [e]])
  {
    hide NewIds, Unique, Refused;
    BatchIs(files, v);
    var r, had := Refused(files, v), if v.batchId in files then files[v.batchId] else [];
    Assoc(had, r, [e]);
    StoreUnique(files, v.batchId, had, r + [e]);
  }

  lemma WriteKeepsFiles(w: World, e: AuditEvent)
    requires FilesOk(w.files) && LogOk(w) && e in w.pending
    ensures var files' := w.files[w.log.batchId := w.log.batch + [e]];
            FilesOk(files') && IdsOk(files', Out(w) - {e}, [], w.log.nextId)
  {
    hide Unique, Stored, IdsOk, NewIds;
    var files' := w.files[w.log.batchId := w.log.batch + [e]];
    var r := Refused(w.files, w.log);
    RefuseKeepsIds(w.files, Out(w), r, w.log.nextId, e);
    WriteKeepsUnique(w.files, w.log, e);
    StoreBatch(w.files, w.log, e);
    WriteKeepsIds(w.files, files', Out(w), r, w.log.nextId, e);
  }

  lemma WrittenKeepsInv(c: Config, w: World, e: AuditEvent, write: Write)
    requires write != Failed && Inv(w) && Enabled(c, w, Persist(e, write))
    ensures Inv(After(c, w, Persist(e, write)))
  {
    hide FilesOk, IdsOk, Refused, Full;
    var w' := After(c, w, Persist(e, write));
    WriteKeepsFiles(w, e);
    NothingRefused(c, w, e, write);
    assert Out(w') == Out(w) - {e};
  }

  lemma RefusedKeepsInv(c: Config, w: World, e: AuditEvent)
    requires Inv(w) && Enabled(c, w, Persist(e, Failed))
    ensures Inv(After(c, w, Persist(e, Failed)))
  {
    hide Unique, Stored, IdsOk, NewIds;
    var w' := After(c, w, Persist(e, Failed));
    RefuseKeepsIds(w.files, Out(w), Refused(w.files, w.log), w.log.nextId, e);
    assert Refused(w'.files, w'.log) == Refused(w.files, w.log) + [e];
    assert Out(w') == Out(w) - {e};
  }

  lemma NothingRefused(c: Config, w: World, e: AuditEvent, write: Write)
    requires write != Failed && BatchOk(w.files, w.log) && Enabled(c, w, Persist(e, write))
    ensures var w' := After(c, w, Persist(e, write));
            Refused(w'.files, w'.log) == []
  {
  }

  // ---- Reloading.

  // With unique ids, the listing is exactly the stored events.
  lemma ListsAll(s: seq<AuditEvent>, files: Files)
    requires Unique(files) && Lists(s, files)
    ensures forall e :: e in s <==> Stored(files, e)
  {
    forall e | Stored(files, e)
      ensures e in s
    {
      var y :| y in s && y.id == e.id;
      var k :| k in files && e in files[k];
      var l :| l in files && y in files[l];
      var i :| 0 <= i < |files[k]| && files[k][i] == e;
      var j :| 0 <= j < |files[l]| && files[l][j] == y;
    }
  }

  // A reload yields exactly the last events, as many as fit, in id order.
  lemma ReloadIsExact(capacity: nat, files: Files, v: LogView) returns (s: seq<AuditEvent>)
    requires Unique(files) && Reloaded(capacity, files, v)
    ensures StrictlySorted(s) && (forall e :: e in s <==> Stored(files, e))
    ensures v.ring == TakeLast(s, capacity)
    ensures v.nextId == if v.ring == [] then 1 else LastId(s) + 1
  {
    s :| Lists(s, files) && v.ring == TakeLast(s, capacity)
         && v.nextId == if v.ring == [] then 1 else LastId(s) + 1;
    ListsAll(s, files);
  }

  // The next id is above every stored one exactly when the ring can hold something, or
  // nothing is stored.
  lemma NextIdIsNewIff(capacity: nat, files: Files, v: LogView)
    requires FilesOk(files) && Reloaded(capacity, files, v)
    ensures (forall e :: Stored(files, e) ==> e.id < v.nextId) <==> capacity > 0 || files == map[]
  {
    var s := ReloadIsExact(capacity, files, v);
    if capacity > 0 || files == map[] {
      forall e | Stored(files, e)
        ensures e.id < v.nextId
      {
        var i :| 0 <= i < |s| && s[i] == e;
        assert i == |s| - 1 || s[i].id < s[|s| - 1].id;
      }
    } else {
      var k :| k in files;
      assert Stored(files, files[k][0]);
    }
  }

  // A reloaded log has an open batch, or none, that its file holds whole.
  lemma ReloadedBatch(capacity: nat, files: Files, v: LogView)
    requires FilesOk(files) && Reloaded(capacity, files, v)
    ensures BatchOk(files, v) && Refused(files, v) == []
  {
    if files.Keys <= {0} {
      assert forall k :: k !in files;
    }
  }

  lemma RestartKeepsInv(c: Config, w: World, v: LogView)
    requires c.capacity > 0 && Inv(w) && w.inFlight == {} == w.pending && Enabled(c, w, Restart(v))
    ensures Inv(After(c, w, Restart(v)))
  {
    hide Unique, Stored, Lists;
    NextIdIsNewIff(c.capacity, w.files, v);
    ReloadedBatch(c.capacity, w.files, v);
  }

  // ---- Every run.

  ghost predicate IsRun(c: Config, ws: seq<World>, ops: seq<Op>) {
    && |ws| == |ops| + 1 && ws[0] == World(false, FRESH_LOG, map[], {}, {})
    && forall i :: 0 <= i < |ops| ==> Enabled(c, ws[i], ops[i]) && ws[i + 1] == After(c, ws[i], ops[i])
  }

  // While the process is down nothing is in flight and no batch is open.
  ghost predicate Quiet(w: World) {
    !w.up ==> w.inFlight == {} == w.pending && w.log == FRESH_LOG
  }

  lemma FreshId(w: World, detail: string)
    requires LogOk(w)
    ensures AuditEvent(w.log.nextId, detail) !in w.pending
  {
  }

  lemma StepKeepsInv(c: Config, w: World, op: Op)
    requires c.capacity > 0 && Inv(w) && Quiet(w) && Enabled(c, w, op)
    ensures Inv(After(c, w, op)) && Quiet(After(c, w, op))
  {
    hide Unique, Stored, Reloaded, IdsOk;
    var w' := After(c, w, op);
    match op
    case Persist(e, write) =>
      if write != Failed {
        WrittenKeepsInv(c, w, e, write);
      } else {
        RefusedKeepsInv(c, w, e);
      }
    case Restart(v) => RestartKeepsInv(c, w, v);
    case Allocate(detail) =>
      AllocateKeepsIds(w.files, Out(w), Refused(w.files, w.log), w.log.nextId, detail);
      assert Out(w') == Out(w) + {AuditEvent(w.log.nextId, detail)};
      FreshId(w, detail);
    case Push(e) => assert Out(w') == Out(w);
    case _ =>
  }

  lemma {:induction false} RunKeepsInv(c: Config, ws: seq<World>, ops: seq<Op>)
    requires c.capacity > 0 && IsRun(c, ws, ops)
    ensures Inv(ws[|ops|]) && Quiet(ws[|ops|])
    decreases |ops|
  {
    if ops != [] {
      var n := |ops| - 1;
      RunKeepsInv(c, ws[..n + 1], ops[..n]);
      StepKeepsInv(c, ws[n], ops[n]);
    }
  }

  // ---- Which events are stored.

  predicate Persists(op: Op, f: AuditEvent) {
    op.Persist? && op.event == f
  }

  // A persist task whose write comes through, whatever storage reports.
  predicate Writes(op: Op) {
    op.Persist? && op.write != Failed
  }

  // The event's persist task has run, and then, or later in the same life of the
  // process, a write came through.
  ghost predicate Landed(ops: seq<Op>, f: AuditEvent) {
    exists i, j :: 0 <= i <= j < |ops| && Persists(ops[i], f) && Writes(ops[j]) && NoCrash(ops, i, j)
  }

  ghost predicate NoCrash(ops: seq<Op>, i: int, j: int) {
    forall k :: 0 <= k < |ops| && i <= k <= j ==> ops[k] != Crash
  }

  // The event's persist task has run, and neither a write nor a crash has come since.
  ghost predicate Waits(ops: seq<Op>, f: AuditEvent) {
    exists i :: 0 <= i < |ops| && Persists(ops[i], f) && NothingSince(ops, i)
  }

  ghost predicate NothingSince(ops: seq<Op>, i: int) {
    forall k :: 0 <= k < |ops| && i <= k ==> ops[k] != Crash && !Writes(ops[k])
  }

  lemma LandedNext(ops: seq<Op>, op: Op, f: AuditEvent)
    ensures Landed(ops + [op], f) <==> Landed(ops, f) || (Writes(op) && (Persists(op, f) || Waits(ops, f)))
  {
    var ops', n := ops + [op], |ops|;
    if Landed(ops, f) {
      var i, j :| 0 <= i <= j < |ops| && Persists(ops[i], f) && Writes(ops[j]) && NoCrash(ops, i, j);
      assert Persists(ops'[i], f) && Writes(ops'[j]) && NoCrash(ops', i, j);
    }
    if Writes(op) && Persists(op, f) {
      assert Persists(ops'[n], f) && Writes(ops'[n]) && NoCrash(ops', n, n);
    }
    if Writes(op) && Waits(ops, f) {
      var i :| 0 <= i < |ops| && Persists(ops[i], f) && NothingSince(ops, i);
      assert Persists(ops'[i], f) && Writes(ops'[n]) && NoCrash(ops', i, n);
    }
    if Landed(ops', f) {
      var i, j :| 0 <= i <= j < |ops'| && Persists(ops'[i], f) && Writes(ops'[j]) && NoCrash(ops', i, j);
      LandedBefore(ops, op, f, i, j);
    }
  }

  lemma LandedBefore(ops: seq<Op>, op: Op, f: AuditEvent, i: nat, j: nat)
    requires i <= j <= |ops| && Persists((ops + [op])[i], f) && Writes((ops + [op])[j]) && NoCrash(ops + [op], i, j)
    ensures Landed(ops, f) || (Writes(op) && (Persists(op, f) || Waits(ops, f)))
  {
    var ops', n := ops + [op], |ops|;
    assert forall k :: 0 <= k < n ==> ops'[k] == ops[k];
    if j < n {
      assert Persists(ops[i], f) && Writes(ops[j]) && NoCrash(ops, i, j);
    } else if i < n {
      if k :| i <= k < n && Writes(ops[k]) {
        assert Persists(ops[i], f) && Writes(ops[k]) && NoCrash(ops, i, k);
      } else {
        assert Persists(ops[i], f) && NothingSince(ops, i);
      }
    }
  }

  lemma WaitsNext(ops: seq<Op>, op: Op, f: AuditEvent)
    ensures Waits(ops + [op], f) <==> op != Crash && !Writes(op) && (Persists(op, f) || Waits(ops, f))
  {
    var ops', n := ops + [op], |ops|;
    assert forall k :: 0 <= k < n ==> ops'[k] == ops[k];
    if Waits(ops', f) {
      var i :| 0 <= i < |ops'| && Persists(ops'[i], f) && NothingSince(ops', i);
      assert ops'[n] != Crash && !Writes(ops'[n]);
      assert i < n ==> Persists(ops[i], f) && NothingSince(ops, i);
    }
    if op != Crash && !Writes(op) && Persists(op, f) {
      assert Persists(ops'[n], f) && NothingSince(ops', n);
    }
    if op != Crash && !Writes(op) && Waits(ops, f) {
      var i :| 0 <= i < |ops| && Persists(ops[i], f) && NothingSince(ops, i);
      assert Persists(ops'[i], f) && NothingSince(ops', i);
    }
  }

  // One step stores what it writes, loses nothing, and keeps what is refused.
  lemma StepStores(c: Config, w: World, op: Op, f: AuditEvent)
    requires Inv(w) && Quiet(w) && Enabled(c, w, op)
    ensures var w' := After(c, w, op);
            var r := Refused(w.files, w.log);
            && (Stored(w'.files, f) <==> Stored(w.files, f) || (Writes(op) && (Persists(op, f) || f in r)))
            && (f in Refused(w'.files, w'.log) <==> op != Crash && !Writes(op) && (Persists(op, f) || f in r))
  {
    hide Stored, Unique, Reloaded;
    match op
    case Persist(e, write) =>
      if write != Failed {
        StoreBatch(w.files, w.log, e);
        NothingRefused(c, w, e, write);
      } else {
        var w' := After(c, w, op);
        assert Refused(w'.files, w'.log) == Refused(w.files, w.log) + [e];
      }
    case Restart(v) => ReloadedBatch(c.capacity, w.files, v);
    case _ =>
  }

  // Audit durability: in every run, an event is stored exactly if its persist task has
  // run and a write came through then or later before the next crash, however many
  // crashes, rotations and restarts came after; no id is stored twice; and the next id is
  // above every stored one.
  lemma {:induction false} DurableIff(c: Config, ws: seq<World>, ops: seq<Op>, f: AuditEvent)
    requires c.capacity > 0 && IsRun(c, ws, ops)
    ensures Stored(ws[|ops|].files, f) <==> Landed(ops, f)
    ensures f in Refused(ws[|ops|].files, ws[|ops|].log) <==> Waits(ops, f)
    ensures Unique(ws[|ops|].files)
    ensures ws[|ops|].up && Stored(ws[|ops|].files, f) ==> f.id < ws[|ops|].log.nextId
    decreases |ops|
  {
    hide Landed, Waits, Stored, Unique, Refused, Enabled, After;
    RunKeepsInv(c, ws, ops);
    if ops == [] {
      NothingYet(f);
    } else {
      var n := |ops| - 1;
      assert IsRun(c, ws[..n + 1], ops[..n]);
      RunKeepsInv(c, ws[..n + 1], ops[..n]);
      DurableIff(c, ws[..n + 1], ops[..n], f);
      StepStores(c, ws[n], ops[n], f);
      LandedNext(ops[..n], ops[n], f);
      WaitsNext(ops[..n], ops[n], f);
      assert ops == ops[..n] + [ops[n]];
    }
  }

  lemma NothingYet(f: AuditEvent)
    ensures !Landed([], f) && !Waits([], f) && !Stored(map[], f) && Refused(map[], FRESH_LOG) == []
  {
  }

  // If storage refuses nothing, every event whose persist task has run is stored.
  lemma AllWritten(ops: seq<Op>, f: AuditEvent)
    requires forall op :: op in ops && op.Persist? ==> op.write != Failed
    ensures Landed(ops, f) <==> exists op :: op in ops && Persists(op, f)
  {
    if op :| op in ops && Persists(op, f) {
      var i :| 0 <= i < |ops| && ops[i] == op;
      assert Persists(ops[i], f) && Writes(ops[i]) && NoCrash(ops, i, i);
    }
    if Landed(ops, f) {
      var i, j :| 0 <= i <= j < |ops| && Persists(ops[i], f) && Writes(ops[j]) && NoCrash(ops, i, j);
      assert ops[i] in ops;
    }
  }

  // And whenever the log restarts, its ring is exactly the last of the events that
  // landed, as many as fit, in id order.
  lemma RestartsExactly(c: Config, ws: seq<World>, ops: seq<Op>, v: LogView) returns (s: seq<AuditEvent>)
    requires c.capacity > 0 && IsRun(c, ws, ops) && Enabled(c, ws[|ops|], Restart(v))
    ensures StrictlySorted(s) && (forall e :: e in s <==> Landed(ops, e))
    ensures v.ring == TakeLast(s, c.capacity)
    ensures v.nextId == LastId(s) + 1
  {
    RunKeepsInv(c, ws, ops);
    s := ReloadIsExact(c.capacity, ws[|ops|].files, v);
    forall e
      ensures e in s <==> Landed(ops, e)
    {
      DurableIff(c, ws, ops, e);
    }
  }
}
