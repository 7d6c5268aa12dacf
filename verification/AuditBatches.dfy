// How audit events are divided into batch files.
module AuditBatches {
  import opened Bytes
  import opened Audit
  import opened AuditDurability

  // A hundred events, or 64 KiB.
  predicate Large(c: Config, batch: seq<AuditEvent>) {
    |batch| >= 100 || c.size(batch) >= 64 * 1024
  }

  // Every file but the one that is written now is large.
  ghost predicate ClosedAreFull(c: Config, w: World) {
    if w.up then forall k :: k in w.files && k < w.log.batchId ==> Large(c, w.files[k])
    else forall k, l :: k in w.files && l in w.files && k < l ==> Large(c, w.files[k])
  }

  // The open batch has room as long as storage reports no failure.
  ghost predicate HasRoom(w: World) {
    && (w.up ==> |w.log.batch| < 100)
    && forall k :: k in w.files ==> |w.files[k]| <= 100
  }

  lemma StepCloses(c: Config, w: World, op: Op)
    requires Inv(w) && ClosedAreFull(c, w) && Enabled(c, w, op)
    ensures ClosedAreFull(c, After(c, w, op))
  {
    hide Unique, Stored, Lists, IdsOk;
    match op
    case Restart(v) => RestartCloses(c, w, v);
    case Crash => CrashCloses(c, w);
    case _ =>
  }

  lemma CrashCloses(c: Config, w: World)
    requires Inv(w) && ClosedAreFull(c, w)
    ensures ClosedAreFull(c, After(c, w, Crash))
  {
    hide Unique, Stored, IdsOk;
  }

  lemma RestartCloses(c: Config, w: World, v: LogView)
    requires Inv(w) && ClosedAreFull(c, w) && Enabled(c, w, Restart(v))
    ensures ClosedAreFull(c, After(c, w, Restart(v)))
  {
    hide Unique, Stored, Lists, IdsOk;
    if !(w.files.Keys <= {0}) {
      var k: nat :| IsLatest(w.files, k)
                    && if |w.files[k]| < MAX_EVENTS_PER_BATCH then v.batch == w.files[k] && v.batchId == k
                       else v.batch == [] && v.batchId == k + 1;
      forall l | l in w.files && l < v.batchId
        ensures Large(c, w.files[l])
      {
        assert l == k || l < k;
      }
    } else {
      assert forall l :: l !in w.files;
    }
  }

  // In every run a batch file is given up only when it is large.
  lemma {:induction false} RunCloses(c: Config, ws: seq<World>, ops: seq<Op>)
    requires c.capacity > 0 && IsRun(c, ws, ops)
    ensures ClosedAreFull(c, ws[|ops|])
    decreases |ops|
  {
    hide ClosedAreFull, Inv, Enabled, After;
    if ops == [] {
      NothingClosed(c);
    } else {
      var n := |ops| - 1;
      RunCloses(c, ws[..n + 1], ops[..n]);
      RunKeepsInv(c, ws[..n + 1], ops[..n]);
      StepCloses(c, ws[n], ops[n]);
    }
  }

  lemma NothingClosed(c: Config)
    ensures ClosedAreFull(c, World(false, FRESH_LOG, map[], {}, {}))
  {
  }

  lemma StepHasRoom(c: Config, w: World, op: Op)
    requires Inv(w) && HasRoom(w) && Enabled(c, w, op) && (op.Persist? ==> op.write == Done)
    ensures HasRoom(After(c, w, op))
  {
    hide Unique, Stored, Lists, IdsOk;
  }

  // In a run in which storage reports no failure no file ever has more than a hundred events.
  lemma {:induction false} RunHasRoom(c: Config, ws: seq<World>, ops: seq<Op>)
    requires c.capacity > 0 && IsRun(c, ws, ops)
    requires forall i :: 0 <= i < |ops| && ops[i].Persist? ==> ops[i].write == Done
    ensures HasRoom(ws[|ops|])
    decreases |ops|
  {
    hide HasRoom, Inv, Enabled, After;
    if ops == [] {
      RoomAtFirst();
    } else {
      var n := |ops| - 1;
      RunHasRoom(c, ws[..n + 1], ops[..n]);
      RunKeepsInv(c, ws[..n + 1], ops[..n]);
      StepHasRoom(c, ws[n], ops[n]);
    }
  }

  lemma RoomAtFirst()
    ensures HasRoom(World(false, FRESH_LOG, map[], {}, {}))
  {
  }

  // In every run, right after a write that storage confirms, the open batch is not large.
  lemma ConfirmedIsSmall(c: Config, ws: seq<World>, ops: seq<Op>, i: nat)
    requires IsRun(c, ws, ops) && i < |ops| && ops[i].Persist? && ops[i].write == Done
    ensures ws[i + 1].log.batch == [] || !Large(c, ws[i + 1].log.batch)
  {
    assert Enabled(c, ws[i], ops[i]) && ws[i + 1] == After(c, ws[i], ops[i]);
  }
}
