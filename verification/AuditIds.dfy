// Audit ids: an id handed out before a crash can be handed out again after it, and
// exactly when.
module AuditIds {
  import opened Bytes
  import opened Audit
  import opened AuditDurability

  // Operation i hands out the id.
  predicate HandsOut(ws: seq<World>, ops: seq<Op>, i: nat, id: nat)
    requires i < |ops| < |ws|
  {
    ops[i].Allocate? && ws[i].log.nextId == id
  }

  ghost predicate Handed(ws: seq<World>, ops: seq<Op>, id: nat)
    requires |ops| < |ws|
  {
    exists i :: 0 <= i < |ops| && HandsOut(ws, ops, i, id)
  }

  // Nothing was handed out, or an event with the largest id handed out has landed.
  ghost predicate Covered(ws: seq<World>, ops: seq<Op>)
    requires |ops| < |ws|
  {
    || (forall id: nat :: !Handed(ws, ops, id))
    || exists e :: Landed(ops, e) && IsLargest(ws, ops, e.id)
  }

  ghost predicate IsLargest(ws: seq<World>, ops: seq<Op>, top: nat)
    requires |ops| < |ws|
  {
    Handed(ws, ops, top) && forall id: nat :: Handed(ws, ops, id) ==> id <= top
  }

  lemma RunBeginning(c: Config, ws: seq<World>, ops: seq<Op>, n: nat)
    requires IsRun(c, ws, ops) && n <= |ops|
    ensures IsRun(c, ws[..n + 1], ops[..n])
  {
  }

  lemma HandedBefore(ws: seq<World>, ops: seq<Op>, n: nat, id: nat)
    requires |ops| < |ws| && n <= |ops| && Handed(ws[..n + 1], ops[..n], id)
    ensures Handed(ws, ops, id)
  {
    var i :| 0 <= i < n && HandsOut(ws[..n + 1], ops[..n], i, id);
    assert HandsOut(ws, ops, i, id);
  }

  // ---- Within one life of the process.

  predicate NoRestart(ops: seq<Op>, a: nat, b: nat)
    requires a <= b <= |ops|
  {
    forall k :: a <= k < b ==> !ops[k].Restart?
  }

  // Without a restart in between the process has been up all the time, and ids go up.
  lemma {:induction false} LifeGoesOn(c: Config, ws: seq<World>, ops: seq<Op>, a: nat, b: nat)
    requires IsRun(c, ws, ops) && a <= b <= |ops| && NoRestart(ops, a, b) && ws[b].up
    ensures ws[a].up && ws[a].log.nextId <= ws[b].log.nextId
    ensures (forall k :: a <= k < b ==> !ops[k].Allocate?) ==> ws[a].log.nextId == ws[b].log.nextId
    ensures a < b && ops[a].Allocate? ==> ws[a].log.nextId < ws[b].log.nextId
    decreases b
  {
    if a < b {
      assert Enabled(c, ws[b - 1], ops[b - 1]) && ws[b] == After(c, ws[b - 1], ops[b - 1]);
      LifeGoesOn(c, ws, ops, a, b - 1);
    }
  }

  // Between restarts ids strictly increase.
  lemma IdsIncrease(c: Config, ws: seq<World>, ops: seq<Op>, i: nat, j: nat, id: nat, id': nat)
    requires IsRun(c, ws, ops) && i < j < |ops| && NoRestart(ops, i, j)
    requires HandsOut(ws, ops, i, id) && HandsOut(ws, ops, j, id')
    ensures id < id'
  {
    assert Enabled(c, ws[j], ops[j]);
    LifeGoesOn(c, ws, ops, i, j);
  }

  // ---- Where ids come from.

  lemma {:induction false} OutWasHanded(c: Config, ws: seq<World>, ops: seq<Op>, e: AuditEvent)
    requires IsRun(c, ws, ops) && e in Out(ws[|ops|])
    ensures Handed(ws, ops, e.id)
    decreases |ops|
  {
    var n := |ops| - 1;
    assert Enabled(c, ws[n], ops[n]) && ws[n + 1] == After(c, ws[n], ops[n]);
    if e in Out(ws[n]) {
      RunBeginning(c, ws, ops, n);
      OutWasHanded(c, ws[..n + 1], ops[..n], e);
      HandedBefore(ws, ops, n, e.id);
    } else {
      assert HandsOut(ws, ops, n, e.id);
    }
  }

  // Whatever landed had been handed out.
  lemma LandedWasHanded(c: Config, ws: seq<World>, ops: seq<Op>, e: AuditEvent)
    requires IsRun(c, ws, ops) && Landed(ops, e)
    ensures Handed(ws, ops, e.id)
  {
    var i, j :| 0 <= i <= j < |ops| && Persists(ops[i], e) && Writes(ops[j]) && NoCrash(ops, i, j);
    assert Enabled(c, ws[i], ops[i]);
    RunBeginning(c, ws, ops, i);
    assert ws[..i + 1][i] == ws[i];
    OutWasHanded(c, ws[..i + 1], ops[..i], e);
    HandedBefore(ws, ops, i, e.id);
  }

  lemma HandedIsPositive(c: Config, ws: seq<World>, ops: seq<Op>, id: nat)
    requires c.capacity > 0 && IsRun(c, ws, ops) && Handed(ws, ops, id)
    ensures id >= 1
  {
    var i :| 0 <= i < |ops| && HandsOut(ws, ops, i, id);
    assert Enabled(c, ws[i], ops[i]);
    RunBeginning(c, ws, ops, i);
    RunKeepsInv(c, ws[..i + 1], ops[..i]);
  }

  // Every id below the next one has been handed out: ids leave no gap.
  lemma {:induction false} NoGap(c: Config, ws: seq<World>, ops: seq<Op>, x: nat)
    requires c.capacity > 0 && IsRun(c, ws, ops) && ws[|ops|].up && 1 <= x < ws[|ops|].log.nextId
    ensures Handed(ws, ops, x)
    decreases |ops|
  {
    hide Reloaded, Landed;
    var n := |ops| - 1;
    assert Enabled(c, ws[n], ops[n]) && ws[n + 1] == After(c, ws[n], ops[n]);
    RunBeginning(c, ws, ops, n);
    if ops[n].Restart? {
      NoGapAtRestart(c, ws, ops, x);
    } else if ops[n].Allocate? && x == ws[n].log.nextId {
      assert HandsOut(ws, ops, n, x);
    } else {
      NoGap(c, ws[..n + 1], ops[..n], x);
      HandedBefore(ws, ops, n, x);
    }
  }

  lemma NoGapAtRestart(c: Config, ws: seq<World>, ops: seq<Op>, x: nat)
    requires c.capacity > 0 && IsRun(c, ws, ops) && ops != [] && ops[|ops| - 1].Restart?
    requires 1 <= x < ws[|ops|].log.nextId
    ensures Handed(ws, ops, x)
    decreases |ops|, 0
  {
    hide Reloaded, Landed;
    var n := |ops| - 1;
    assert Enabled(c, ws[n], ops[n]) && ws[n + 1] == After(c, ws[n], ops[n]);
    RunBeginning(c, ws, ops, n);
    assert ws[..n + 1][n] == ws[n];
    var s := RestartsExactly(c, ws[..n + 1], ops[..n], ops[n].log);
    LandedWasHanded(c, ws[..n + 1], ops[..n], s[|s| - 1]);
    HandedBefore(ws, ops, n, LastId(s));
    HandedBelow(c, ws, ops, n, LastId(s), x);
  }

  // What is below an id handed out has been handed out.
  lemma HandedBelow(c: Config, ws: seq<World>, ops: seq<Op>, n: nat, id: nat, x: nat)
    requires c.capacity > 0 && IsRun(c, ws, ops) && n < |ops| && Handed(ws[..n + 1], ops[..n], id) && 1 <= x <= id
    ensures Handed(ws, ops, x)
    decreases n
  {
    var i :| 0 <= i < n && HandsOut(ws[..n + 1], ops[..n], i, id);
    if x == id {
      assert HandsOut(ws, ops, i, id);
    } else {
      assert Enabled(c, ws[i], ops[i]);
      RunBeginning(c, ws, ops, i);
      assert ws[..i + 1][i] == ws[i];
      NoGap(c, ws[..i + 1], ops[..i], x);
      HandedBefore(ws, ops, i, x);
    }
  }

  // ---- What a restart does.

  // After a restart the next id is above all that were handed out, exactly if nothing
  // was, or an event with the largest of them had landed.
  lemma RestartAboveIff(c: Config, ws: seq<World>, ops: seq<Op>, v: LogView)
    requires c.capacity > 0 && IsRun(c, ws, ops) && Enabled(c, ws[|ops|], Restart(v))
    ensures (forall id: nat :: Handed(ws, ops, id) ==> id < v.nextId) <==> Covered(ws, ops)
  {
    hide Reloaded, Landed, Handed;
    var s := RestartsExactly(c, ws, ops, v);
    if Covered(ws, ops) && exists id: nat :: Handed(ws, ops, id) {
      var e :| Landed(ops, e) && IsLargest(ws, ops, e.id);
      LastIsGreatest(s, e);
    }
    if (forall id: nat :: Handed(ws, ops, id) ==> id < v.nextId) && exists id: nat :: Handed(ws, ops, id) {
      var id: nat :| Handed(ws, ops, id);
      HandedIsPositive(c, ws, ops, id);
      var e := s[|s| - 1];
      LandedWasHanded(c, ws, ops, e);
      assert IsLargest(ws, ops, e.id);
    }
  }

  lemma LastIsGreatest(s: seq<AuditEvent>, e: AuditEvent)
    requires StrictlySorted(s) && e in s
    ensures e.id <= LastId(s)
  {
    var i :| 0 <= i < |s| && s[i] == e;
    assert i == |s| - 1 || s[i].id < s[|s| - 1].id;
  }

  // And the next id is one that was handed out before, exactly if it is not so.
  lemma RestartReusesIff(c: Config, ws: seq<World>, ops: seq<Op>, v: LogView)
    requires c.capacity > 0 && IsRun(c, ws, ops) && Enabled(c, ws[|ops|], Restart(v))
    ensures Handed(ws, ops, v.nextId) <==> !Covered(ws, ops)
  {
    hide Reloaded, Landed, Covered;
    RestartAboveIff(c, ws, ops, v);
    var s := RestartsExactly(c, ws, ops, v);
    if id: nat :| Handed(ws, ops, id) && v.nextId <= id {
      HandedBelowAll(c, ws, ops, id, v.nextId);
    }
  }

  lemma HandedBelowAll(c: Config, ws: seq<World>, ops: seq<Op>, id: nat, x: nat)
    requires c.capacity > 0 && IsRun(c, ws, ops) && Handed(ws, ops, id) && 1 <= x <= id
    ensures Handed(ws, ops, x)
  {
    var i :| 0 <= i < |ops| && HandsOut(ws, ops, i, id);
    if x < id {
      assert Enabled(c, ws[i], ops[i]);
      RunBeginning(c, ws, ops, i);
      assert ws[..i + 1][i] == ws[i];
      NoGap(c, ws[..i + 1], ops[..i], x);
      HandedBefore(ws, ops, i, x);
    }
  }

  // ---- Whole runs.

  // No two operations hand out the same id.
  ghost predicate NeverReused(ws: seq<World>, ops: seq<Op>)
    requires |ops| < |ws|
  {
    forall i: nat, j: nat, id: nat :: i < j < |ops| && HandsOut(ws, ops, i, id) ==> !HandsOut(ws, ops, j, id)
  }

  // The restart at k is followed by a hand-out before any further restart, at j.
  predicate UsedAt(ops: seq<Op>, k: nat, j: nat) {
    k < j < |ops| && ops[k].Restart? && ops[j].Allocate? && NoRestart(ops, k + 1, j)
  }

  // Every restart after which an id is handed out finds the largest id handed out landed.
  ghost predicate AlwaysCovered(ws: seq<World>, ops: seq<Op>)
    requires |ops| < |ws|
  {
    forall k, j :: 0 <= k < j && UsedAt(ops, k, j) ==> Covered(ws[..k + 1], ops[..k])
  }

  lemma {:induction false} LastRestart(ops: seq<Op>, i: nat, j: nat) returns (k: nat)
    requires i <= j <= |ops| && !NoRestart(ops, i, j)
    ensures i <= k < j && ops[k].Restart? && NoRestart(ops, k + 1, j)
    decreases j
  {
    if ops[j - 1].Restart? {
      k := j - 1;
    } else {
      k := LastRestart(ops, i, j - 1);
    }
  }

  lemma {:induction false} FirstUse(ops: seq<Op>, k: nat, j: nat) returns (m: nat)
    requires UsedAt(ops, k, j)
    ensures UsedAt(ops, k, m) && forall l :: k < l < m ==> !ops[l].Allocate?
    decreases j
  {
    if l :| k < l < j && ops[l].Allocate? {
      m := FirstUse(ops, k, l);
    } else {
      m := j;
    }
  }

  // Before and after a restart that finds everything landed, ids differ.
  lemma ApartAcross(c: Config, ws: seq<World>, ops: seq<Op>, i: nat, k: nat, j: nat, id: nat)
    requires c.capacity > 0 && IsRun(c, ws, ops) && i < k && UsedAt(ops, k, j) && HandsOut(ws, ops, i, id)
    ensures Covered(ws[..k + 1], ops[..k]) ==> id < ws[j].log.nextId
  {
    hide Reloaded, Covered;
    assert Enabled(c, ws[k], ops[k]) && ws[k + 1] == After(c, ws[k], ops[k]) && Enabled(c, ws[j], ops[j]);
    LifeGoesOn(c, ws, ops, k + 1, j);
    RunBeginning(c, ws, ops, k);
    assert ws[..k + 1][k] == ws[k];
    RestartAboveIff(c, ws[..k + 1], ops[..k], ops[k].log);
    assert HandsOut(ws[..k + 1], ops[..k], i, id);
    assert Handed(ws[..k + 1], ops[..k], id);
  }

  // After a restart that finds something missing, the first id handed out is an old one.
  lemma ReusedAcross(c: Config, ws: seq<World>, ops: seq<Op>, k: nat, j: nat)
    requires c.capacity > 0 && IsRun(c, ws, ops) && UsedAt(ops, k, j)
    ensures NeverReused(ws, ops) ==> Covered(ws[..k + 1], ops[..k])
  {
    hide Reloaded, Covered;
    var m := FirstUse(ops, k, j);
    assert Enabled(c, ws[k], ops[k]) && ws[k + 1] == After(c, ws[k], ops[k]) && Enabled(c, ws[m], ops[m]);
    LifeGoesOn(c, ws, ops, k + 1, m);
    RunBeginning(c, ws, ops, k);
    assert ws[..k + 1][k] == ws[k];
    RestartReusesIff(c, ws[..k + 1], ops[..k], ops[k].log);
    var id := ws[m].log.nextId;
    assert HandsOut(ws, ops, m, id);
    if !Covered(ws[..k + 1], ops[..k]) {
      var i :| 0 <= i < k && HandsOut(ws[..k + 1], ops[..k], i, id);
      assert HandsOut(ws, ops, i, id);
    }
  }

  // A run never hands out an id twice, exactly if every restart that is followed by a
  // hand-out finds that nothing was handed out or that the largest id has landed.
  lemma NeverReusedIff(c: Config, ws: seq<World>, ops: seq<Op>)
    requires c.capacity > 0 && IsRun(c, ws, ops)
    ensures NeverReused(ws, ops) <==> AlwaysCovered(ws, ops)
  {
    hide Covered;
    if AlwaysCovered(ws, ops) {
      forall i: nat, j: nat, id: nat | i < j < |ops| && HandsOut(ws, ops, i, id)
        ensures !HandsOut(ws, ops, j, id)
      {
        if ops[j].Allocate? {
          if NoRestart(ops, i, j) {
            IdsIncrease(c, ws, ops, i, j, id, ws[j].log.nextId);
          } else {
            var k := LastRestart(ops, i, j);
            assert UsedAt(ops, k, j);
            ApartAcross(c, ws, ops, i, k, j, id);
          }
        }
      }
    }
    if NeverReused(ws, ops) {
      forall k, j | 0 <= k < j && UsedAt(ops, k, j)
        ensures Covered(ws[..k + 1], ops[..k])
      {
        ReusedAcross(c, ws, ops, k, j);
      }
    }
  }

  // ---- An id that comes again.

  lemma FreshReload(capacity: nat)
    ensures Reloaded(capacity, map[], FRESH_LOG)
  {
    var none: seq<AuditEvent> := [];
    assert Lists(none, map[]) && FRESH_LOG.ring == TakeLast(none, capacity);
  }

  // A crash between the hand-out and the write: two different events with id 1.
  lemma IdComesAgain(c: Config) returns (ws: seq<World>, ops: seq<Op>)
    ensures IsRun(c, ws, ops) && |ops| == 5 && ops[1] == Allocate("a") && ops[4] == Allocate("b")
    ensures HandsOut(ws, ops, 1, 1) && HandsOut(ws, ops, 4, 1)
  {
    hide Reloaded;
    FreshReload(c.capacity);
    var down := World(false, FRESH_LOG, map[], {}, {});
    var up := down.(up := true);
    var more := FRESH_LOG.(nextId := 2);
    ws := [down, up, up.(log := more, inFlight := {AuditEvent(1, "a")}), down, up,
           up.(log := more, inFlight := {AuditEvent(1, "b")})];
    ops := [Restart(FRESH_LOG), Allocate("a"), Crash, Restart(FRESH_LOG), Allocate("b")];
  }
}
