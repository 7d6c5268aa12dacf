// What becomes of idle connections: who waits, who is handed out, and who is dropped.
module IdleConnections {
  import opened Bytes
  import opened Pool

  // The connection waits in some slot.
  ghost predicate Waits(v: PoolView, c: Conn) {
    exists s :: IsSlot(v, s) && At(v, s) == c
  }

  // The connection still points at the leader, or at one of the standbys.
  predicate Fits(v: PoolView, c: Conn) {
    if c.role == LeaderRole then v.leaderAddr == Some(c.addr) else c.addr in v.standbyAddrs
  }

  function QueueFor(v: PoolView, c: Conn): seq<Conn> {
    if c.role == LeaderRole then v.idleLeaders else
    if c.addr in v.idleStandbys then v.idleStandbys[c.addr] else []
  }

  // ---- Releases.

  // A connection given back waits in the pool exactly if it fits the topology and its queue
  // has room; and everybody else waits as before.
  lemma GivenBackWaitsIff(w: World, c: Conn)
    requires Inv(w) && c in w.used
    ensures var v' := After(w, GiveBack(c)).pool;
            && (Waits(v', c) <==> Fits(w.pool, c) && |QueueFor(w.pool, c)| < w.pool.maxIdle)
            && forall d :: d != c ==> (Waits(v', d) <==> Waits(w.pool, d))
  {
    var v, v' := w.pool, Released(w.pool, c);
    if Fits(v, c) && |QueueFor(v, c)| < v.maxIdle {
      var slot := if c.role == LeaderRole then LeaderSlot(|v.idleLeaders|) else StandbySlot(c.addr, |QueueFor(v, c)|);
      assert IsSlot(v', slot) && At(v', slot) == c;
    }
    ReleasedSlots(v, c);
    KeptByRelease(v, c);
    forall d | Waits(v', d)
      ensures Waits(v, d) || (d == c && Fits(v, c) && |QueueFor(v, c)| < v.maxIdle)
    {
      var s :| IsSlot(v', s) && At(v', s) == d;
      if !(Fits(v, c) && |QueueFor(v, c)| < v.maxIdle) {
        DroppedByRelease(v, c, s);
      }
    }
    forall d | Waits(v, d)
      ensures Waits(v', d)
    {
      var s :| IsSlot(v, s) && At(v, s) == d;
      assert IsSlot(v', s);
    }
    assert !Waits(v, c);
  }

  lemma KeptByRelease(v: PoolView, c: Conn)
    ensures forall s :: IsSlot(v, s) ==> IsSlot(Released(v, c), s) && At(Released(v, c), s) == At(v, s)
  {
  }

  lemma DroppedByRelease(v: PoolView, c: Conn, s: Slot)
    requires !(Fits(v, c) && |QueueFor(v, c)| < v.maxIdle) && IsSlot(Released(v, c), s)
    ensures IsSlot(v, s) && At(Released(v, c), s) == At(v, s)
  {
  }

  // ---- Topology changes.

  // A topology change keeps exactly the idle connections that fit the new topology.
  lemma TopologyKeepsIff(v: PoolView, leader: Option<string>, standbys: seq<string>, c: Conn)
    requires Routed(v)
    ensures var v' := WithTopology(v, leader, standbys);
            Waits(v', c) <==> Waits(v, c) && Fits(v', c)
  {
    var v' := WithTopology(v, leader, standbys);
    FewerSlots(v, leader, standbys);
    if Waits(v', c) {
      var s :| IsSlot(v', s) && At(v', s) == c;
      assert IsSlot(v, s) && At(v, s) == c;
    }
    if Waits(v, c) && Fits(v', c) {
      var s :| IsSlot(v, s) && At(v, s) == c;
      assert IsSlot(v', s) && At(v', s) == c;
    }
  }

  // ---- Acquires.

  // Whom an acquire is for: the leader, or the standby whose turn it is; reads go to the
  // leader only when there is no standby.
  function TargetOf(v: PoolView, role: BackendRole): Option<(BackendRole, string)> {
    if role == StandbyRole && v.standbyAddrs != []
    then Some((StandbyRole, v.standbyAddrs[v.rrIndex % |v.standbyAddrs|]))
    else if v.leaderAddr.Some? then Some((LeaderRole, v.leaderAddr.value)) else None
  }

  // The pool hands out a waiting connection of the target whenever there is one, the one
  // that has waited longest; it dials the target only when there is none; and it has nothing
  // to offer exactly when nobody is registered.
  lemma TakesIff(v: PoolView, role: BackendRole)
    requires Routed(v)
    ensures var pick := Take(v, role).1;
            && (pick == Unavailable <==> TargetOf(v, role) == None)
            && (TargetOf(v, role).Some? ==>
                  var (r, addr) := TargetOf(v, role).value;
                  var q := if r == LeaderRole then v.idleLeaders
                           else if addr in v.idleStandbys then v.idleStandbys[addr] else [];
                  && (forall c :: Waits(v, c) && c.role == r && c.addr == addr <==> c in q)
                  && pick == (if q == [] then Dial(addr) else Reuse(q[0])))
  {
    if TargetOf(v, role).Some? {
      var (r, addr) := TargetOf(v, role).value;
      var q := if r == LeaderRole then v.idleLeaders
               else if addr in v.idleStandbys then v.idleStandbys[addr] else [];
      forall c
        ensures Waits(v, c) && c.role == r && c.addr == addr <==> c in q
      {
        QueueHolds(v, r, addr, c);
      }
    }
  }

  lemma QueueHolds(v: PoolView, r: BackendRole, addr: string, c: Conn)
    requires Routed(v) && (r == LeaderRole ==> v.leaderAddr == Some(addr))
    ensures var q := if r == LeaderRole then v.idleLeaders
                     else if addr in v.idleStandbys then v.idleStandbys[addr] else [];
            Waits(v, c) && c.role == r && c.addr == addr <==> c in q
  {
    var q := if r == LeaderRole then v.idleLeaders
             else if addr in v.idleStandbys then v.idleStandbys[addr] else [];
    if c in q {
      var i :| 0 <= i < |q| && q[i] == c;
      var s := if r == LeaderRole then LeaderSlot(i) else StandbySlot(addr, i);
      assert IsSlot(v, s) && At(v, s) == c;
    }
    if Waits(v, c) && c.role == r && c.addr == addr {
      var s :| IsSlot(v, s) && At(v, s) == c;
      match s
      case LeaderSlot(i) => assert v.idleLeaders[i] == c;
      case StandbySlot(a, i) => assert v.idleStandbys[a][i] == c;
    }
  }

  // ---- Drains.

  ghost predicate NobodyWaits(v: PoolView) {
    forall s :: !IsSlot(v, s)
  }

  lemma NobodyNext(w: World, e: Event)
    requires NobodyWaits(w.pool) && Enabled(w, e) && !e.GiveBack?
    ensures NobodyWaits(After(w, e).pool)
  {
    match e
    case Topology(leader, standbys) => FewerSlots(w.pool, leader, standbys);
    case Acquire(role, _) => NothingToTake(w.pool, role);
    case _ =>
  }

  lemma NothingToTake(v: PoolView, role: BackendRole)
    requires NobodyWaits(v)
    ensures !Take(v, role).1.Reuse? && NobodyWaits(Take(v, role).0)
  {
    assert !IsSlot(v, LeaderSlot(0));
    if role == StandbyRole && v.standbyAddrs != [] {
      var addr := v.standbyAddrs[v.rrIndex % |v.standbyAddrs|];
      assert !IsSlot(v, StandbySlot(addr, 0));
    }
    SameSlots(v, role);
  }

  // After a drain every acquire dials, or finds nobody registered, until a connection is
  // given back.
  lemma {:induction false} DrainedDials(maxIdle: nat, ws: seq<World>, es: seq<Event>, n: nat, m: nat, role: BackendRole)
    requires IsRun(maxIdle, ws, es) && n < m <= |es| && es[n] == Drain
    requires forall k :: n < k < m ==> !es[k].GiveBack?
    ensures NobodyWaits(ws[m].pool) && !Take(ws[m].pool, role).1.Reuse?
    decreases m
  {
    assert Enabled(ws[m - 1], es[m - 1]) && ws[m] == After(ws[m - 1], es[m - 1]);
    if n + 1 < m {
      DrainedDials(maxIdle, ws, es, n, m - 1, role);
      NobodyNext(ws[m - 1], es[m - 1]);
    }
    NothingToTake(ws[m].pool, role);
  }

  // Every topology change and every drain changes the version that waiting sessions watch.
  lemma Announced(v: PoolView, leader: Option<string>, standbys: seq<string>)
    requires v.version < USIZE
    ensures WithTopology(v, leader, standbys).version != v.version && Drained(v).version != v.version
  {
  }
}
