// The connection pool: idle queues that follow the cluster's topology.
module Pool {
  import opened Bytes

  datatype BackendRole = LeaderRole | StandbyRole

  // Whom a connection was opened for.
  datatype Login = Login(user: Option<string>, database: Option<string>)

  datatype Conn = Conn(id: nat, role: BackendRole, addr: string, login: Login)

  const USIZE: int := 0x1_0000_0000_0000_0000

  datatype PoolView = PoolView(
    leaderAddr: Option<string>,
    standbyAddrs: seq<string>,
    rrIndex: nat,
    idleLeaders: seq<Conn>,
    idleStandbys: map<string, seq<Conn>>,
    maxIdle: nat,
    version: nat)

  // What an acquire finds under the lock: an idle connection, an address to dial, or nothing.
  datatype Pick = Reuse(conn: Conn) | Dial(addr: string) | Unavailable

  function Bump(n: nat): nat {
    (n + 1) % USIZE
  }

  function WithTopology(v: PoolView, leader: Option<string>, standbys: seq<string>): PoolView {
    v.(leaderAddr := leader,
       idleLeaders := if v.leaderAddr == leader then v.idleLeaders else [],
       idleStandbys := map a | a in v.idleStandbys && a in standbys :: v.idleStandbys[a],
       standbyAddrs := standbys, rrIndex := 0, version := Bump(v.version))
  }

  function Drained(v: PoolView): PoolView {
    v.(idleLeaders := [], idleStandbys := map[], version := Bump(v.version))
  }

  function TakeLeader(v: PoolView, addr: string): (PoolView, Pick) {
    if v.idleLeaders == [] then (v, Dial(addr))
    else (v.(idleLeaders := v.idleLeaders[1..]), Reuse(v.idleLeaders[0]))
  }

  function TakeStandby(v: PoolView): (PoolView, Pick)
    requires v.standbyAddrs != []
  {
    var addr := v.standbyAddrs[v.rrIndex % |v.standbyAddrs|];
    var v1 := v.(rrIndex := Bump(v.rrIndex));
    if addr in v.idleStandbys && v.idleStandbys[addr] != [] then
      (v1.(idleStandbys := v.idleStandbys[addr := v.idleStandbys[addr][1..]]), Reuse(v.idleStandbys[addr][0]))
    else (v1, Dial(addr))
  }

  // Reads fall back to the leader only when no standby is registered.
  function Take(v: PoolView, role: BackendRole): (PoolView, Pick) {
    if role == StandbyRole && v.standbyAddrs != [] then TakeStandby(v)
    else if v.leaderAddr == None then (v, Unavailable)
    else TakeLeader(v, v.leaderAddr.value)
  }

  // A connection that no longer fits the topology, or finds its queue full, is dropped.
  function Released(v: PoolView, c: Conn): PoolView {
    match c.role
    case LeaderRole =>
      if v.leaderAddr == Some(c.addr) && |v.idleLeaders| < v.maxIdle then v.(idleLeaders := v.idleLeaders + [c]) else v
    case StandbyRole =>
      if c.addr !in v.standbyAddrs then v else
      var queue := if c.addr in v.idleStandbys then v.idleStandbys[c.addr] else [];
      v.(idleStandbys := v.idleStandbys[c.addr := if |queue| < v.maxIdle then queue + [c] else queue])
  }

  class ConnectionPool {
    var leaderAddr: Option<string>
    var standbyAddrs: seq<string>
    var rrIndex: nat
    var idleLeaders: seq<Conn>
    var idleStandbys: map<string, seq<Conn>>
    const maxIdle: nat
    var version: nat

    ghost function View(): PoolView
      reads this
    {
      PoolView(leaderAddr, standbyAddrs, rrIndex, idleLeaders, idleStandbys, maxIdle, version)
    }

    constructor (maxIdlePerNode: nat)
      ensures View() == PoolView(None, [], 0, [], map[], maxIdlePerNode, 0)
    {
      leaderAddr, standbyAddrs, rrIndex, idleLeaders, idleStandbys, maxIdle, version :=
        None, [], 0, [], map[], maxIdlePerNode, 0;
    }

    method UpdateTopology(leader: Option<string>, standbys: seq<string>)
      modifies this
      ensures View() == WithTopology(old(View()), leader, standbys)
    {
      if leaderAddr != leader {
        idleLeaders := [];
        leaderAddr := leader;
      }
      idleStandbys := map a | a in idleStandbys && a in standbys :: idleStandbys[a];
      standbyAddrs := standbys;
      rrIndex := 0;
      version := Bump(version);
    }

    method DrainAll()
      modifies this
      ensures View() == Drained(old(View()))
    {
      idleLeaders := [];
      idleStandbys := map[];
      version := Bump(version);
    }

    // The locked part of an acquire.
    method PickFor(role: BackendRole) returns (pick: Pick)
      modifies this
      ensures (View(), pick) == Take(old(View()), role)
    {
      match role
      case LeaderRole =>
        if leaderAddr == None {
          return Unavailable;
        }
        pick := PopLeader(leaderAddr.value);
      case StandbyRole =>
        if standbyAddrs != [] {
          var target := rrIndex % |standbyAddrs|;
          rrIndex := Bump(rrIndex);
          var addr := standbyAddrs[target];
          if addr in idleStandbys && idleStandbys[addr] != [] {
            pick := Reuse(idleStandbys[addr][0]);
            idleStandbys := idleStandbys[addr := idleStandbys[addr][1..]];
          } else {
            pick := Dial(addr);
          }
        } else if leaderAddr.Some? {
          pick := PopLeader(leaderAddr.value);
        } else {
          return Unavailable;
        }
    }

    method PopLeader(addr: string) returns (pick: Pick)
      modifies this`idleLeaders
      ensures (View(), pick) == TakeLeader(old(View()), addr)
    {
      if idleLeaders == [] {
        return Dial(addr);
      }
      pick := Reuse(idleLeaders[0]);
      idleLeaders := idleLeaders[1..];
    }

    method Release(c: Conn)
      modifies this
      ensures View() == Released(old(View()), c)
    {
      match c.role
      case LeaderRole =>
        if leaderAddr == Some(c.addr) && |idleLeaders| < maxIdle {
          idleLeaders := idleLeaders + [c];
        }
      case StandbyRole =>
        if c.addr in standbyAddrs {
          if c.addr !in idleStandbys {
            idleStandbys := idleStandbys[c.addr := []];
          }
          var queue := idleStandbys[c.addr];
          if |queue| < maxIdle {
            idleStandbys := idleStandbys[c.addr := queue + [c]];
          }
        }
    }
  }

  // ---- The pool among its sessions.

  // Where an idle connection waits.
  datatype Slot = LeaderSlot(i: nat) | StandbySlot(addr: string, i: nat)

  predicate IsSlot(v: PoolView, s: Slot) {
    match s
    case LeaderSlot(i) => i < |v.idleLeaders|
    case StandbySlot(a, i) => a in v.idleStandbys && i < |v.idleStandbys[a]|
  }

  function At(v: PoolView, s: Slot): Conn
    requires IsSlot(v, s)
  {
    match s
    case LeaderSlot(i) => v.idleLeaders[i]
    case StandbySlot(a, i) => v.idleStandbys[a][i]
  }

  // The pool, the connections that sessions hold, and the number of the next new one.
  datatype World = World(pool: PoolView, used: set<Conn>, next: nat)

  datatype Event =
    | Topology(leader: Option<string>, standbys: seq<string>)
    | Drain
    | Acquire(role: BackendRole, wanted: Login)  // the locked part
    | Connected(role: BackendRole, addr: string, wanted: Login)  // a dial that came through, maybe to an outdated address
    | GiveBack(conn: Conn)
    | Lost(conn: Conn)                         // a session drops a broken connection

  predicate Enabled(w: World, e: Event) {
    match e
    case GiveBack(c) => c in w.used
    case Lost(c) => c in w.used
    case _ => true
  }

  function After(w: World, e: Event): World
    requires Enabled(w, e)
  {
    match e
    case Topology(leader, standbys) => w.(pool := WithTopology(w.pool, leader, standbys))
    case Drain => w.(pool := Drained(w.pool))
    case Acquire(role, _) =>
      var (v, pick) := Take(w.pool, role);
      World(v, if pick.Reuse? then w.used + {pick.conn} else w.used, w.next)
    case Connected(role, addr, wanted) =>
      w.(used := w.used + {Conn(w.next, role, addr, wanted)}, next := w.next + 1)
    case GiveBack(c) => w.(pool := Released(w.pool, c), used := w.used - {c})
    case Lost(c) => w.(used := w.used - {c})
  }

  // Idle connections fit the topology: a leader's point at the current leader, a
  // standby's wait under their own address, which is a current standby's.
  ghost predicate Routed(v: PoolView) {
    && (forall i :: 0 <= i < |v.idleLeaders| ==>
          v.idleLeaders[i].role == LeaderRole && v.leaderAddr == Some(v.idleLeaders[i].addr))
    && (forall a :: a in v.idleStandbys ==> a in v.standbyAddrs && QueueOf(v.idleStandbys[a], a))
  }

  ghost predicate QueueOf(q: seq<Conn>, a: string) {
    forall i :: 0 <= i < |q| ==> q[i].role == StandbyRole && q[i].addr == a
  }

  ghost predicate Capped(v: PoolView) {
    |v.idleLeaders| <= v.maxIdle && forall a :: a in v.idleStandbys ==> |v.idleStandbys[a]| <= v.maxIdle
  }

  // No connection waits in two slots, none is both idle and in use, and new ones are new.
  ghost predicate Owned(w: World) {
    && (forall s, t :: IsSlot(w.pool, s) && IsSlot(w.pool, t) && At(w.pool, s).id == At(w.pool, t).id ==> s == t)
    && (forall s :: IsSlot(w.pool, s) ==> At(w.pool, s).id < w.next)
    && (forall c :: c in w.used ==> c.id < w.next)
    && (forall c, d :: c in w.used && d in w.used && c.id == d.id ==> c == d)
    && (forall s, c :: IsSlot(w.pool, s) && c in w.used ==> At(w.pool, s).id != c.id)
  }

  ghost predicate Inv(w: World) {
    Routed(w.pool) && Capped(w.pool) && Owned(w)
  }

  // ---- Every event keeps it.

  lemma TakeKeepsRouting(v: PoolView, role: BackendRole)
    requires Routed(v) && Capped(v)
    ensures Routed(Take(v, role).0) && Capped(Take(v, role).0)
  {
  }

  lemma ReleaseKeepsRouting(v: PoolView, c: Conn)
    requires Routed(v) && Capped(v)
    ensures Routed(Released(v, c)) && Capped(Released(v, c))
  {
  }

  // Every slot of a changed pool comes from a slot of the old one, no two from the same.
  ghost predicate Shrinks(v: PoolView, v': PoolView, from: Slot -> Slot) {
    && (forall s :: IsSlot(v', s) ==> IsSlot(v, from(s)) && At(v', s) == At(v, from(s)))
    && (forall s, t :: IsSlot(v', s) && IsSlot(v', t) && from(s) == from(t) ==> s == t)
  }

  lemma ShrinkKeepsOwned(w: World, v': PoolView, from: Slot -> Slot)
    requires Owned(w) && Shrinks(w.pool, v', from)
    ensures Owned(w.(pool := v'))
  {
    forall s, t | IsSlot(v', s) && IsSlot(v', t) && At(v', s).id == At(v', t).id
      ensures s == t
    {
      assert from(s) == from(t);
    }
  }

  function ShiftLeader(s: Slot): Slot {
    if s.LeaderSlot? then LeaderSlot(s.i + 1) else s
  }

  function ShiftStandby(addr: string, s: Slot): Slot {
    if s.StandbySlot? && s.addr == addr then StandbySlot(addr, s.i + 1) else s
  }

  // The slot an acquire empties, and where the other slots moved from.
  function TakenFrom(v: PoolView, role: BackendRole): (r: (Slot, Slot -> Slot))
    requires Take(v, role).1.Reuse?
    ensures IsSlot(v, r.0) && At(v, r.0) == Take(v, role).1.conn
    ensures Shrinks(v, Take(v, role).0, r.1)
    ensures forall s :: IsSlot(Take(v, role).0, s) ==> r.1(s) != r.0
  {
    if role == StandbyRole && v.standbyAddrs != [] then
      var addr := v.standbyAddrs[v.rrIndex % |v.standbyAddrs|];
      (StandbySlot(addr, 0), (s: Slot) => ShiftStandby(addr, s))
    else (LeaderSlot(0), (s: Slot) => ShiftLeader(s))
  }

  lemma SlotToSession(w: World, v': PoolView, slot: Slot, from: Slot -> Slot)
    requires Owned(w) && IsSlot(w.pool, slot) && Shrinks(w.pool, v', from)
    requires forall s :: IsSlot(v', s) ==> from(s) != slot
    ensures Owned(World(v', w.used + {At(w.pool, slot)}, w.next))
  {
    var w' := w.(pool := v');
    ShrinkKeepsOwned(w, v', from);
    forall s | IsSlot(v', s)
      ensures At(v', s).id != At(w.pool, slot).id
    {
      assert At(v', s) == At(w.pool, from(s));
    }
    SlotMoves(w', At(w.pool, slot));
  }

  lemma SlotMoves(w: World, c: Conn)
    requires Owned(w) && c.id < w.next
    requires forall s :: IsSlot(w.pool, s) ==> At(w.pool, s).id != c.id
    requires forall d :: d in w.used ==> d.id != c.id
    ensures Owned(w.(used := w.used + {c}))
  {
  }

  // An acquire moves its connection from a slot to its session.
  lemma AcquireMoves(w: World, role: BackendRole, wanted: Login)
    requires Owned(w)
    ensures Owned(After(w, Acquire(role, wanted)))
  {
    hide Owned, Shrinks;
    if Take(w.pool, role).1.Reuse? {
      var (slot, from) := TakenFrom(w.pool, role);
      SlotToSession(w, Take(w.pool, role).0, slot, from);
    } else {
      DialKeepsSlots(w, role);
    }
  }

  lemma DialKeepsSlots(w: World, role: BackendRole)
    requires Owned(w) && !Take(w.pool, role).1.Reuse?
    ensures Owned(w.(pool := Take(w.pool, role).0))
  {
    var v' := Take(w.pool, role).0;
    assert v'.idleLeaders == w.pool.idleLeaders && v'.idleStandbys == w.pool.idleStandbys;
    ShrinkKeepsOwned(w, v', s => s);
  }

  lemma SessionToSlot(w: World, v': PoolView, slot: Slot, c: Conn)
    requires Owned(w) && c in w.used && IsSlot(v', slot) && At(v', slot) == c
    requires forall s :: IsSlot(v', s) && s != slot ==> IsSlot(w.pool, s) && At(v', s) == At(w.pool, s)
    ensures Owned(World(v', w.used - {c}, w.next))
  {
  }

  lemma SessionDrops(w: World, v': PoolView, c: Conn)
    requires Owned(w)
    requires forall s :: IsSlot(v', s) ==> IsSlot(w.pool, s) && At(v', s) == At(w.pool, s)
    ensures Owned(World(v', w.used - {c}, w.next))
  {
  }

  // A release moves its connection from the session to a slot, or drops it.
  lemma GiveBackMoves(w: World, c: Conn)
    requires Owned(w) && c in w.used
    ensures Owned(After(w, GiveBack(c)))
  {
    hide Owned;
    var v, v' := w.pool, Released(w.pool, c);
    if c.role == LeaderRole && v.leaderAddr == Some(c.addr) && |v.idleLeaders| < v.maxIdle {
      SessionToSlot(w, v', LeaderSlot(|v.idleLeaders|), c);
    } else if c.role == StandbyRole && c.addr in v.standbyAddrs {
      var queue := if c.addr in v.idleStandbys then v.idleStandbys[c.addr] else [];
      if |queue| < v.maxIdle {
        SessionToSlot(w, v', StandbySlot(c.addr, |queue|), c);
      } else {
        SessionDrops(w, v', c);
      }
    } else {
      SessionDrops(w, v', c);
    }
  }

  lemma TopologyKeepsInv(w: World, leader: Option<string>, standbys: seq<string>)
    requires Inv(w)
    ensures Inv(After(w, Topology(leader, standbys)))
  {
    ShrinkKeepsOwned(w, WithTopology(w.pool, leader, standbys), s => s);
  }

  lemma EventKeepsInv(w: World, e: Event)
    requires Inv(w) && Enabled(w, e)
    ensures Inv(After(w, e))
  {
    hide Owned, Routed, Capped;
    match e
    case Topology(leader, standbys) => TopologyKeepsInv(w, leader, standbys);
    case Drain => DrainKeepsInv(w);
    case Acquire(role, wanted) =>
      TakeKeepsRouting(w.pool, role);
      AcquireMoves(w, role, wanted);
    case Connected(role, addr, wanted) => ConnectedKeepsInv(w, role, addr, wanted);
    case GiveBack(c) =>
      ReleaseKeepsRouting(w.pool, c);
      GiveBackMoves(w, c);
    case Lost(c) => SessionDrops(w, w.pool, c);
  }

  lemma DrainKeepsInv(w: World)
    requires Inv(w)
    ensures Inv(After(w, Drain))
  {
    ShrinkKeepsOwned(w, Drained(w.pool), s => s);
  }

  lemma ConnectedKeepsInv(w: World, role: BackendRole, addr: string, wanted: Login)
    requires Inv(w)
    ensures Inv(After(w, Connected(role, addr, wanted)))
  {
  }

  function Start(maxIdle: nat): World {
    World(PoolView(None, [], 0, [], map[], maxIdle, 0), {}, 0)
  }

  ghost predicate IsRun(maxIdle: nat, ws: seq<World>, es: seq<Event>) {
    && |ws| == |es| + 1 && ws[0] == Start(maxIdle)
    && forall i :: 0 <= i < |es| ==> Enabled(ws[i], es[i]) && ws[i + 1] == After(ws[i], es[i])
  }

  // Pool invariant: whatever topology changes, drains, acquires, dials, releases and
  // losses happen in whatever order, idle connections fit the current topology, no queue
  // exceeds the cap, and no connection is idle twice or idle while in use.
  lemma {:induction false} RunKeepsInv(maxIdle: nat, ws: seq<World>, es: seq<Event>)
    requires IsRun(maxIdle, ws, es)
    ensures Inv(ws[|es|])
    decreases |es|
  {
    if es != [] {
      var n := |es| - 1;
      RunKeepsInv(maxIdle, ws[..n + 1], es[..n]);
      EventKeepsInv(ws[n], es[n]);
    }
  }

  // So an acquired idle connection points where a dial would have gone.
  lemma ReuseGoesWhereDialWould(w: World, role: BackendRole)
    requires Inv(w) && Take(w.pool, role).1.Reuse?
    ensures var c := Take(w.pool, role).1.conn;
            if role == StandbyRole && w.pool.standbyAddrs != []
            then c.role == StandbyRole && c.addr == w.pool.standbyAddrs[w.pool.rrIndex % |w.pool.standbyAddrs|]
            else c.role == LeaderRole && w.pool.leaderAddr == Some(c.addr)
  {
  }

  // Along every run, an acquire for the leader yields a leader connection that nobody
  // uses, from the pool or newly dialled; a session never gets a connection in use.
  lemma AcquireForLeader(maxIdle: nat, ws: seq<World>, es: seq<Event>, wanted: Login)
    requires IsRun(maxIdle, ws, es)
    ensures var w := ws[|es|];
            var pick := Take(w.pool, LeaderRole).1;
            && (pick.Reuse? ==> pick.conn.role == LeaderRole && forall c :: c in w.used ==> c.id != pick.conn.id)
            && (pick.Dial? ==> w.pool.leaderAddr == Some(pick.addr)
                               && forall c :: c in w.used ==> c.id != Conn(w.next, LeaderRole, pick.addr, wanted).id)
    ensures var pick := Take(ws[|es|].pool, StandbyRole).1;
            pick.Reuse? ==> forall c :: c in ws[|es|].used ==> c.id != pick.conn.id
  {
    RunKeepsInv(maxIdle, ws, es);
    var w := ws[|es|];
    NotInUse(w, LeaderRole);
    NotInUse(w, StandbyRole);
  }

  lemma NotInUse(w: World, role: BackendRole)
    requires Inv(w)
    ensures Take(w.pool, role).1.Reuse? ==> forall c :: c in w.used ==> c.id != Take(w.pool, role).1.conn.id
  {
    if Take(w.pool, role).1.Reuse? {
      var (slot, from) := TakenFrom(w.pool, role);
    }
  }

  // ---- Whose connection it is.

  // The event serves a session that is one of the logins.
  predicate Serves(logins: set<Login>, e: Event) {
    (e.Acquire? || e.Connected?) ==> e.wanted in logins
  }

  // An acquire from the pool gets a connection that was opened for another login.
  predicate Mismatch(w: World, e: Event) {
    e.Acquire? && Take(w.pool, e.role).1.Reuse? && Take(w.pool, e.role).1.conn.login != e.wanted
  }

  // Idle and used connections were opened for these logins.
  ghost predicate OpenedFor(w: World, logins: set<Login>) {
    && (forall s :: IsSlot(w.pool, s) ==> At(w.pool, s).login in logins)
    && (forall c :: c in w.used ==> c.login in logins)
  }

  lemma EventKeepsLogins(w: World, e: Event, logins: set<Login>)
    requires Inv(w) && OpenedFor(w, logins) && Enabled(w, e) && Serves(logins, e)
    ensures OpenedFor(After(w, e), logins)
  {
    hide Inv;
    match e
    case Acquire(role, _) =>
      if Take(w.pool, role).1.Reuse? {
        var (slot, from) := TakenFrom(w.pool, role);
        assert At(w.pool, slot).login in logins;
      } else {
        SameSlots(w.pool, role);
      }
    case GiveBack(c) => ReleasedSlots(w.pool, c);
    case Topology(leader, standbys) => FewerSlots(w.pool, leader, standbys);
    case _ =>
  }

  lemma FewerSlots(v: PoolView, leader: Option<string>, standbys: seq<string>)
    ensures var v' := WithTopology(v, leader, standbys);
            forall s :: IsSlot(v', s) ==> IsSlot(v, s) && At(v', s) == At(v, s)
  {
  }

  lemma SameSlots(v: PoolView, role: BackendRole)
    requires !Take(v, role).1.Reuse?
    ensures forall s :: IsSlot(Take(v, role).0, s) ==> IsSlot(v, s) && At(Take(v, role).0, s) == At(v, s)
  {
  }

  lemma ReleasedSlots(v: PoolView, c: Conn)
    ensures forall s :: IsSlot(Released(v, c), s) ==> At(Released(v, c), s) == c || (IsSlot(v, s) && At(Released(v, c), s) == At(v, s))
  {
  }

  lemma {:induction false} RunKeepsLogins(maxIdle: nat, ws: seq<World>, es: seq<Event>, logins: set<Login>)
    requires IsRun(maxIdle, ws, es) && forall i :: 0 <= i < |es| ==> Serves(logins, es[i])
    ensures OpenedFor(ws[|es|], logins) && ws[|es|].pool.maxIdle == maxIdle
    decreases |es|
  {
    hide Inv, OpenedFor;
    if es != [] {
      var n := |es| - 1;
      assert IsRun(maxIdle, ws[..n + 1], es[..n]);
      RunKeepsInv(maxIdle, ws[..n + 1], es[..n]);
      RunKeepsLogins(maxIdle, ws[..n + 1], es[..n], logins);
      EventKeepsLogins(ws[n], es[n], logins);
    } else {
      NobodyYet(maxIdle, logins);
    }
  }

  lemma NobodyYet(maxIdle: nat, logins: set<Login>)
    ensures OpenedFor(Start(maxIdle), logins)
  {
  }

  // In no run of sessions with these logins does one get a connection opened for another.
  ghost predicate AlwaysMatches(maxIdle: nat, logins: set<Login>) {
    forall ws, es, e ::
      IsRun(maxIdle, ws, es) && (forall i :: 0 <= i < |es| ==> Serves(logins, es[i])) && Serves(logins, e)
      ==> !Mismatch(ws[|es|], e)
  }

  // Two logins are enough for it: the second session reuses the first one's connection.
  lemma OthersConnection(maxIdle: nat, a: Login, b: Login) returns (ws: seq<World>, es: seq<Event>)
    requires maxIdle > 0 && a != b
    ensures IsRun(maxIdle, ws, es) && forall i :: 0 <= i < |es| ==> Serves({a, b}, es[i])
    ensures Mismatch(ws[|es|], Acquire(LeaderRole, b))
  {
    var w0 := Start(maxIdle);
    var c := Conn(0, LeaderRole, "leader", a);
    es := [Topology(Some("leader"), []), Connected(LeaderRole, "leader", a), GiveBack(c)];
    var w1 := After(w0, es[0]);
    var w2 := After(w1, es[1]);
    ws := [w0, w1, w2, After(w2, es[2])];
  }

  // The pool keeps logins apart exactly if it keeps no idle connections, or there is only
  // one login.
  lemma AlwaysMatchesIff(maxIdle: nat, logins: set<Login>)
    ensures AlwaysMatches(maxIdle, logins) <==> maxIdle == 0 || forall a, b :: a in logins && b in logins ==> a == b
  {
    if maxIdle == 0 || forall a, b :: a in logins && b in logins ==> a == b {
      forall ws, es, e | IsRun(maxIdle, ws, es) && (forall i :: 0 <= i < |es| ==> Serves(logins, es[i])) && Serves(logins, e)
        ensures !Mismatch(ws[|es|], e)
      {
        MatchesHere(maxIdle, ws, es, e, logins);
      }
    } else {
      var a, b :| a in logins && b in logins && a != b;
      var ws, es := OthersConnection(maxIdle, a, b);
      assert Serves(logins, Acquire(LeaderRole, b)) && forall i :: 0 <= i < |es| ==> Serves(logins, es[i]);
    }
  }

  lemma MatchesHere(maxIdle: nat, ws: seq<World>, es: seq<Event>, e: Event, logins: set<Login>)
    requires IsRun(maxIdle, ws, es) && (forall i :: 0 <= i < |es| ==> Serves(logins, es[i])) && Serves(logins, e)
    requires maxIdle == 0 || forall a, b :: a in logins && b in logins ==> a == b
    ensures !Mismatch(ws[|es|], e)
  {
    RunKeepsInv(maxIdle, ws, es);
    RunKeepsLogins(maxIdle, ws, es, logins);
    var w := ws[|es|];
    if e.Acquire? && Take(w.pool, e.role).1.Reuse? {
      var (slot, from) := TakenFrom(w.pool, e.role);
      assert At(w.pool, slot).login in logins;
    }
  }
}
