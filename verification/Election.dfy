// The election monitor: one node's cycle, and the cluster of monitors that poll each
// other peer by peer while everything else goes on.
module Election {
  import opened Bytes
  import opened RaftTypes
  import opened Quorums

  // What the supervisor says of the database process; `Down` is the fenced one.
  datatype ProcessStatus = Stopped | Running | Down | Restoring

  // A peer's answer to a status request.
  datatype Answer = Answer(id: nat, role: NodeRole, status: ProcessStatus)

  // Peers count as alive while they run or restore.
  predicate Alive(status: ProcessStatus) {
    status == Running || status == Restoring
  }

  const MISSES_BEFORE_ELECTION := 5

  function Quorum(peerCount: nat): nat {
    peerCount / 2 + 1
  }

  // What one round of answers shows a standby: who is alive, itself included, and
  // whether somebody alive leads.
  function Tally(id: nat, answers: seq<Option<Answer>>): (set<nat>, bool) {
    if answers == [] then ({id}, false) else
    var (alive, found) := Tally(id, answers[..|answers| - 1]);
    var a := answers[|answers| - 1];
    if a.Some? && Alive(a.value.status) then (alive + {a.value.id}, found || a.value.role == Leader)
    else (alive, found)
  }

  // Who promotes: after enough misses, with a quorum alive, the lowest id.
  predicate Promotes(id: nat, quorum: nat, missed: nat, alive: set<nat>) {
    missed >= MISSES_BEFORE_ELECTION && |alive| >= quorum && IsLeast(alive, id)
  }

  // The miss counter after a standby's round.
  function Missed(id: nat, quorum: nat, missed: nat, alive: set<nat>, found: bool, promoted: bool): nat {
    if found then 0 else
    if promoted && Promotes(id, quorum, missed + 1, alive) then 0 else missed + 1
  }

  function RoleAfter(id: nat, quorum: nat, missed: nat, alive: set<nat>, found: bool, promoted: bool): NodeRole {
    if !found && promoted && Promotes(id, quorum, missed + 1, alive) then Leader else Standby
  }

  class Monitor {
    const nodeId: nat
    const peerCount: nat
    var role: NodeRole
    var missedHeartbeats: nat

    constructor (nodeId: nat, peerCount: nat, role: NodeRole)
      ensures this.nodeId == nodeId && this.peerCount == peerCount && this.role == role && missedHeartbeats == 0
    {
      this.nodeId, this.peerCount, this.role, missedHeartbeats := nodeId, peerCount, role, 0;
    }

    // A standby's round, given each peer's answer and whether promotion would succeed.
    method StandbyRound(answers: seq<Option<Answer>>, promoteSucceeds: bool)
      requires role == Standby
      modifies this
      ensures var (alive, found) := Tally(nodeId, answers);
              && role == RoleAfter(nodeId, Quorum(peerCount), old(missedHeartbeats), alive, found, promoteSucceeds)
              && missedHeartbeats ==
                 Missed(nodeId, Quorum(peerCount), old(missedHeartbeats), alive, found, promoteSucceeds)
    {
      var leaderFound := false;
      var alive := {nodeId};
      for k := 0 to |answers|
        invariant (alive, leaderFound) == Tally(nodeId, answers[..k])
        invariant nodeId in alive
        invariant role == Standby && missedHeartbeats == old(missedHeartbeats)
      {
        assert answers[..k + 1][..k] == answers[..k];
        var a := answers[k];
        if a.Some? && Alive(a.value.status) {
          alive := alive + {a.value.id};
          if a.value.role == Leader {
            leaderFound := true;
          }
        }
      }
      assert answers[..|answers|] == answers;
      if leaderFound {
        missedHeartbeats := 0;
      } else {
        missedHeartbeats := missedHeartbeats + 1;
        if missedHeartbeats >= MISSES_BEFORE_ELECTION {
          var quorum := peerCount / 2 + 1;
          if |alive| >= quorum {
            var winner := Lowest(alive);
            if winner == nodeId && promoteSucceeds {
              role := Leader;
              missedHeartbeats := 0;
            }
          }
        }
      }
    }

    // A round of a node whose process restores or is stopped on purpose: misses do not count.
    method PausedRound()
      modifies this`missedHeartbeats
      ensures missedHeartbeats == 0
    {
      missedHeartbeats := 0;
    }

    // A fenced node's round: it rejoins the first other running leader it sees, if it can.
    method FencedRound(answers: seq<Option<Answer>>, resyncSucceeds: bool) returns (primary: Option<nat>)
      requires role == Fenced
      modifies this
      ensures primary.Some? <==> exists k :: 0 <= k < |answers| && AnswersAsRunningLeader(answers[k], nodeId)
      ensures primary.Some? ==> exists k :: 0 <= k < |answers| && AnswersAsRunningLeader(answers[k], nodeId)
                                            && answers[k].value.id == primary.value
                                            && forall j :: 0 <= j < k ==> !AnswersAsRunningLeader(answers[j], nodeId)
      ensures role == (if primary.Some? && resyncSucceeds then Standby else Fenced)
      ensures missedHeartbeats == (if role == Standby then 0 else old(missedHeartbeats))
    {
      primary := None;
      for k := 0 to |answers|
        invariant primary == None && role == Fenced && missedHeartbeats == old(missedHeartbeats)
        invariant forall j :: 0 <= j < k ==> !AnswersAsRunningLeader(answers[j], nodeId)
      {
        var a := answers[k];
        if a.Some? && a.value.id != nodeId && a.value.role == Leader && a.value.status == Running {
          primary := Some(a.value.id);
          assert AnswersAsRunningLeader(answers[k], nodeId);
          break;
        }
      }
      if primary.Some? && resyncSucceeds {
        role := Standby;
        missedHeartbeats := 0;
      }
    }

    // A leader's round: it fences itself at the first other running leader it sees.
    method LeaderRound(answers: seq<Option<Answer>>)
      requires role == Leader
      modifies this`role
      ensures role == if exists k :: 0 <= k < |answers| && AnswersAsRunningLeader(answers[k], nodeId)
                      then Fenced else Leader
    {
      for k := 0 to |answers|
        invariant role == Leader
        invariant forall j :: 0 <= j < k ==> !AnswersAsRunningLeader(answers[j], nodeId)
      {
        var a := answers[k];
        if a.Some? && a.value.id != nodeId && a.value.role == Leader && a.value.status == Running {
          role := Fenced;
          assert AnswersAsRunningLeader(answers[k], nodeId);
          break;
        }
      }
    }
  }

  predicate AnswersAsRunningLeader(a: Option<Answer>, self: nat) {
    a.Some? && a.value.id != self && a.value.role == Leader && a.value.status == Running
  }

  // ---- The cluster of monitors.

  // n nodes in components that cannot reach each other; each node's list of peers.
  datatype Net = Net(n: nat, comp: seq<nat>, peers: seq<seq<nat>>, listsSelf: bool)

  // Every node lists every other one once, and either all list themselves or none does.
  ghost predicate WellFormed(net: Net) {
    && |net.comp| == net.n && |net.peers| == net.n
    && forall i :: 0 <= i < net.n ==> ListsPeers(net, i)
  }

  ghost predicate ListsPeers(net: Net, i: nat)
    requires i < |net.peers|
  {
    && (forall j: nat :: j in net.peers[i] <==> j < net.n && (j != i || net.listsSelf))
    && |net.peers[i]| == if net.listsSelf then net.n else net.n - 1
  }

  // A standby's round in progress: the next peer to ask, who was alive, was a leader
  // seen. A leader that has seen another one is doomed until it has fenced itself.
  datatype Phase = Idle | Probing(next: nat, alive: set<nat>, found: bool) | Doomed

  datatype Node = Node(role: NodeRole, status: ProcessStatus, missed: nat, phase: Phase)

  // A leader's round is one step (`Guard`), or seeing the other leader and fencing
  // oneself later (`See`, `Fence`).
  datatype Event =
    | Begin(node: nat)
    | Probe(node: nat)
    | Act(node: nat, promoteSucceeds: bool)
    | Guard(node: nat)
    | See(node: nat)
    | Fence(node: nat)
    | Resync(node: nat)
    | Resynced(node: nat, ok: bool)

  predicate RunningLeader(s: seq<Node>, i: nat) {
    i < |s| && s[i].role == Leader && s[i].status == Running
  }

  predicate Reaches(net: Net, i: nat, j: nat)
    requires |net.comp| == net.n && i < net.n
  {
    j < net.n && net.comp[i] == net.comp[j]
  }

  // Node i sees another running leader.
  ghost predicate SeesLeader(net: Net, s: seq<Node>, i: nat)
    requires |net.comp| == net.n && i < net.n
  {
    exists j: nat :: j != i && Reaches(net, i, j) && RunningLeader(s, j)
  }

  ghost predicate Enabled(net: Net, s: seq<Node>, e: Event)
    requires WellFormed(net) && |s| == net.n
  {
    && e.node < net.n
    && var x := s[e.node];
    match e
    case Begin(i) => x.role == Standby && x.status == Running && x.phase == Idle
    case Probe(i) => x.phase.Probing? && x.phase.next < |net.peers[i]|
    case Act(i, _) => x.phase.Probing? && x.phase.next == |net.peers[i]|
    case Guard(i) => x.role == Leader && x.status == Running && x.phase == Idle
    case See(i) => x.role == Leader && x.status == Running && x.phase == Idle && SeesLeader(net, s, i)
    case Fence(i) => x.phase == Doomed
    case Resync(i) => x.role == Fenced && SeesLeader(net, s, i)
    case Resynced(i, _) => x.role == Fenced && x.status == Restoring
  }

  // The answer of one peer: nothing if it cannot be reached.
  function Asked(net: Net, s: seq<Node>, i: nat, j: nat): Option<Answer>
    requires |net.comp| == net.n == |s| && i < net.n
  {
    if Reaches(net, i, j) then Some(Answer(j, s[j].role, s[j].status)) else None
  }

  ghost function After(net: Net, s: seq<Node>, e: Event): (s': seq<Node>)
    requires WellFormed(net) && |s| == net.n && Enabled(net, s, e)
    ensures |s'| == |s|
  {
    var i := e.node;
    var x := s[i];
    match e
    case Begin(_) => s[i := x.(phase := Probing(0, {i}, false))]
    case Probe(_) =>
      var j := net.peers[i][x.phase.next];
      var a := Asked(net, s, i, j);
      var p := if a.Some? && Alive(a.value.status)
               then Probing(x.phase.next + 1, x.phase.alive + {j}, x.phase.found || a.value.role == Leader)
               else x.phase.(next := x.phase.next + 1);
      s[i := x.(phase := p)]
    case Act(_, ok) =>
      var q := Quorum(|net.peers[i]|);
      var p := x.phase;
      s[i := Node(RoleAfter(i, q, x.missed, p.alive, p.found, ok), x.status,
                  Missed(i, q, x.missed, p.alive, p.found, ok), Idle)]
    case Guard(_) => if SeesLeader(net, s, i) then s[i := x.(role := Fenced, status := Down)] else s
    case See(_) => s[i := x.(phase := Doomed)]
    case Fence(_) => s[i := x.(role := Fenced, status := Down, phase := Idle)]
    case Resync(_) => s[i := x.(status := Restoring)]
    case Resynced(_, ok) =>
      if ok then s[i := Node(Standby, Running, 0, Idle)] else s[i := x.(status := Down)]
  }

  // The events lead from each state to the next.
  ghost predicate IsSteps(net: Net, ss: seq<seq<Node>>, es: seq<Event>)
    requires WellFormed(net)
  {
    && |ss| == |es| + 1 && |ss[0]| == net.n
    && forall k :: 0 <= k < |es| ==>
         |ss[k]| == net.n && Enabled(net, ss[k], es[k]) && ss[k + 1] == After(net, ss[k], es[k])
  }

  // A run starts between rounds.
  ghost predicate IsRun(net: Net, ss: seq<seq<Node>>, es: seq<Event>)
    requires WellFormed(net)
  {
    IsSteps(net, ss, es) && forall i :: 0 <= i < net.n ==> ss[0][i].phase == Idle
  }

  // The one-step guard is seeing and fencing with nothing in between.
  lemma GuardIsSeeThenFence(net: Net, s: seq<Node>, i: nat)
    requires WellFormed(net) && |s| == net.n && Enabled(net, s, See(i))
    ensures Enabled(net, s, Guard(i)) && Enabled(net, After(net, s, See(i)), Fence(i))
    ensures After(net, s, Guard(i)) == After(net, After(net, s, See(i)), Fence(i))
  {
  }

  // ---- Quorums.

  // Enough alive nodes, as the monitor counts.
  predicate IsQuorum(a: set<nat>, n: nat, listsSelf: bool)
    requires n > 0
  {
    a <= Nodes(n) && |a| >= Quorum(if listsSelf then n else n - 1)
  }

  ghost predicate QuorumsIntersect(n: nat, listsSelf: bool)
    requires n > 0
  {
    forall a: set<nat>, b: set<nat> :: IsQuorum(a, n, listsSelf) && IsQuorum(b, n, listsSelf) ==> a * b != {}
  }

  lemma QuorumsShare(n: nat, listsSelf: bool, a: set<nat>, b: set<nat>)
    requires n > 0 && (listsSelf || n % 2 == 1)
    requires IsQuorum(a, n, listsSelf) && IsQuorum(b, n, listsSelf)
    ensures a * b != {}
  {
    var x := Overlap(a, b, n);
    assert x in a * b;
  }

  // Half of an even cluster is a quorum for nodes that do not list themselves; so is the other half.
  lemma HalvesAreQuorums(n: nat) returns (a: set<nat>, b: set<nat>)
    requires n > 0 && n % 2 == 0
    ensures IsQuorum(a, n, false) && IsQuorum(b, n, false) && a * b == {}
  {
    a, b := Nodes(n / 2), Nodes(n) - Nodes(n / 2);
    NodesCount(n / 2);
    NodesCount(n);
    assert a <= Nodes(n);
    assert |Nodes(n)| == |a| + |b|;
  }

  // Any two quorums share a node exactly when every node lists itself, or the cluster is odd.
  lemma QuorumsIntersectIff(n: nat, listsSelf: bool)
    requires n > 0
    ensures QuorumsIntersect(n, listsSelf) <==> listsSelf || n % 2 == 1
  {
    if listsSelf || n % 2 == 1 {
      forall a: set<nat>, b: set<nat> | IsQuorum(a, n, listsSelf) && IsQuorum(b, n, listsSelf)
        ensures a * b != {}
      {
        QuorumsShare(n, listsSelf, a, b);
      }
    } else {
      var a, b := HalvesAreQuorums(n);
    }
  }
}
