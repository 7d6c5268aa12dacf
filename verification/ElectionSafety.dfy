// Election safety over every interleaving of the monitors.
module ElectionSafety {
  import opened Bytes
  import opened RaftTypes
  import opened Quorums
  import opened Election

  // ---- Who can be promoted while the partition and the processes stay as they are.

  // The nodes of i's component that answer as alive.
  function AliveNear(net: Net, s: seq<Node>, i: nat): set<nat>
    requires |net.comp| == net.n == |s| && i < net.n
  {
    set j | j in Nodes(net.n) && Reaches(net, i, j) && Alive(s[j].status)
  }

  // The lowest alive node of a component that reaches quorum.
  ghost predicate Eligible(net: Net, s: seq<Node>, i: nat)
    requires WellFormed(net) && |s| == net.n && i < net.n
  {
    IsLeast(AliveNear(net, s, i), i) && |AliveNear(net, s, i)| >= Quorum(|net.peers[i]|)
  }

  // Node j is alive, leads, and is in i's component.
  predicate LeadsNear(net: Net, s: seq<Node>, i: nat, j: nat)
    requires |net.comp| == net.n == |s| && i < net.n
  {
    Reaches(net, i, j) && s[j].role == Leader && Alive(s[j].status)
  }

  ghost predicate Led(net: Net, s: seq<Node>, i: nat)
    requires |net.comp| == net.n == |s| && i < net.n
  {
    exists j: nat :: LeadsNear(net, s, i, j)
  }

  // The node's component has no two running leaders.
  ghost predicate Orderly(net: Net, s: seq<Node>, i: nat)
    requires |net.comp| == net.n == |s| && i < net.n
  {
    forall j: nat, k: nat :: RunningLeader(s, j) && RunningLeader(s, k) && Reaches(net, i, j) && Reaches(net, i, k) ==> j == k
  }

  // A node's role is the one it started with, or it is the promoted one of its component.
  ghost predicate RoleFits(net: Net, s0: seq<Node>, s: seq<Node>, i: nat)
    requires WellFormed(net) && |s0| == |s| == net.n && i < net.n
  {
    || s[i].role == s0[i].role
    || (s0[i].role == Standby && s[i].role == Leader && Eligible(net, s0, i) && !Led(net, s0, i))
  }

  // A round in progress has seen exactly the alive peers it has asked, and every leader
  // among them that was there from the start.
  ghost predicate PhaseFits(net: Net, s0: seq<Node>, s: seq<Node>, i: nat)
    requires WellFormed(net) && |s0| == |s| == net.n && i < net.n
  {
    var x := s[i];
    !x.phase.Doomed? && (x.phase.Probing? ==>
      && x.role == Standby && x.status == Running && x.phase.next <= |net.peers[i]|
      && (forall j: nat :: j in x.phase.alive <==>
            j == i || (j in net.peers[i][..x.phase.next] && Reaches(net, i, j) && Alive(s0[j].status)))
      && (forall j: nat :: j in net.peers[i][..x.phase.next] && LeadsNear(net, s0, i, j) ==> x.phase.found))
  }

  ghost predicate Inv(net: Net, s0: seq<Node>, s: seq<Node>)
    requires WellFormed(net) && |s0| == net.n
  {
    && |s| == net.n
    && forall i :: 0 <= i < net.n && Orderly(net, s0, i) ==> NodeFits(net, s0, s, i)
  }

  ghost predicate NodeFits(net: Net, s0: seq<Node>, s: seq<Node>, i: nat)
    requires WellFormed(net) && |s0| == |s| == net.n && i < net.n
  {
    s[i].status == s0[i].status && RoleFits(net, s0, s, i) && PhaseFits(net, s0, s, i)
  }

  // All nodes of an orderly component are in one.
  lemma OrderlyTogether(net: Net, s: seq<Node>, i: nat, j: nat)
    requires |net.comp| == net.n == |s| && i < net.n && Reaches(net, i, j) && Orderly(net, s, i)
    ensures Orderly(net, s, j)
  {
  }

  // Only one node of a component can be eligible.
  lemma EligibleIsUnique(net: Net, s: seq<Node>, i: nat, j: nat)
    requires WellFormed(net) && |s| == net.n && i < net.n && j < net.n && net.comp[i] == net.comp[j]
    requires Eligible(net, s, i) && Eligible(net, s, j)
    ensures i == j
  {
    assert AliveNear(net, s, i) == AliveNear(net, s, j);
  }

  // So no two running leaders share an orderly component, and the guard never fires there.
  lemma LeadersAreApart(net: Net, s0: seq<Node>, s: seq<Node>, i: nat, j: nat)
    requires WellFormed(net) && |s0| == net.n && i < net.n && Orderly(net, s0, i) && Inv(net, s0, s)
    requires RunningLeader(s, i) && RunningLeader(s, j) && net.comp[i] == net.comp[j]
    ensures i == j
  {
    OrderlyTogether(net, s0, i, j);
    assert NodeFits(net, s0, s, i) && NodeFits(net, s0, s, j);
    assert s0[i].role == Leader ==> LeadsNear(net, s0, j, i);
    assert s0[j].role == Leader ==> LeadsNear(net, s0, i, j);
    if s0[i].role == Leader && s0[j].role == Leader {
      assert RunningLeader(s0, i) && RunningLeader(s0, j);
    } else if s0[i].role != Leader && s0[j].role != Leader {
      EligibleIsUnique(net, s0, i, j);
    }
  }

  lemma GuardIsQuiet(net: Net, s0: seq<Node>, s: seq<Node>, i: nat)
    requires WellFormed(net) && |s0| == net.n && i < net.n && Orderly(net, s0, i) && Inv(net, s0, s)
    requires RunningLeader(s, i)
    ensures !SeesLeader(net, s, i)
  {
    forall j: nat | Reaches(net, i, j) && RunningLeader(s, j)
      ensures j == i
    {
      LeadersAreApart(net, s0, s, i, j);
    }
  }

  // An event of the fixed partition: processes neither stop nor come back.
  predicate Fixed(e: Event) {
    e.Begin? || e.Probe? || e.Act? || e.Guard? || e.See? || e.Fence?
  }

  // A node's own event leaves every other node as it was.
  lemma OthersUnchanged(net: Net, s0: seq<Node>, s: seq<Node>, i: nat, x: Node)
    requires WellFormed(net) && |s0| == net.n && Inv(net, s0, s) && i < net.n
    requires Orderly(net, s0, i) ==> NodeFits(net, s0, s[i := x], i)
    ensures Inv(net, s0, s[i := x])
  {
    hide Orderly;
    var s' := s[i := x];
    forall j | 0 <= j < net.n && Orderly(net, s0, j)
      ensures NodeFits(net, s0, s', j)
    {
      assert NodeFits(net, s0, s, j);
    }
  }

  lemma ProbeFits(net: Net, s0: seq<Node>, s: seq<Node>, i: nat)
    requires WellFormed(net) && |s0| == net.n && Inv(net, s0, s) && Enabled(net, s, Probe(i)) && Orderly(net, s0, i)
    ensures NodeFits(net, s0, After(net, s, Probe(i)), i)
  {
    hide Orderly;
    var x := s[i];
    var k := x.phase.next;
    var j := net.peers[i][k];
    assert ListsPeers(net, i) && j in net.peers[i];
    assert NodeFits(net, s0, s, i);
    if Reaches(net, i, j) {
      OrderlyTogether(net, s0, i, j);
      assert NodeFits(net, s0, s, j);
    }
    assert net.peers[i][..k + 1] == net.peers[i][..k] + [j];
  }

  // A finished round has seen all of the component.
  lemma RoundIsComplete(net: Net, s0: seq<Node>, s: seq<Node>, i: nat)
    requires WellFormed(net) && |s0| == net.n && |s| == net.n && i < net.n && NodeFits(net, s0, s, i)
    requires Enabled(net, s, Act(i, true))
    ensures s[i].role == Standby && s[i].phase.alive == AliveNear(net, s0, i)
    ensures Led(net, s0, i) ==> s[i].phase.found || s0[i].role == Leader
  {
    assert PhaseFits(net, s0, s, i) && ListsPeers(net, i);
    var peers := net.peers[i];
    assert peers[..|peers|] == peers;
    forall j: nat
      ensures j in s[i].phase.alive <==> j in AliveNear(net, s0, i)
    {
    }
    if j: nat :| LeadsNear(net, s0, i, j) {
      assert j != i ==> j in peers;
    }
  }

  lemma ActFits(net: Net, s0: seq<Node>, s: seq<Node>, i: nat, ok: bool)
    requires WellFormed(net) && |s0| == net.n && |s| == net.n && i < net.n && NodeFits(net, s0, s, i)
    requires Enabled(net, s, Act(i, ok))
    ensures NodeFits(net, s0, After(net, s, Act(i, ok)), i)
  {
    assert Enabled(net, s, Act(i, true));
    RoundIsComplete(net, s0, s, i);
    assert RoleFits(net, s0, s, i);
  }

  // In an orderly component a node's own event keeps what the invariant says of it.
  lemma OwnEventFits(net: Net, s0: seq<Node>, s: seq<Node>, e: Event)
    requires WellFormed(net) && |s0| == net.n && Inv(net, s0, s) && Fixed(e) && Enabled(net, s, e)
    requires Orderly(net, s0, e.node)
    ensures NodeFits(net, s0, After(net, s, e), e.node)
  {
    hide Orderly;
    assert NodeFits(net, s0, s, e.node);
    match e
    case Begin(i) => assert net.peers[i][..0] == [];
    case Probe(i) => ProbeFits(net, s0, s, i);
    case Act(i, ok) => ActFits(net, s0, s, i, ok);
    case Guard(i) => GuardIsQuiet(net, s0, s, i);
    case See(i) => GuardIsQuiet(net, s0, s, i);
    case Fence(i) =>
  }

  lemma EventKeepsInv(net: Net, s0: seq<Node>, s: seq<Node>, e: Event)
    requires WellFormed(net) && |s0| == net.n && Inv(net, s0, s) && Fixed(e) && Enabled(net, s, e)
    ensures Inv(net, s0, After(net, s, e))
  {
    hide Orderly, NodeFits;
    var s', i := After(net, s, e), e.node;
    if Orderly(net, s0, i) {
      OwnEventFits(net, s0, s, e);
    }
    assert s' == s[i := s'[i]];
    OthersUnchanged(net, s0, s, i, s'[i]);
  }

  lemma {:induction false} RunKeepsInv(net: Net, ss: seq<seq<Node>>, es: seq<Event>)
    requires WellFormed(net) && IsRun(net, ss, es)
    requires forall k :: 0 <= k < |es| ==> Fixed(es[k])
    ensures Inv(net, ss[0], ss[|es|])
    decreases |es|
  {
    if es != [] {
      var n := |es| - 1;
      RunKeepsInv(net, ss[..n + 1], es[..n]);
      EventKeepsInv(net, ss[0], ss[n], es[n]);
    }
  }

  // Promoted during the run: leading now, not leading at the start.
  predicate Promoted(ss: seq<seq<Node>>, k: nat, i: nat)
    requires k < |ss| && i < |ss[0]| && i < |ss[k]|
  {
    ss[k][i].role == Leader && ss[0][i].role != Leader
  }

  // Election safety: whatever the interleaving, in every component that does not start
  // with two running leaders, a node promoted by the monitors is the lowest alive node, the
  // component reaches quorum and had no leader, and two running leaders never share it; and
  // if quorums intersect, at most one node of all such components is ever promoted, at
  // whatever two points of the run one looks.
  lemma ElectionIsSafe(net: Net, ss: seq<seq<Node>>, es: seq<Event>, i: nat, j: nat, k: nat, l: nat)
    requires WellFormed(net) && IsRun(net, ss, es) && forall m :: 0 <= m < |es| ==> Fixed(es[m])
    requires i < net.n && j < net.n && Orderly(net, ss[0], i) && Orderly(net, ss[0], j) && k <= |es| && l <= |es|
    ensures |ss[k]| == net.n == |ss[l]|
    ensures Promoted(ss, k, i) ==> Eligible(net, ss[0], i) && !Led(net, ss[0], i)
    ensures RunningLeader(ss[k], i) && RunningLeader(ss[k], j) && net.comp[i] == net.comp[j] ==> i == j
    ensures Promoted(ss, k, i) && Promoted(ss, l, j) && (net.listsSelf || net.n % 2 == 1) ==> i == j
  {
    hide Orderly;
    var s0 := ss[0];
    InvAt(net, ss, es, k);
    InvAt(net, ss, es, l);
    assert NodeFits(net, s0, ss[k], i) && NodeFits(net, s0, ss[l], j);
    if RunningLeader(ss[k], i) && RunningLeader(ss[k], j) && net.comp[i] == net.comp[j] {
      LeadersAreApart(net, s0, ss[k], i, j);
    }
    if Promoted(ss, k, i) && Promoted(ss, l, j) && (net.listsSelf || net.n % 2 == 1) {
      OneEligible(net, s0, i, j);
    }
  }

  lemma InvAt(net: Net, ss: seq<seq<Node>>, es: seq<Event>, k: nat)
    requires WellFormed(net) && IsRun(net, ss, es) && (forall m :: 0 <= m < |es| ==> Fixed(es[m])) && k <= |es|
    ensures Inv(net, ss[0], ss[k])
  {
    hide Inv;
    RunKeepsInv(net, ss[..k + 1], es[..k]);
  }

  // Intersecting quorums leave only one eligible node in the cluster.
  lemma OneEligible(net: Net, s: seq<Node>, i: nat, j: nat)
    requires WellFormed(net) && |s| == net.n && i < net.n && j < net.n && (net.listsSelf || net.n % 2 == 1)
    requires Eligible(net, s, i) && Eligible(net, s, j)
    ensures i == j
  {
    var a, b := AliveNear(net, s, i), AliveNear(net, s, j);
    assert ListsPeers(net, i) && ListsPeers(net, j);
    QuorumsShare(net.n, net.listsSelf, a, b);
    var v :| v in a * b;
    EligibleIsUnique(net, s, i, j);
  }

  // Without intersecting quorums the claim fails: two nodes that list only each other
  // and cannot reach each other are both promoted.
  lemma EvenClusterSplits() returns (net: Net, ss: seq<seq<Node>>, es: seq<Event>)
    ensures WellFormed(net) && !net.listsSelf && net.n == 2 && IsRun(net, ss, es)
    ensures forall i :: 0 <= i < 2 ==> Orderly(net, ss[0], i)
    ensures forall k :: 0 <= k < |es| ==> Fixed(es[k])
    ensures |ss[|es|]| == 2 && Promoted(ss, |es|, 0) && Promoted(ss, |es|, 1)
  {
    hide Enabled, After;
    net := Net(2, [0, 1], [[1], [0]], false);
    assert ListsPeers(net, 0) && ListsPeers(net, 1);
    var x, y := Node(Standby, Running, 4, Idle), Node(Leader, Running, 0, Idle);
    var first := Alone(net, [x, x], 0, x, y);
    var second := Alone(net, [y, x], 1, x, y);
    ss := [[x, x]] + first + second;
    es := [Begin(0), Probe(0), Act(0, true), Begin(1), Probe(1), Act(1, true)];
    assert [x, x][0 := y] == [y, x];
    assert ss[0] == [x, x] && ss[1] == first[0] && ss[2] == first[1] && ss[3] == first[2];
    assert ss[4] == second[0] && ss[5] == second[1] && ss[6] == second[2];
  }

  // A lone node's fifth round without an answer promotes it.
  lemma Alone(net: Net, s: seq<Node>, i: nat, x: Node, y: Node) returns (ss: seq<seq<Node>>)
    requires net == Net(2, [0, 1], [[1], [0]], false) && WellFormed(net) && i < 2 == |s|
    requires x == Node(Standby, Running, 4, Idle) && y == Node(Leader, Running, 0, Idle) && s[i] == x
    ensures |ss| == 3
    ensures Enabled(net, s, Begin(i)) && ss[0] == After(net, s, Begin(i))
    ensures Enabled(net, ss[0], Probe(i)) && ss[1] == After(net, ss[0], Probe(i))
    ensures Enabled(net, ss[1], Act(i, true)) && ss[2] == After(net, ss[1], Act(i, true)) == s[i := y]
  {
    ss := [s[i := x.(phase := Probing(0, {i}, false))], s[i := x.(phase := Probing(1, {i}, false))], s[i := y]];
    assert net.peers[i][0] != i;
    assert Promotes(i, Quorum(1), 5, {i});
  }
}
