// Split brain: several running leaders that reach each other. They go one by one until
// one is left, provided each leader sees the others and fences itself in one step; and
// exactly when the last one can be lost if it does not.
module SplitBrain {
  import opened Bytes
  import opened RaftTypes
  import opened Quorums
  import opened Election

  // Everybody reaches everybody.
  ghost predicate Connected(net: Net)
    requires WellFormed(net)
  {
    forall i, j :: 0 <= i < net.n && 0 <= j < net.n ==> net.comp[i] == net.comp[j]
  }

  function Leaders(s: seq<Node>): set<nat> {
    set i | i in Nodes(|s|) && RunningLeader(s, i)
  }

  // Somebody leads, and no round has missed a leader that still leads.
  ghost predicate Healing(net: Net, s: seq<Node>)
    requires WellFormed(net)
  {
    Honest(net, s) && Leaders(s) != {}
  }

  ghost predicate Honest(net: Net, s: seq<Node>)
    requires WellFormed(net)
  {
    |s| == net.n && forall i :: 0 <= i < net.n ==> MissesNone(net, s, i)
  }

  ghost predicate MissesNone(net: Net, s: seq<Node>, i: nat)
    requires WellFormed(net) && |s| == net.n && i < net.n
  {
    var x := s[i];
    && (x.phase.Doomed? ==> RunningLeader(s, i))
    && (x.phase.Probing? ==>
          && x.role == Standby && x.phase.next <= |net.peers[i]|
          && (forall j: nat :: j in net.peers[i][..x.phase.next] && RunningLeader(s, j) ==> x.phase.found))
  }

  // A step that makes no new leader, at one node only, keeps the other rounds honest.
  lemma HonestKept(net: Net, s: seq<Node>, i: nat, x: Node)
    requires WellFormed(net) && Honest(net, s) && i < net.n
    requires RunningLeader(s[i := x], i) ==> RunningLeader(s, i)
    requires MissesNone(net, s[i := x], i)
    ensures Honest(net, s[i := x])
  {
    var s' := s[i := x];
    forall k | 0 <= k < net.n
      ensures MissesNone(net, s', k)
    {
      assert MissesNone(net, s, k);
      assert forall j: nat :: RunningLeader(s', j) ==> RunningLeader(s, j);
    }
  }

  lemma LeadersSame(s: seq<Node>, i: nat, x: Node)
    requires i < |s| && (RunningLeader(s[i := x], i) <==> RunningLeader(s, i))
    ensures Leaders(s[i := x]) == Leaders(s)
  {
  }

  // A leader that sees another one leaves at least that one.
  lemma GuardLowersByOne(net: Net, s: seq<Node>, i: nat)
    requires WellFormed(net) && Connected(net) && |s| == net.n && Enabled(net, s, Guard(i))
    ensures SeesLeader(net, s, i) <==> Leaders(s) != {i}
    ensures SeesLeader(net, s, i) ==>
              var s' := After(net, s, Guard(i));
              Leaders(s') == Leaders(s) - {i} && Leaders(s') != {} && |Leaders(s')| == |Leaders(s)| - 1
    ensures !SeesLeader(net, s, i) ==> After(net, s, Guard(i)) == s
  {
    assert i in Leaders(s);
    if Leaders(s) != {i} {
      var j :| j in Leaders(s) && j != i;
      assert Reaches(net, i, j) && RunningLeader(s, j);
    }
    if SeesLeader(net, s, i) {
      var j: nat :| j != i && Reaches(net, i, j) && RunningLeader(s, j);
      var s' := After(net, s, Guard(i));
      assert Leaders(s') == Leaders(s) - {i};
      assert j in Leaders(s');
    }
  }

  lemma ProbeHeals(net: Net, s: seq<Node>, i: nat)
    requires WellFormed(net) && Connected(net) && Healing(net, s) && Enabled(net, s, Probe(i))
    ensures Healing(net, After(net, s, Probe(i))) && Leaders(After(net, s, Probe(i))) == Leaders(s)
  {
    var k := s[i].phase.next;
    var j := net.peers[i][k];
    assert MissesNone(net, s, i) && ListsPeers(net, i);
    assert j in net.peers[i];
    assert net.peers[i][..k + 1] == net.peers[i][..k] + [j];
    var s' := After(net, s, Probe(i));
    assert forall l: nat :: RunningLeader(s', l) ==> RunningLeader(s, l);
    assert MissesNone(net, s', i);
    LeadersSame(s, i, s'[i]);
    HonestKept(net, s, i, s'[i]);
  }

  // While somebody leads, every finished round has found a leader: nobody is promoted.
  lemma ActHeals(net: Net, s: seq<Node>, i: nat, ok: bool)
    requires WellFormed(net) && Healing(net, s) && Enabled(net, s, Act(i, ok))
    ensures s[i].phase.found
    ensures Healing(net, After(net, s, Act(i, ok))) && Leaders(After(net, s, Act(i, ok))) == Leaders(s)
  {
    var l :| l in Leaders(s);
    assert MissesNone(net, s, i) && ListsPeers(net, i);
    var peers := net.peers[i];
    assert peers[..|peers|] == peers && l in peers;
    var s' := After(net, s, Act(i, ok));
    LeadersSame(s, i, s'[i]);
    HonestKept(net, s, i, s'[i]);
  }

  // Split-brain healing, step by step: leaders only go, one at a time, and only by
  // fencing themselves; unless it fences itself later than it saw another, the last one stays.
  lemma EventHeals(net: Net, s: seq<Node>, e: Event)
    requires WellFormed(net) && Connected(net) && Healing(net, s) && Enabled(net, s, e)
    ensures var s' := After(net, s, e);
            && Honest(net, s')
            && (Leaders(s') == Leaders(s)
                || ((e.Guard? || e.Fence?) && e.node in Leaders(s) && Leaders(s') == Leaders(s) - {e.node}
                    && |Leaders(s')| == |Leaders(s)| - 1))
            && (!e.Fence? ==> Leaders(s') != {})
  {
    var s' := After(net, s, e);
    var i := e.node;
    assert MissesNone(net, s, i);
    match e
    case Probe(_) => ProbeHeals(net, s, i);
    case Act(_, ok) => ActHeals(net, s, i, ok);
    case Guard(_) =>
      GuardLowersByOne(net, s, i);
      if SeesLeader(net, s, i) {
        HonestKept(net, s, i, s'[i]);
      }
    case Fence(_) =>
      FenceLowersByOne(net, s, i);
      HonestKept(net, s, i, s'[i]);
    case Begin(_) => QuietHeals(net, s, e);
    case See(_) => QuietHeals(net, s, e);
    case Resync(_) => QuietHeals(net, s, e);
    case Resynced(_, _) => QuietHeals(net, s, e);
  }

  lemma FenceLowersByOne(net: Net, s: seq<Node>, i: nat)
    requires WellFormed(net) && Honest(net, s) && Enabled(net, s, Fence(i))
    ensures i in Leaders(s) && Leaders(After(net, s, Fence(i))) == Leaders(s) - {i}
  {
    assert MissesNone(net, s, i);
  }

  // Events that touch neither a leader's role nor a standby's tally.
  lemma QuietHeals(net: Net, s: seq<Node>, e: Event)
    requires WellFormed(net) && Healing(net, s) && Enabled(net, s, e)
    requires e.Begin? || e.See? || e.Resync? || e.Resynced?
    ensures Honest(net, After(net, s, e)) && Leaders(After(net, s, e)) == Leaders(s)
  {
    var s', i := After(net, s, e), e.node;
    assert MissesNone(net, s, i);
    LeadersSame(s, i, s'[i]);
    HonestKept(net, s, i, s'[i]);
  }

  lemma {:induction false} StepsHeal(net: Net, ss: seq<seq<Node>>, es: seq<Event>)
    requires WellFormed(net) && Connected(net) && IsSteps(net, ss, es) && Healing(net, ss[0])
    requires forall k :: 0 <= k < |es| ==> !es[k].Fence?
    ensures Healing(net, ss[|es|]) && Leaders(ss[|es|]) <= Leaders(ss[0])
    decreases |es|
  {
    if es != [] {
      var n := |es| - 1;
      StepsHeal(net, ss[..n + 1], es[..n]);
      EventHeals(net, ss[n], es[n]);
    }
  }

  // Between rounds no round has missed anything.
  lemma StartsHonest(net: Net, ss: seq<seq<Node>>, es: seq<Event>)
    requires WellFormed(net) && IsRun(net, ss, es)
    ensures Honest(net, ss[0])
  {
    assert forall i :: 0 <= i < net.n ==> MissesNone(net, ss[0], i);
  }

  // Split-brain healing over whole runs, rejoining nodes included: from any number of
  // leaders, while leaders act on what they see in one step, the set of leaders never
  // gains a member and never becomes empty.
  lemma SplitBrainHeals(net: Net, ss: seq<seq<Node>>, es: seq<Event>)
    requires WellFormed(net) && Connected(net) && IsRun(net, ss, es) && Leaders(ss[0]) != {}
    requires forall k :: 0 <= k < |es| ==> !es[k].Fence?
    ensures Leaders(ss[|es|]) != {} && Leaders(ss[|es|]) <= Leaders(ss[0])
  {
    StartsHonest(net, ss, es);
    StepsHeal(net, ss, es);
  }

  // ---- When the last leader can be lost.

  // Whatever happens from here on, somebody leads.
  ghost predicate Lasting(net: Net, s: seq<Node>)
    requires WellFormed(net)
  {
    forall s' :: CanReach(net, s, s') ==> Leaders(s') != {}
  }

  ghost predicate CanReach(net: Net, s: seq<Node>, s': seq<Node>)
    requires WellFormed(net)
  {
    exists ss, es :: IsSteps(net, ss, es) && ss[0] == s && ss[|es|] == s'
  }

  // One leader, which has seen no other.
  ghost predicate Sole(net: Net, s: seq<Node>, l: nat)
    requires WellFormed(net)
  {
    Honest(net, s) && Leaders(s) == {l} && s[l].phase == Idle
  }

  lemma {:induction false} SoleStays(net: Net, s: seq<Node>, l: nat, e: Event)
    requires WellFormed(net) && Connected(net) && l < net.n && Sole(net, s, l) && Enabled(net, s, e)
    ensures Sole(net, After(net, s, e), l)
  {
    assert l in Leaders(s);
    EventHeals(net, s, e);
    if e.node == l {
      OwnEvent(net, s, l, e);
    } else {
      assert MissesNone(net, s, e.node);
      assert e.node !in Leaders(s);
    }
  }

  // All that a sole leader can do is to look around and find nobody.
  lemma {:induction false} OwnEvent(net: Net, s: seq<Node>, l: nat, e: Event)
    requires WellFormed(net) && Connected(net) && l < net.n && Sole(net, s, l) && Enabled(net, s, e) && e.node == l
    ensures After(net, s, e) == s
  {
    assert l in Leaders(s);
    forall j: nat | Reaches(net, l, j) && RunningLeader(s, j)
      ensures j == l
    {
      assert j in Leaders(s);
    }
  }

  lemma {:induction false} SoleRuns(net: Net, ss: seq<seq<Node>>, es: seq<Event>, l: nat)
    requires WellFormed(net) && Connected(net) && IsSteps(net, ss, es) && l < net.n && Sole(net, ss[0], l)
    ensures Sole(net, ss[|es|], l)
    decreases |es|
  {
    if es != [] {
      var n := |es| - 1;
      SoleRuns(net, ss[..n + 1], es[..n], l);
      SoleStays(net, ss[n], l, es[n]);
    }
  }

  lemma {:induction false} ReachStart(net: Net, s: seq<Node>)
    requires WellFormed(net) && |s| == net.n
    ensures CanReach(net, s, s)
  {
    var none: seq<Event> := [];
    assert IsSteps(net, [s], none) && [s][0] == s && [s][|none|] == s;
  }

  lemma {:induction false} ReachAfter(net: Net, s: seq<Node>, b: seq<Node>, e: Event)
    requires WellFormed(net) && CanReach(net, s, b) && |b| == net.n && Enabled(net, b, e)
    ensures CanReach(net, s, After(net, b, e))
  {
    hide Enabled, After;
    var ss, es :| IsSteps(net, ss, es) && ss[0] == s && ss[|es|] == b;
    var ss', es' := ss + [After(net, b, e)], es + [e];
    forall k | 0 <= k < |es'|
      ensures |ss'[k]| == net.n && Enabled(net, ss'[k], es'[k]) && ss'[k + 1] == After(net, ss'[k], es'[k])
    {
      if k < |es| {
        assert ss'[k] == ss[k] && ss'[k + 1] == ss[k + 1] && es'[k] == es[k];
      }
    }
    assert IsSteps(net, ss', es') && ss'[0] == s && ss'[|es'|] == After(net, b, e);
  }

  // The first k leaders are doomed, and nothing else has changed.
  ghost predicate DoomedUpTo(s: seq<Node>, s': seq<Node>, k: nat) {
    && |s'| == |s|
    && forall i :: 0 <= i < |s| ==> s'[i] == if i < k && RunningLeader(s, i) then s[i].(phase := Doomed) else s[i]
  }

  // Leaders that see each other can all be doomed before any of them acts.
  lemma {:induction false} DoomAll(net: Net, s: seq<Node>, k: nat) returns (s': seq<Node>)
    requires WellFormed(net) && Honest(net, s) && k <= net.n
    requires forall i: nat :: RunningLeader(s, i) && s[i].phase == Idle ==> SeesLeader(net, s, i)
    ensures CanReach(net, s, s') && DoomedUpTo(s, s', k)
  {
    if k == 0 {
      ReachStart(net, s);
      s' := s;
    } else {
      s' := DoomAll(net, s, k - 1);
      assert MissesNone(net, s, k - 1);
      if RunningLeader(s, k - 1) && s[k - 1].phase == Idle {
        StillSeen(net, s, s', k - 1);
        ReachAfter(net, s, s', See(k - 1));
        s' := After(net, s', See(k - 1));
      }
    }
  }

  lemma {:induction false} StillSeen(net: Net, s: seq<Node>, s': seq<Node>, i: nat)
    requires WellFormed(net) && |s| == net.n && i < net.n && DoomedUpTo(s, s', i) && SeesLeader(net, s, i)
    ensures SeesLeader(net, s', i)
  {
    var j: nat :| j != i && Reaches(net, i, j) && RunningLeader(s, j);
    assert RunningLeader(s', j);
  }

  // The first k leaders are fenced, and nothing else has changed.
  ghost predicate FencedUpTo(s: seq<Node>, s': seq<Node>, k: nat) {
    && |s'| == |s|
    && forall i :: 0 <= i < |s| ==>
         s'[i] == if i < k && RunningLeader(s, i) then s[i].(role := Fenced, status := Down, phase := Idle) else s[i]
  }

  // Doomed leaders all go, one after the other.
  lemma {:induction false} FenceAll(net: Net, s: seq<Node>, b: seq<Node>, k: nat) returns (s': seq<Node>)
    requires WellFormed(net) && |b| == net.n && CanReach(net, s, b) && k <= net.n
    requires forall i: nat :: RunningLeader(b, i) ==> b[i].phase == Doomed
    ensures CanReach(net, s, s') && FencedUpTo(b, s', k)
  {
    if k == 0 {
      s' := b;
    } else {
      s' := FenceAll(net, s, b, k - 1);
      if RunningLeader(b, k - 1) {
        ReachAfter(net, s, s', Fence(k - 1));
        s' := After(net, s', Fence(k - 1));
      }
    }
  }

  // Seeing before acting: unless there is a leader that has seen nobody and sees nobody,
  // every leader can be lost.
  lemma {:induction false} AllCanGo(net: Net, s: seq<Node>) returns (s': seq<Node>)
    requires WellFormed(net) && Honest(net, s)
    requires forall i: nat :: RunningLeader(s, i) && s[i].phase == Idle ==> SeesLeader(net, s, i)
    ensures CanReach(net, s, s') && Leaders(s') == {}
  {
    var b := DoomAll(net, s, net.n);
    s' := FenceAll(net, s, b, net.n);
  }

  // Leadership is there to stay exactly when there is one leader, and it has seen no
  // other: two leaders can fence each other.
  lemma {:induction false} LastingIff(net: Net, s: seq<Node>)
    requires WellFormed(net) && Connected(net) && Healing(net, s)
    ensures Lasting(net, s) <==> |Leaders(s)| == 1 && forall i :: i in Leaders(s) ==> s[i].phase == Idle
  {
    var l :| l in Leaders(s);
    if |Leaders(s)| == 1 && s[l].phase == Idle {
      assert Leaders(s) == {l} by {
        assert |Leaders(s) - {l}| == 0;
      }
      forall s' | CanReach(net, s, s')
        ensures Leaders(s') != {}
      {
        var ss, es :| IsSteps(net, ss, es) && ss[0] == s && ss[|es|] == s';
        SoleRuns(net, ss, es, l);
      }
    } else {
      forall i: nat | RunningLeader(s, i) && s[i].phase == Idle
        ensures SeesLeader(net, s, i)
      {
        assert i in Leaders(s);
        AnotherLeader(net, s, i);
      }
      var s' := AllCanGo(net, s);
    }
  }

  lemma {:induction false} AnotherLeader(net: Net, s: seq<Node>, i: nat)
    requires WellFormed(net) && Connected(net) && Honest(net, s) && RunningLeader(s, i)
    requires Leaders(s) != {i}
    ensures SeesLeader(net, s, i)
  {
    assert i in Leaders(s);
    var j :| j in Leaders(s) && j != i;
    assert Reaches(net, i, j) && RunningLeader(s, j);
  }
}
