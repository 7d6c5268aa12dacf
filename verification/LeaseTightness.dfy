// The lease bound is exact: whenever lease, check period and delay together reach the
// election timeout, some run has two leaders. In particular a lease shorter than the
// timeout is not enough by itself.
module LeaseTightness {
  import opened RaftTypes
  import opened Orchestrator
  import opened Quorums
  import opened LeaseProtocol

  ghost predicate Reachable(p: Params, c: Cluster) {
    exists cs, es :: IsRun(p, cs, es) && cs[|es|] == c
  }

  // No reachable cluster has two leaders.
  ghost predicate Safe(p: Params) {
    forall c, i: nat, j: nat :: Reachable(p, c) && IsLeader(c, i) && IsLeader(c, j) ==> i == j
  }

  lemma ReachAfter(p: Params, c: Cluster, e: Event)
    requires Reachable(p, c) && Enabled(p, c, e)
    ensures Reachable(p, After(p, c, e))
  {
    hide Enabled, After;
    var cs, es :| IsRun(p, cs, es) && cs[|es|] == c;
    var cs', es' := cs + [After(p, c, e)], es + [e];
    forall i | 0 <= i < |es'|
      ensures Enabled(p, cs'[i], es'[i]) && cs'[i + 1] == After(p, cs'[i], es'[i])
    {
      if i < |es| {
        assert cs'[i] == cs[i] && cs'[i + 1] == cs[i + 1] && es'[i] == es[i];
      }
    }
    assert IsRun(p, cs', es') && cs'[|es'|] == After(p, c, e);
  }

  // Two clusters whose members differ in their voting terms only.
  ghost predicate SameRoles(c: Cluster, c': Cluster) {
    && |c'.members| == |c.members|
    && forall i :: 0 <= i < |c.members| ==> c'.members[i].(term := 0) == c.members[i].(term := 0)
  }

  // The first k nodes have voted for the candidate just now, and nothing else happened.
  ghost predicate Voted(c: Cluster, c': Cluster, k: nat, candidate: nat, t: nat) {
    && SameRoles(c, c') && c'.now == c.now && c'.elected == c.elected && k <= |c.members|
    && (forall g :: g in c'.grants <==>
          g in c.grants || (g.voter < k && g == Grant(g.voter, candidate, t, c.now, true)))
    && (forall i :: 0 <= i < |c.members| ==> c'.members[i].term == if i < k then t else c.members[i].term)
  }

  // All nodes can vote at once, if every earlier grant is an election timeout old.
  lemma {:induction false} AllVote(p: Params, c: Cluster, k: nat, candidate: nat, t: nat) returns (c': Cluster)
    requires Reachable(p, c) && k <= |c.members|
    requires forall i :: 0 <= i < |c.members| ==> c.members[i].term < t
    requires forall g :: g in c.grants ==> g.time + p.election <= c.now
    ensures Reachable(p, c') && Voted(c, c', k, candidate, t)
  {
    if k == 0 {
      c' := c;
    } else {
      var b := AllVote(p, c, k - 1, candidate, t);
      var e := CastVote(k - 1, candidate, t);
      assert Enabled(p, b, e);
      ReachAfter(p, b, e);
      c' := After(p, b, e);
    }
  }

  // Node `a` leads alone, backed at `ack`, and has just checked its lease.
  ghost predicate LeadsAlone(p: Params, c: Cluster, a: nat, ack: real) {
    && |c.members| == p.n && IsLeader(c, a) && c.members[a].lastCheck == c.now
    && c.members[a].status.lease == QuorumLease(p.lease, ack)
    && forall i: nat :: IsLeader(c, i) ==> i == a
  }

  // It can keep checking until its lease ends; k periods are enough for that.
  lemma {:induction false} Coast(p: Params, c: Cluster, a: nat, ack: real, until: real, k: nat) returns (c': Cluster)
    requires Sane(p) && Reachable(p, c) && LeadsAlone(p, c, a, ack)
    requires ack <= c.now <= until <= ack + p.lease && until - c.now <= k as real * p.check
    ensures Reachable(p, c') && LeadsAlone(p, c', a, ack) && c'.now == until
    ensures c'.grants == c.grants
    ensures forall i :: 0 <= i < p.n ==>
              c'.members[i].term == c.members[i].term && (i != a ==> c'.members[i] == c.members[i])
    decreases k
  {
    if k == 0 {
      c' := c;
    } else {
      OnePeriodLess(until - c.now, p.check, k);
      var next := if until <= c.now + p.check then until else c.now + p.check;
      var b := CheckAt(p, c, a, ack, next);
      c' := Coast(p, b, a, ack, until, k - 1);
    }
  }

  lemma OnePeriodLess(x: real, period: real, k: nat)
    requires k > 0 && period > 0.0 && x <= k as real * period
    ensures x - period <= (k - 1) as real * period && 0.0 <= (k - 1) as real * period
  {
    assert (k - 1) as real == k as real - 1.0;
    assert (k as real - 1.0) * period == k as real * period - period;
  }

  lemma CheckAt(p: Params, c: Cluster, a: nat, ack: real, next: real) returns (c': Cluster)
    requires Reachable(p, c) && LeadsAlone(p, c, a, ack)
    requires ack <= c.now <= next <= ack + p.lease && next <= c.now + p.check
    ensures Reachable(p, c') && LeadsAlone(p, c', a, ack) && c'.now == next && c'.grants == c.grants
    ensures forall i :: 0 <= i < p.n ==>
              c'.members[i].term == c.members[i].term && (i != a ==> c'.members[i] == c.members[i])
  {
    ReachAfter(p, c, Tick(next));
    var b := After(p, c, Tick(next));
    ReachAfter(p, b, Check(a));
    c' := After(p, b, Check(a));
    assert b.members[a].status.lease.IsValid(next);
    assert forall i: nat :: IsLeader(c', i) ==> IsLeader(c, i);
  }

  lemma ReachStart(p: Params, c: Cluster)
    requires Initial(p, c)
    ensures Reachable(p, c)
  {
    var none: seq<Event> := [];
    assert IsRun(p, [c], none) && [c][|none|] == c;
  }

  function Fresh(p: Params): Member {
    Member(Status(Standby, QuorumLease(p.lease, 0.0)), 0.0, 0, 0)
  }

  // All nodes vote for the first, which wins as late as the delay allows.
  lemma FirstLeader(p: Params) returns (c: Cluster)
    requires Sane(p) && p.n >= 2
    ensures Reachable(p, c) && LeadsAlone(p, c, 0, p.delay) && c.now == p.delay
    ensures forall g :: g in c.grants ==> g.time == 0.0
    ensures forall i :: 0 <= i < p.n ==> c.members[i].term == 1
  {
    hide Reachable;
    var start := Cluster(0.0, seq(p.n, _ => Fresh(p)), {}, {});
    ReachStart(p, start);
    var voted := AllVote(p, start, p.n, 0, 1);
    assert forall i :: 0 <= i < p.n ==> voted.members[i].(term := 0) == Fresh(p);
    ReachAfter(p, voted, Tick(p.delay));
    var late := After(p, voted, Tick(p.delay));
    WinAll(p, late, 0, 1, 0.0);
    c := After(p, late, Win(0, 1, Nodes(p.n)));
  }

  // Votes of all nodes, no older than the delay, elect.
  lemma WinAll(p: Params, c: Cluster, i: nat, t: nat, when: real)
    requires Reachable(p, c) && |c.members| == p.n && i < p.n && c.now - p.delay <= when
    requires forall v: nat :: v < p.n ==> Grant(v, i, t, when, true) in c.grants
    ensures Enabled(p, c, Win(i, t, Nodes(p.n))) && Reachable(p, After(p, c, Win(i, t, Nodes(p.n))))
  {
    NodesCount(p.n);
    forall v | v in Nodes(p.n)
      ensures exists g :: g in c.grants && Supports(g, v, i, t, c.now - p.delay, true)
    {
      assert Grant(v, i, t, when, true) in c.grants;
      assert Supports(Grant(v, i, t, when, true), v, i, t, c.now - p.delay, true);
    }
    ReachAfter(p, c, Win(i, t, Nodes(p.n)));
  }

  // The run with two leaders.
  lemma TwoLeaders(p: Params) returns (c: Cluster)
    requires Sane(p) && p.n >= 2 && p.election <= p.lease + p.check + p.delay
    ensures Reachable(p, c) && IsLeader(c, 0) && IsLeader(c, 1)
  {
    hide Reachable;
    var first := FirstLeader(p);
    var periods := EnoughPeriods(p.lease, p.check);
    var end := Coast(p, first, 0, p.delay, p.delay + p.lease, periods);
    ReachAfter(p, end, Tick(end.now + p.check));
    var expired := After(p, end, Tick(end.now + p.check));
    var voted := AllVote(p, expired, p.n, 1, 2);
    WinAll(p, voted, 1, 2, expired.now);
    c := After(p, voted, Win(1, 2, Nodes(p.n)));
    assert voted.members[0].(term := 0) == expired.members[0].(term := 0);
    assert voted.members[1].(term := 0) == expired.members[1].(term := 0);
  }

  lemma EnoughPeriods(x: real, period: real) returns (k: nat)
    requires x >= 0.0 && period > 0.0
    ensures x <= k as real * period
  {
    var q := x / period;
    k := q.Floor + 1;
    assert q <= k as real;
    assert x == q * period;
  }

  // A cluster of two or more nodes is safe exactly when lease, check period and delay
  // together are shorter than the election timeout.
  lemma SafeIff(p: Params)
    requires Sane(p) && p.n >= 2
    ensures Safe(p) <==> p.lease + p.check + p.delay < p.election
  {
    if p.lease + p.check + p.delay < p.election {
      forall c, i: nat, j: nat | Reachable(p, c) && IsLeader(c, i) && IsLeader(c, j)
        ensures i == j
      {
        var cs, es :| IsRun(p, cs, es) && cs[|es|] == c;
        LeaseSafety(p, cs, es, i, j);
      }
    } else {
      var c := TwoLeaders(p);
    }
  }

  // The documented constants, 1200 ms and 1500 ms, leave 300 ms for checks and delays:
  // with a check every 200 ms and acknowledgements up to 100 ms old there can be two leaders.
  lemma DocumentedConstants(n: nat, check: real, delay: real)
    requires n >= 2 && check > 0.0 && delay >= 0.0
    ensures Safe(Params(n, 1200.0, check, delay, 1500.0)) <==> check + delay < 300.0
  {
    SafeIff(Params(n, 1200.0, check, delay, 1500.0));
  }
}
