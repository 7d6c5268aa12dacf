// Lease safety: why a shorter lease than the election timeout keeps two leaders apart,
// and exactly how much shorter it must be.
module LeaseProtocol {
  import opened RaftTypes
  import opened Orchestrator
  import opened Quorums

  // Cluster size; lease duration; longest time between two lease checks of a leader;
  // greatest age of the acknowledgements that renew a lease or of the votes that elect;
  // time a voter waits since it last acknowledged or voted.
  datatype Params = Params(n: nat, lease: real, check: real, delay: real, election: real)

  ghost predicate Sane(p: Params) {
    p.lease >= 0.0 && p.check > 0.0 && p.delay >= 0.0 && p.election >= 0.0
  }

  // A voter's support for a node in a term, at a time: a vote or an acknowledgement.
  datatype Grant = Grant(voter: nat, to: nat, term: nat, time: real, isVote: bool)

  // A node: its role and lease, when it last checked the lease, the term in which the
  // support behind the lease was given, and the term it votes in.
  datatype Member = Member(status: Status, lastCheck: real, leaseTerm: nat, term: nat)

  datatype Cluster = Cluster(now: real, members: seq<Member>, grants: set<Grant>, elected: set<(nat, nat)>)

  predicate IsLeader(c: Cluster, i: nat) {
    i < |c.members| && c.members[i].status.role == Leader
  }

  // Every node of the set has supported `to` in the term since `since`.
  ghost predicate Supported(c: Cluster, q: set<nat>, to: nat, term: nat, since: real, votesOnly: bool) {
    forall v :: v in q ==> exists g :: g in c.grants && Supports(g, v, to, term, since, votesOnly)
  }

  predicate Supports(g: Grant, v: nat, to: nat, term: nat, since: real, votesOnly: bool) {
    g.voter == v && g.to == to && g.term == term && since <= g.time && (votesOnly ==> g.isVote)
  }

  datatype Event =
    | Tick(to: real)
    | CastVote(voter: nat, candidate: nat, inTerm: nat)
    | Ack(voter: nat, leader: nat, inTerm: nat)
    | Win(node: nat, inTerm: nat, voters: set<nat>)
    | Renew(node: nat, inTerm: nat, voters: set<nat>)
    | Check(node: nat)
    | Lose(node: nat, other: nat)
    | Recover(node: nat)

  function WithMember(c: Cluster, i: nat, m: Member): Cluster
    requires i < |c.members|
  {
    c.(members := c.members[i := m])
  }

  ghost predicate Enabled(p: Params, c: Cluster, e: Event) {
    match e
    case Tick(to) =>
      // Leaders check their lease in time.
      c.now <= to && forall i: nat :: IsLeader(c, i) ==> to <= c.members[i].lastCheck + p.check
    case CastVote(v, candidate, t) =>
      // A voter moves on to a later term, and only after its wait.
      && v < |c.members| && c.members[v].term < t
      && forall g :: g in c.grants && g.voter == v ==> g.time + p.election <= c.now
    case Ack(v, l, t) =>
      // Only the leader of the voter's term or of a later one is acknowledged.
      v < |c.members| && c.members[v].term <= t && (l, t) in c.elected
    case Win(i, t, q) =>
      i < |c.members| && IsMajority(q, |c.members|) && Supported(c, q, i, t, c.now - p.delay, true)
    case Renew(i, t, q) =>
      && i < |c.members| && IsMajority(q, |c.members|) && (i, t) in c.elected
      && Supported(c, q, i, t, c.now - p.delay, false)
    case Check(i) => i < |c.members|
    case Lose(i, other) => i < |c.members| && other != i
    case Recover(i) => i < |c.members|
  }

  ghost function After(p: Params, c: Cluster, e: Event): Cluster
    requires Enabled(p, c, e)
  {
    match e
    case Tick(to) => c.(now := to)
    case CastVote(v, candidate, t) =>
      WithMember(c, v, c.members[v].(term := t)).(grants := c.grants + {Grant(v, candidate, t, c.now, true)})
    case Ack(v, l, t) =>
      WithMember(c, v, c.members[v].(term := t)).(grants := c.grants + {Grant(v, l, t, c.now, false)})
    case Win(i, t, _) =>
      var m := c.members[i];
      var (status, action) := Elected(i, m.status, i, c.now);
      var m' := if action == Noop then m else m.(status := status, lastCheck := c.now, leaseTerm := t);
      WithMember(c, i, m').(elected := c.elected + {(i, t)})
    case Renew(i, t, _) =>
      var m := c.members[i];
      WithMember(c, i, m.(status := Acknowledged(m.status, c.now), leaseTerm := t))
    case Check(i) =>
      var m := c.members[i];
      WithMember(c, i, m.(status := Checked(m.status, c.now).0, lastCheck := c.now))
    case Lose(i, other) =>
      var m := c.members[i];
      WithMember(c, i, m.(status := Elected(i, m.status, other, c.now).0))
    case Recover(i) =>
      var m := c.members[i];
      WithMember(c, i, m.(status := m.status.(role := Standby)))
  }

  // All nodes start as standbys that have supported nobody.
  ghost predicate Initial(p: Params, c: Cluster) {
    && |c.members| == p.n && c.grants == {} && c.elected == {}
    && forall i :: 0 <= i < p.n ==>
         c.members[i].status.role == Standby && c.members[i].status.lease.duration == p.lease
  }

  ghost predicate IsRun(p: Params, cs: seq<Cluster>, es: seq<Event>) {
    && |cs| == |es| + 1 && Initial(p, cs[0])
    && forall i :: 0 <= i < |es| ==> Enabled(p, cs[i], es[i]) && cs[i + 1] == After(p, cs[i], es[i])
  }

  // ---- The invariant.

  ghost predicate GrantsPast(c: Cluster) {
    forall g :: g in c.grants ==>
      g.voter < |c.members| && g.time <= c.now && g.term <= c.members[g.voter].term
  }

  // A vote comes a full election timeout after any earlier support in a lower term.
  ghost predicate VotesWait(p: Params, c: Cluster) {
    forall g, v :: g in c.grants && v in c.grants && v.isVote && g.voter == v.voter && g.term < v.term ==>
      g.time + p.election <= v.time
  }

  ghost predicate OneVotePerTerm(c: Cluster) {
    forall g, v :: g in c.grants && v in c.grants && g.isVote && v.isVote && g.voter == v.voter && g.term == v.term ==>
      g.to == v.to
  }

  ghost predicate ElectedByMajority(c: Cluster) {
    forall w :: w in c.elected ==> exists q :: IsMajority(q, |c.members|) && VotedIn(c, q, w.0, w.1)
  }

  ghost predicate VotedIn(c: Cluster, q: set<nat>, to: nat, term: nat) {
    forall v :: v in q ==> exists g :: g in c.grants && g.voter == v && g.to == to && g.term == term && g.isVote
  }

  // A leader's lease rests on a majority's fresh support, and was checked in time.
  ghost predicate LeaseBacked(p: Params, c: Cluster, i: nat)
    requires i < |c.members|
  {
    var m := c.members[i];
    && (i, m.leaseTerm) in c.elected
    && m.lastCheck <= c.now <= m.lastCheck + p.check
    && m.status.lease.lastQuorumAck <= c.now
    && m.lastCheck <= m.status.lease.lastQuorumAck + p.lease
    && exists q :: IsMajority(q, |c.members|)
                   && Supported(c, q, i, m.leaseTerm, m.status.lease.lastQuorumAck - p.delay, false)
  }

  ghost predicate LeadersBacked(p: Params, c: Cluster) {
    forall i: nat :: IsLeader(c, i) ==> LeaseBacked(p, c, i)
  }

  ghost predicate LeasesSet(p: Params, c: Cluster) {
    |c.members| == p.n && forall i :: 0 <= i < p.n ==> c.members[i].status.lease.duration == p.lease
  }

  ghost predicate Inv(p: Params, c: Cluster) {
    && LeasesSet(p, c) && GrantsPast(c) && VotesWait(p, c) && OneVotePerTerm(c)
    && ElectedByMajority(c) && LeadersBacked(p, c)
  }

  // ---- Two leaders contradict it.

  lemma OneLeaderPerTerm(c: Cluster, i: nat, j: nat, t: nat)
    requires OneVotePerTerm(c) && ElectedByMajority(c) && (i, t) in c.elected && (j, t) in c.elected
    ensures i == j
  {
    var q :| IsMajority(q, |c.members|) && VotedIn(c, q, (i, t).0, (i, t).1);
    var r :| IsMajority(r, |c.members|) && VotedIn(c, r, (j, t).0, (j, t).1);
    var v := Overlap(q, r, |c.members|);
  }

  // Two leases from different terms take at least an election timeout.
  lemma LaterLeaseWaits(p: Params, c: Cluster, i: nat, j: nat)
    requires Inv(p, c) && IsLeader(c, i) && IsLeader(c, j)
    requires c.members[i].leaseTerm < c.members[j].leaseTerm
    ensures p.election <= p.lease + p.check + p.delay
  {
    hide OneVotePerTerm, LeasesSet;
    var m, t := c.members[i], c.members[j].leaseTerm;
    assert LeaseBacked(p, c, i) && LeaseBacked(p, c, j);
    var ack := m.status.lease.lastQuorumAck;
    var q :| IsMajority(q, |c.members|) && Supported(c, q, i, m.leaseTerm, ack - p.delay, false);
    var w := (j, t);
    var r :| IsMajority(r, |c.members|) && VotedIn(c, r, w.0, w.1);
    var v := Overlap(q, r, |c.members|);
    var g :| g in c.grants && Supports(g, v, i, m.leaseTerm, ack - p.delay, false);
    var h :| h in c.grants && h.voter == v && h.to == j && h.term == t && h.isVote;
    assert ack - p.delay + p.election <= h.time <= c.now <= ack + p.lease + p.check;
  }

  lemma AtMostOneLeader(p: Params, c: Cluster, i: nat, j: nat)
    requires Inv(p, c) && p.lease + p.check + p.delay < p.election
    requires IsLeader(c, i) && IsLeader(c, j)
    ensures i == j
  {
    if c.members[i].leaseTerm < c.members[j].leaseTerm {
      LaterLeaseWaits(p, c, i, j);
    } else if c.members[j].leaseTerm < c.members[i].leaseTerm {
      LaterLeaseWaits(p, c, j, i);
    } else {
      assert LeaseBacked(p, c, i) && LeaseBacked(p, c, j);
      OneLeaderPerTerm(c, i, j, c.members[i].leaseTerm);
    }
  }

  // ---- Every event keeps the invariant.

  // What only grows: time, grants, election wins; and the cluster keeps its size.
  ghost predicate Grows(c: Cluster, c': Cluster) {
    |c'.members| == |c.members| && c.now <= c'.now && c.grants <= c'.grants && c.elected <= c'.elected
  }

  lemma SupportedGrows(c: Cluster, c': Cluster, q: set<nat>, to: nat, term: nat, since: real, votesOnly: bool)
    requires Grows(c, c') && Supported(c, q, to, term, since, votesOnly)
    ensures Supported(c', q, to, term, since, votesOnly)
  {
    forall v | v in q
      ensures exists g :: g in c'.grants && Supports(g, v, to, term, since, votesOnly)
    {
      var g :| g in c.grants && Supports(g, v, to, term, since, votesOnly);
      assert g in c'.grants;
    }
  }

  // A leader whose lease and last check are untouched stays backed.
  lemma BackedGrows(p: Params, c: Cluster, c': Cluster, i: nat)
    requires Grows(c, c') && i < |c.members| && LeaseBacked(p, c, i)
    requires c'.members[i].status == c.members[i].status && c'.members[i].leaseTerm == c.members[i].leaseTerm
    requires c'.members[i].lastCheck == c.members[i].lastCheck && c'.now <= c.members[i].lastCheck + p.check
    ensures LeaseBacked(p, c', i)
  {
    var m := c.members[i];
    var q :| IsMajority(q, |c.members|)
             && Supported(c, q, i, m.leaseTerm, m.status.lease.lastQuorumAck - p.delay, false);
    SupportedGrows(c, c', q, i, m.leaseTerm, m.status.lease.lastQuorumAck - p.delay, false);
  }

  lemma ElectedGrows(c: Cluster, c': Cluster)
    requires Grows(c, c') && ElectedByMajority(c) && c'.elected == c.elected
    ensures ElectedByMajority(c')
  {
    forall w | w in c'.elected
      ensures exists q :: IsMajority(q, |c'.members|) && VotedIn(c', q, w.0, w.1)
    {
      var q :| IsMajority(q, |c.members|) && VotedIn(c, q, w.0, w.1);
      VotedInGrows(c, c', q, w.0, w.1);
    }
  }

  lemma VotedInGrows(c: Cluster, c': Cluster, q: set<nat>, to: nat, term: nat)
    requires Grows(c, c') && VotedIn(c, q, to, term)
    ensures VotedIn(c', q, to, term)
  {
    forall v | v in q
      ensures exists g :: g in c'.grants && g.voter == v && g.to == to && g.term == term && g.isVote
    {
      var g :| g in c.grants && g.voter == v && g.to == to && g.term == term && g.isVote;
      assert g in c'.grants;
    }
  }

  // Votes and acknowledgements: the grants stay in order.
  lemma GrantKeepsOrder(p: Params, c: Cluster, g: Grant, c': Cluster)
    requires Sane(p) && GrantsPast(c) && VotesWait(p, c) && OneVotePerTerm(c)
    requires g.voter < |c.members| && c.members[g.voter].term <= g.term && g.time == c.now
    requires g.isVote ==> c.members[g.voter].term < g.term
    requires g.isVote ==> forall h :: h in c.grants && h.voter == g.voter ==> h.time + p.election <= c.now
    requires c' == WithMember(c, g.voter, c.members[g.voter].(term := g.term)).(grants := c.grants + {g})
    ensures GrantsPast(c') && VotesWait(p, c') && OneVotePerTerm(c')
  {
    assert forall h :: h in c'.grants ==> h in c.grants || h == g;
  }

  lemma GrantKeepsLeaders(p: Params, c: Cluster, g: Grant, c': Cluster)
    requires LeadersBacked(p, c) && LeasesSet(p, c) && ElectedByMajority(c) && g.voter < |c.members|
    requires c' == WithMember(c, g.voter, c.members[g.voter].(term := g.term)).(grants := c.grants + {g})
    ensures LeadersBacked(p, c') && LeasesSet(p, c') && ElectedByMajority(c')
  {
    hide LeaseBacked;
    ElectedGrows(c, c');
    forall i: nat | IsLeader(c', i)
      ensures LeaseBacked(p, c', i)
    {
      assert IsLeader(c, i);
      BackedUntouched(p, c, c', i);
    }
  }

  lemma BackedUntouched(p: Params, c: Cluster, c': Cluster, i: nat)
    requires Grows(c, c') && i < |c.members| && LeaseBacked(p, c, i) && c'.now == c.now
    requires c'.members[i].status == c.members[i].status && c'.members[i].leaseTerm == c.members[i].leaseTerm
    requires c'.members[i].lastCheck == c.members[i].lastCheck
    ensures LeaseBacked(p, c', i)
  {
    BackedGrows(p, c, c', i);
  }

  lemma GrantKeepsInv(p: Params, c: Cluster, g: Grant, c': Cluster)
    requires Sane(p) && Inv(p, c)
    requires g.voter < |c.members| && c.members[g.voter].term <= g.term && g.time == c.now
    requires g.isVote ==> c.members[g.voter].term < g.term
    requires g.isVote ==> forall h :: h in c.grants && h.voter == g.voter ==> h.time + p.election <= c.now
    requires c' == WithMember(c, g.voter, c.members[g.voter].(term := g.term)).(grants := c.grants + {g})
    ensures Inv(p, c')
  {
    hide GrantsPast, VotesWait, OneVotePerTerm, LeadersBacked, LeasesSet, ElectedByMajority;
    GrantKeepsOrder(p, c, g, c');
    GrantKeepsLeaders(p, c, g, c');
  }

  lemma TickKeepsInv(p: Params, c: Cluster, to: real)
    requires Inv(p, c) && Enabled(p, c, Tick(to))
    ensures Inv(p, After(p, c, Tick(to)))
  {
    hide LeaseBacked;
    var c' := After(p, c, Tick(to));
    ElectedGrows(c, c');
    forall i: nat | IsLeader(c', i)
      ensures LeaseBacked(p, c', i)
    {
      assert IsLeader(c, i);
      BackedGrows(p, c, c', i);
    }
  }

  // Events that change one member only, and leave its term alone.
  lemma MemberKeepsInv(p: Params, c: Cluster, i: nat, m: Member)
    requires Inv(p, c) && i < |c.members| && m.term == c.members[i].term
    requires m.status.lease.duration == p.lease
    requires m.status.role == Leader ==> LeaseBacked(p, WithMember(c, i, m), i)
    ensures Inv(p, WithMember(c, i, m))
  {
    hide LeaseBacked;
    var c' := WithMember(c, i, m);
    ElectedGrows(c, c');
    forall j: nat | IsLeader(c', j)
      ensures LeaseBacked(p, c', j)
    {
      if j != i {
        assert IsLeader(c, j);
        BackedUntouched(p, c, c', j);
      }
    }
    assert GrantsPast(c') && VotesWait(p, c') && OneVotePerTerm(c');
  }

  lemma CheckKeepsInv(p: Params, c: Cluster, i: nat)
    requires Sane(p) && Inv(p, c) && i < |c.members|
    ensures Inv(p, After(p, c, Check(i)))
  {
    var m := c.members[i];
    var m' := m.(status := Checked(m.status, c.now).0, lastCheck := c.now);
    if m'.status.role == Leader {
      assert IsLeader(c, i);
      CheckedBacked(p, c, i, m');
    }
    MemberKeepsInv(p, c, i, m');
  }

  lemma CheckedBacked(p: Params, c: Cluster, i: nat, m': Member)
    requires Sane(p) && i < |c.members| && LeaseBacked(p, c, i) && c.members[i].status.lease.duration == p.lease
    requires m' == c.members[i].(lastCheck := c.now) && m'.status.lease.IsValid(c.now)
    ensures LeaseBacked(p, WithMember(c, i, m'), i)
  {
    var c' := WithMember(c, i, m');
    var q :| IsMajority(q, |c.members|)
             && Supported(c, q, i, m'.leaseTerm, m'.status.lease.lastQuorumAck - p.delay, false);
    SupportedGrows(c, c', q, i, m'.leaseTerm, m'.status.lease.lastQuorumAck - p.delay, false);
  }

  lemma RenewKeepsInv(p: Params, c: Cluster, i: nat, t: nat, q: set<nat>)
    requires Sane(p) && Inv(p, c) && Enabled(p, c, Renew(i, t, q))
    ensures Inv(p, After(p, c, Renew(i, t, q)))
  {
    var m := c.members[i];
    var m' := m.(status := Acknowledged(m.status, c.now), leaseTerm := t);
    if m'.status.role == Leader {
      assert IsLeader(c, i);
      var c' := WithMember(c, i, m');
      SupportedGrows(c, c', q, i, t, c.now - p.delay, false);
    }
    MemberKeepsInv(p, c, i, m');
  }

  lemma LoseKeepsInv(p: Params, c: Cluster, i: nat, other: nat)
    requires Inv(p, c) && i < |c.members| && other != i
    ensures Inv(p, After(p, c, Lose(i, other)))
  {
    var m := c.members[i];
    MemberKeepsInv(p, c, i, m.(status := Elected(i, m.status, other, c.now).0));
  }

  lemma RecoverKeepsInv(p: Params, c: Cluster, i: nat)
    requires Inv(p, c) && i < |c.members|
    ensures Inv(p, After(p, c, Recover(i)))
  {
    var m := c.members[i];
    MemberKeepsInv(p, c, i, m.(status := m.status.(role := Standby)));
  }

  // Winning adds a win that a majority voted for.
  lemma WinKeepsElected(p: Params, c: Cluster, i: nat, t: nat, q: set<nat>)
    requires Inv(p, c) && Enabled(p, c, Win(i, t, q))
    ensures Inv(p, c.(elected := c.elected + {(i, t)}))
  {
    hide LeaseBacked;
    var c' := c.(elected := c.elected + {(i, t)});
    assert VotedIn(c', q, i, t) by {
      forall v | v in q
        ensures exists g :: g in c'.grants && g.voter == v && g.to == i && g.term == t && g.isVote
      {
        var g :| g in c.grants && Supports(g, v, i, t, c.now - p.delay, true);
      }
    }
    forall w | w in c'.elected
      ensures exists q :: IsMajority(q, |c'.members|) && VotedIn(c', q, w.0, w.1)
    {
      if w in c.elected {
        var r :| IsMajority(r, |c.members|) && VotedIn(c, r, w.0, w.1);
        VotedInGrows(c, c', r, w.0, w.1);
      }
    }
    forall j: nat | IsLeader(c', j)
      ensures LeaseBacked(p, c', j)
    {
      assert IsLeader(c, j);
      BackedUntouched(p, c, c', j);
    }
    assert GrantsPast(c') && VotesWait(p, c') && OneVotePerTerm(c');
  }

  lemma WinKeepsInv(p: Params, c: Cluster, i: nat, t: nat, q: set<nat>)
    requires Sane(p) && Inv(p, c) && Enabled(p, c, Win(i, t, q))
    ensures Inv(p, After(p, c, Win(i, t, q)))
  {
    var won := c.(elected := c.elected + {(i, t)});
    WinKeepsElected(p, c, i, t, q);
    var m := c.members[i];
    if m.status.role == Leader {
      assert c.members[i := m] == c.members;
    } else {
      var m' := m.(status := Elected(i, m.status, i, c.now).0, lastCheck := c.now, leaseTerm := t);
      WonBacked(p, c, i, t, q, m');
      MemberKeepsInv(p, won, i, m');
    }
  }

  lemma WonBacked(p: Params, c: Cluster, i: nat, t: nat, q: set<nat>, m': Member)
    requires Sane(p) && i < |c.members| && IsMajority(q, |c.members|) && Supported(c, q, i, t, c.now - p.delay, true)
    requires m'.lastCheck == c.now && m'.leaseTerm == t && m'.status.lease.lastQuorumAck == c.now
    ensures LeaseBacked(p, WithMember(c.(elected := c.elected + {(i, t)}), i, m'), i)
  {
    var c' := WithMember(c.(elected := c.elected + {(i, t)}), i, m');
    forall v | v in q
      ensures exists g :: g in c'.grants && Supports(g, v, i, t, c.now - p.delay, false)
    {
      var g :| g in c.grants && Supports(g, v, i, t, c.now - p.delay, true);
      assert g in c'.grants && Supports(g, v, i, t, c.now - p.delay, false);
    }
    assert Supported(c', q, i, t, m'.status.lease.lastQuorumAck - p.delay, false);
  }

  lemma EventKeepsInv(p: Params, c: Cluster, e: Event)
    requires Sane(p) && Inv(p, c) && Enabled(p, c, e)
    ensures Inv(p, After(p, c, e))
  {
    hide Inv;
    match e
    case Tick(to) => TickKeepsInv(p, c, to);
    case CastVote(v, candidate, t) => GrantKeepsInv(p, c, Grant(v, candidate, t, c.now, true), After(p, c, e));
    case Ack(v, l, t) => GrantKeepsInv(p, c, Grant(v, l, t, c.now, false), After(p, c, e));
    case Win(i, t, q) => WinKeepsInv(p, c, i, t, q);
    case Renew(i, t, q) => RenewKeepsInv(p, c, i, t, q);
    case Check(i) => CheckKeepsInv(p, c, i);
    case Lose(i, other) => LoseKeepsInv(p, c, i, other);
    case Recover(i) => RecoverKeepsInv(p, c, i);
  }

  lemma {:induction false} RunKeepsInv(p: Params, cs: seq<Cluster>, es: seq<Event>)
    requires Sane(p) && IsRun(p, cs, es)
    ensures Inv(p, cs[|es|])
    decreases |es|
  {
    hide Enabled, After;
    if es != [] {
      var n := |es| - 1;
      RunKeepsInv(p, cs[..n + 1], es[..n]);
      EventKeepsInv(p, cs[n], es[n]);
    }
  }

  // Lease safety: if lease, check period and delay together are shorter than the
  // election timeout, no run ever has two leaders.
  lemma LeaseSafety(p: Params, cs: seq<Cluster>, es: seq<Event>, i: nat, j: nat)
    requires Sane(p) && IsRun(p, cs, es) && p.lease + p.check + p.delay < p.election
    requires IsLeader(cs[|es|], i) && IsLeader(cs[|es|], j)
    ensures i == j
  {
    RunKeepsInv(p, cs, es);
    AtMostOneLeader(p, cs[|es|], i, j);
  }
}
