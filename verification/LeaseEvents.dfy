// Leadership read off the events of a run: who leads, who is fenced, and when a check
// fences, without a look at the lease itself.
module LeaseEvents {
  import opened RaftTypes
  import opened Orchestrator
  import opened LeaseProtocol

  // Event k gives node i fresh support: it wins an election without leading already, or a
  // majority acknowledges it while it leads.
  predicate Refreshes(cs: seq<Cluster>, es: seq<Event>, k: nat, i: nat)
    requires k < |es| < |cs|
  {
    || (es[k].Win? && es[k].node == i && !IsLeader(cs[k], i))
    || (es[k].Renew? && es[k].node == i && IsLeader(cs[k], i))
  }

  // The last such event before point n.
  ghost predicate LastRefresh(cs: seq<Cluster>, es: seq<Event>, n: nat, i: nat, k: nat)
    requires n <= |es| < |cs|
  {
    k < n && Refreshes(cs, es, k, i) && forall m: nat :: k < m < n ==> !Refreshes(cs, es, m, i)
  }

  // At point n the last fresh support is more than the lease duration ago.
  ghost predicate Expired(p: Params, cs: seq<Cluster>, es: seq<Event>, n: nat, i: nat)
    requires n <= |es| < |cs|
  {
    exists k: nat :: LastRefresh(cs, es, n, i, k) && cs[k].now + p.lease < cs[n].now
  }

  // Event m ends node i's leadership: another leader is announced, it recovers, or a check
  // finds its support expired.
  ghost predicate Ends(p: Params, cs: seq<Cluster>, es: seq<Event>, m: nat, i: nat)
    requires m < |es| < |cs|
  {
    || (es[m].Lose? && es[m].node == i)
    || (es[m].Recover? && es[m].node == i)
    || (es[m].Check? && es[m].node == i && Expired(p, cs, es, m, i))
  }

  // A leader's lease dates from its last fresh support.
  ghost predicate LeaseDates(p: Params, cs: seq<Cluster>, es: seq<Event>, n: nat, i: nat)
    requires n <= |es| < |cs|
  {
    IsLeader(cs[n], i) ==>
      exists k: nat :: LastRefresh(cs, es, n, i, k) && cs[k].now <= cs[n].now
                       && cs[n].members[i].status.lease == QuorumLease(p.lease, cs[k].now)
  }

  lemma RunBeginning(p: Params, cs: seq<Cluster>, es: seq<Event>, n: nat)
    requires IsRun(p, cs, es) && n <= |es|
    ensures IsRun(p, cs[..n + 1], es[..n])
  {
    hide Enabled, After;
  }

  // Size and lease durations stay as they started.
  lemma {:induction false} Durations(p: Params, cs: seq<Cluster>, es: seq<Event>, n: nat)
    requires IsRun(p, cs, es) && n <= |es|
    ensures LeasesSet(p, cs[n])
  {
    if n > 0 {
      Durations(p, cs, es, n - 1);
      assert Enabled(p, cs[n - 1], es[n - 1]) && cs[n] == After(p, cs[n - 1], es[n - 1]);
    }
  }

  // What one event does to one node's role and lease.
  lemma OneEvent(p: Params, c: Cluster, e: Event, i: nat)
    requires Enabled(p, c, e) && i < |c.members|
    ensures var c', s := After(p, c, e), c.members[i].status;
            var s' := c'.members[i].status;
            && |c'.members| == |c.members| && c.now <= c'.now
            && (e.Win? && e.node == i && s.role != Leader ==> s' == Status(Leader, QuorumLease(s.lease.duration, c.now)))
            && (e.Renew? && e.node == i && s.role == Leader ==> s' == Status(Leader, QuorumLease(s.lease.duration, c.now)))
            && (e.Lose? && e.node == i ==> s'.role == (if s.role == Leader then Fenced else Standby))
            && (e.Recover? && e.node == i ==> s'.role == Standby)
            && (e.Check? && e.node == i ==> s'.lease == s.lease)
            && (e.Check? && e.node == i ==>
                  s'.role == (if s.role == Leader && !s.lease.IsValid(c.now) then Fenced else s.role))
            && (!((e.Win? || e.Renew? || e.Lose? || e.Recover? || e.Check?) && e.node == i) ==> s' == s)
            && (e.Win? && e.node == i && s.role == Leader ==> s' == s)
            && (e.Renew? && e.node == i && s.role != Leader ==> s' == s)
  {
  }

  lemma RefreshNow(cs: seq<Cluster>, es: seq<Event>, n: nat, i: nat)
    requires n < |es| < |cs| && Refreshes(cs, es, n, i)
    ensures LastRefresh(cs, es, n + 1, i, n)
  {
  }

  lemma RefreshStays(cs: seq<Cluster>, es: seq<Event>, n: nat, i: nat, k: nat)
    requires n < |es| < |cs| && !Refreshes(cs, es, n, i) && LastRefresh(cs, es, n, i, k)
    ensures LastRefresh(cs, es, n + 1, i, k)
  {
  }

  lemma {:induction false} LeaseDatesAt(p: Params, cs: seq<Cluster>, es: seq<Event>, n: nat, i: nat)
    requires IsRun(p, cs, es) && n <= |es|
    ensures LeaseDates(p, cs, es, n, i)
    decreases n
  {
    hide Enabled, After;
    if n > 0 && IsLeader(cs[n], i) {
      var c, e := cs[n - 1], es[n - 1];
      assert Enabled(p, c, e) && cs[n] == After(p, c, e);
      LeaseDatesAt(p, cs, es, n - 1, i);
      Durations(p, cs, es, n - 1);
      Durations(p, cs, es, n);
      OneEvent(p, c, e, i);
      if Refreshes(cs, es, n - 1, i) {
        RefreshNow(cs, es, n - 1, i);
      } else {
        assert IsLeader(c, i);
        var k: nat :| LastRefresh(cs, es, n - 1, i, k) && cs[k].now <= c.now
                      && c.members[i].status.lease == QuorumLease(p.lease, cs[k].now);
        RefreshStays(cs, es, n - 1, i, k);
      }
    }
  }

  lemma OnlyOneLast(cs: seq<Cluster>, es: seq<Event>, n: nat, i: nat, k: nat, l: nat)
    requires n <= |es| < |cs| && LastRefresh(cs, es, n, i, k) && LastRefresh(cs, es, n, i, l)
    ensures k == l
  {
  }

  // A leader's lease has run out exactly if its last fresh support is more than the lease
  // duration ago.
  lemma ExpiredIff(p: Params, cs: seq<Cluster>, es: seq<Event>, n: nat, i: nat)
    requires IsRun(p, cs, es) && n <= |es| && IsLeader(cs[n], i)
    ensures !cs[n].members[i].status.lease.IsValid(cs[n].now) <==> Expired(p, cs, es, n, i)
  {
    hide Enabled, After, Refreshes;
    LeaseDatesAt(p, cs, es, n, i);
    var k: nat :| LastRefresh(cs, es, n, i, k) && cs[k].now <= cs[n].now
                  && cs[n].members[i].status.lease == QuorumLease(p.lease, cs[k].now);
    if Expired(p, cs, es, n, i) {
      var l: nat :| LastRefresh(cs, es, n, i, l) && cs[l].now + p.lease < cs[n].now;
      OnlyOneLast(cs, es, n, i, k, l);
    }
  }

  // In every run a check fences its node exactly if the node leads and its last election
  // or acknowledgement is more than the lease duration ago; otherwise it does nothing.
  lemma CheckFencesIff(p: Params, cs: seq<Cluster>, es: seq<Event>, n: nat, i: nat)
    requires IsRun(p, cs, es) && n < |es| && es[n] == Check(i)
    ensures i < |cs[n].members| == |cs[n + 1].members|
    ensures IsLeader(cs[n], i) && cs[n + 1].members[i].status.role == Fenced <==>
            IsLeader(cs[n], i) && Expired(p, cs, es, n, i)
    ensures Checked(cs[n].members[i].status, cs[n].now).1 ==
            (if IsLeader(cs[n], i) && Expired(p, cs, es, n, i) then FenceImmediately else Noop)
    ensures !(IsLeader(cs[n], i) && Expired(p, cs, es, n, i)) ==>
              cs[n + 1].members[i].status == cs[n].members[i].status
  {
    hide After, Expired;
    assert Enabled(p, cs[n], es[n]) && cs[n + 1] == After(p, cs[n], es[n]);
    OneEvent(p, cs[n], es[n], i);
    if IsLeader(cs[n], i) {
      ExpiredIff(p, cs, es, n, i);
    }
  }

  // Node i wins at event k, and nothing up to point n ends its leadership.
  ghost predicate Reigns(p: Params, cs: seq<Cluster>, es: seq<Event>, n: nat, i: nat, k: nat)
    requires n <= |es| < |cs|
  {
    k < n && es[k].Win? && es[k].node == i && forall m: nat :: k < m < n ==> !Ends(p, cs, es, m, i)
  }

  ghost predicate HasReign(p: Params, cs: seq<Cluster>, es: seq<Event>, n: nat, i: nat)
    requires n <= |es| < |cs|
  {
    exists k: nat :: Reigns(p, cs, es, n, i, k)
  }

  // How one event changes who leads.
  lemma LeadsNext(p: Params, cs: seq<Cluster>, es: seq<Event>, n: nat, i: nat)
    requires IsRun(p, cs, es) && n < |es|
    ensures IsLeader(cs[n + 1], i) <==>
            (es[n].Win? && es[n].node == i) || (IsLeader(cs[n], i) && !Ends(p, cs, es, n, i))
  {
    hide Enabled, After, Expired;
    assert Enabled(p, cs[n], es[n]) && cs[n + 1] == After(p, cs[n], es[n]);
    Durations(p, cs, es, n);
    Durations(p, cs, es, n + 1);
    WinnerIsMember(p, cs[n], es[n]);
    if i < p.n {
      OneEvent(p, cs[n], es[n], i);
      if IsLeader(cs[n], i) {
        ExpiredIff(p, cs, es, n, i);
      }
    }
  }

  lemma WinnerIsMember(p: Params, c: Cluster, e: Event)
    requires Enabled(p, c, e)
    ensures e.Win? ==> e.node < |c.members|
  {
  }

  // In every run a node leads exactly if it has won an election and since then no other
  // leader was announced to it, it has not recovered, and no check found its support
  // expired.
  lemma {:induction false} LeadsIff(p: Params, cs: seq<Cluster>, es: seq<Event>, n: nat, i: nat)
    requires IsRun(p, cs, es) && n <= |es|
    ensures IsLeader(cs[n], i) <==> HasReign(p, cs, es, n, i)
    decreases n
  {
    hide Enabled, After, Ends;
    if n == 0 {
      StartsWithout(p, cs[0], i);
    } else {
      LeadsIff(p, cs, es, n - 1, i);
      LeadsNext(p, cs, es, n - 1, i);
      ReignNext(p, cs, es, n - 1, i);
    }
  }

  lemma StartsWithout(p: Params, c: Cluster, i: nat)
    requires Initial(p, c)
    ensures !IsLeader(c, i)
  {
  }

  lemma ReignNext(p: Params, cs: seq<Cluster>, es: seq<Event>, n: nat, i: nat)
    requires n < |es| < |cs|
    ensures HasReign(p, cs, es, n + 1, i) <==>
            (es[n].Win? && es[n].node == i) || (HasReign(p, cs, es, n, i) && !Ends(p, cs, es, n, i))
  {
    hide Ends;
    var n' := n + 1;
    if es[n].Win? && es[n].node == i {
      assert Reigns(p, cs, es, n', i, n);
    }
    if HasReign(p, cs, es, n, i) && !Ends(p, cs, es, n, i) {
      var k: nat :| Reigns(p, cs, es, n, i, k);
      assert Reigns(p, cs, es, n', i, k);
    }
    if HasReign(p, cs, es, n', i) {
      var k: nat :| Reigns(p, cs, es, n', i, k);
      if k < n {
        assert !Ends(p, cs, es, n, i);
        assert Reigns(p, cs, es, n, i, k);
      }
    }
  }

  // Node i is fenced at event k, and until point n it neither wins, nor hears of another
  // leader, nor recovers.
  ghost predicate StaysFenced(p: Params, cs: seq<Cluster>, es: seq<Event>, n: nat, i: nat, k: nat)
    requires n <= |es| < |cs|
  {
    && k < n && IsLeader(cs[k], i) && Ends(p, cs, es, k, i) && !es[k].Recover?
    && forall m: nat :: k < m < n ==> !Frees(es[m], i)
  }

  ghost predicate HasFence(p: Params, cs: seq<Cluster>, es: seq<Event>, n: nat, i: nat)
    requires n <= |es| < |cs|
  {
    exists k: nat :: StaysFenced(p, cs, es, n, i, k)
  }

  predicate Frees(e: Event, i: nat) {
    (e.Win? || e.Lose? || e.Recover?) && e.node == i
  }

  predicate IsFenced(c: Cluster, i: nat) {
    i < |c.members| && c.members[i].status.role == Fenced
  }

  lemma FencedNext(p: Params, cs: seq<Cluster>, es: seq<Event>, n: nat, i: nat)
    requires IsRun(p, cs, es) && n < |es|
    ensures IsFenced(cs[n + 1], i) <==>
            || (IsLeader(cs[n], i) && Ends(p, cs, es, n, i) && !es[n].Recover?)
            || (IsFenced(cs[n], i) && !Frees(es[n], i))
  {
    hide Enabled, After, Expired;
    assert Enabled(p, cs[n], es[n]) && cs[n + 1] == After(p, cs[n], es[n]);
    Durations(p, cs, es, n);
    Durations(p, cs, es, n + 1);
    if i < p.n {
      OneEvent(p, cs[n], es[n], i);
      if IsLeader(cs[n], i) {
        ExpiredIff(p, cs, es, n, i);
      }
    }
  }

  // A node is fenced exactly if it led when another leader was announced to it or a check
  // found its support expired, and nothing has freed it since. All others are standbys.
  lemma {:induction false} FencedIff(p: Params, cs: seq<Cluster>, es: seq<Event>, n: nat, i: nat)
    requires IsRun(p, cs, es) && n <= |es|
    ensures IsFenced(cs[n], i) <==> HasFence(p, cs, es, n, i)
    decreases n
  {
    hide Enabled, After, Ends, IsLeader;
    if n > 0 {
      FencedIff(p, cs, es, n - 1, i);
      FencedNext(p, cs, es, n - 1, i);
      FenceNext(p, cs, es, n - 1, i);
    }
  }

  lemma FenceNext(p: Params, cs: seq<Cluster>, es: seq<Event>, n: nat, i: nat)
    requires n < |es| < |cs|
    ensures HasFence(p, cs, es, n + 1, i) <==>
            || (IsLeader(cs[n], i) && Ends(p, cs, es, n, i) && !es[n].Recover?)
            || (HasFence(p, cs, es, n, i) && !Frees(es[n], i))
  {
    hide Ends, IsLeader;
    var n' := n + 1;
    if IsLeader(cs[n], i) && Ends(p, cs, es, n, i) && !es[n].Recover? {
      assert StaysFenced(p, cs, es, n', i, n);
    }
    if HasFence(p, cs, es, n, i) && !Frees(es[n], i) {
      var k: nat :| StaysFenced(p, cs, es, n, i, k);
      assert StaysFenced(p, cs, es, n', i, k);
    }
    if HasFence(p, cs, es, n', i) {
      var k: nat :| StaysFenced(p, cs, es, n', i, k);
      if k < n {
        assert !Frees(es[n], i);
        assert StaysFenced(p, cs, es, n, i, k);
      }
    }
  }
}
