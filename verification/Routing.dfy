// Where queries go: what needs the leader reaches leader connections only, unless a read
// has opened a transaction on a standby.
module Routing {
  import opened Bytes
  import opened Frames
  import opened Pool
  import opened Responses
  import opened Session
  import opened Pinning
  import opened Strings
  import opened Statements

  predicate NeedsLeader(u: Unicode, s: State, sql: string) {
    s.tracker.RequiresLeader(Classify(u, sql))
  }

  // The pool honours the request: whoever asks for a leader connection gets one, or none.
  ghost predicate Honoured(u: Unicode, s: State, q: Query, sql: string) {
    NeedsLeader(u, s, sql) ==> forall b :: Some(b) in q.more ==> b.conn.role == LeaderRole
  }

  // A run of a session over the texts of its queries.
  ghost predicate IsRoutedRun(u: Unicode, ss: seq<State>, qs: seq<Query>, sqls: seq<string>) {
    && Pinning.IsRun(ss, qs) && |sqls| == |qs|
    && forall k :: 0 <= k < |qs| ==> Honoured(u, ss[k], qs[k], sqls[k])
  }

  ghost predicate ReachesLeadersOnly(q: Query) {
    forall b :: b in ReachedBy(q) ==> b.conn.role == LeaderRole
  }

  // The session holds a standby's connection.
  predicate HoldsStandby(s: State) {
    s.active.Some? && s.active.value.role == StandbyRole
  }

  // The last backend reached is a standby, and answers that a transaction is open.
  predicate OpensOnStandby(q: Query) {
    var rs := ReachedBy(q);
    rs != [] && rs[|rs| - 1].conn.role == StandbyRole && Answers(rs[|rs| - 1]) && StatusSent(rs[|rs| - 1]) != Idle
  }

  // A query that may go to a standby opens a transaction there.
  predicate Strays(u: Unicode, s: State, q: Query, sql: string) {
    !NeedsLeader(u, s, sql) && OpensOnStandby(q)
  }

  // A standby's connection is held after a query exactly if the query opened, or kept
  // open, a transaction there.
  lemma HoldsStandbyIff(s: State, q: Query)
    ensures HoldsStandby(Next(s, q)) <==> OpensOnStandby(q)
  {
    hide Handled, StatusSent, Reached, Answers;
    FinishedIff(q);
    var rs := ReachedBy(q);
    if rs != [] && Answers(rs[|rs| - 1]) {
      assert rs[|rs| - 1] in rs;
      HeldByStatus(s.tracker, Handled(q.held, q.more));
    }
  }

  lemma HeldByStatus(t: Tracker, o: Outcome)
    requires o.Finished?
    ensures Settled(t, o).1 == if Settled(t, o).0.status == Idle then None else Some(o.conn)
  {
  }

  // One query that needs the leader: it reaches leader connections only, exactly if it
  // does not go out on a held standby's connection.
  lemma LeaderQueryIff(u: Unicode, s: State, q: Query, sql: string)
    requires Fits(s, q) && Honoured(u, s, q, sql) && NeedsLeader(u, s, sql)
    ensures ReachesLeadersOnly(q) <==> !(HoldsStandby(s) && q.held.value.accepts)
  {
    hide Classify;
    FailoverRelay(q.held, q.more);
    if HoldsStandby(s) && q.held.value.accepts {
      assert ReachedBy(q)[0] == q.held.value;
    }
  }

  // A query that needs the leader never brings a standby's connection into the session.
  lemma LeaderQueryStaysClean(u: Unicode, s: State, q: Query, sql: string)
    requires Fits(s, q) && Honoured(u, s, q, sql) && NeedsLeader(u, s, sql) && OpensOnStandby(q)
    ensures HoldsStandby(s)
  {
    hide Classify, Answers, StatusSent, Reached;
    FailoverRelay(q.held, q.more);
    var rs := ReachedBy(q);
    assert rs[|rs| - 1] in rs;
  }

  // A standby's connection is held at some point of a run exactly if some query strays.
  lemma NeverHeldIff(u: Unicode, ss: seq<State>, qs: seq<Query>, sqls: seq<string>)
    requires IsRoutedRun(u, ss, qs, sqls)
    ensures (forall k :: 0 <= k < |ss| ==> !HoldsStandby(ss[k])) <==>
            (forall k :: 0 <= k < |qs| ==> !Strays(u, ss[k], qs[k], sqls[k]))
  {
    hide Next, NeedsLeader, OpensOnStandby;
    if k :| 0 <= k < |qs| && Strays(u, ss[k], qs[k], sqls[k]) {
      HoldsStandbyIff(ss[k], qs[k]);
      assert ss[k + 1] == Next(ss[k], qs[k]);
    }
    if forall k :: 0 <= k < |qs| ==> !Strays(u, ss[k], qs[k], sqls[k]) {
      forall k | 0 <= k < |ss|
        ensures !HoldsStandby(ss[k])
      {
        NothingHeld(u, ss, qs, sqls, k);
      }
    }
  }

  lemma {:induction false} NothingHeld(u: Unicode, ss: seq<State>, qs: seq<Query>, sqls: seq<string>, k: nat)
    requires IsRoutedRun(u, ss, qs, sqls) && k < |ss|
    requires forall j :: 0 <= j < k ==> !Strays(u, ss[j], qs[j], sqls[j])
    ensures !HoldsStandby(ss[k])
  {
    hide Next, NeedsLeader, OpensOnStandby;
    if k > 0 {
      NothingHeld(u, ss, qs, sqls, k - 1);
      var s, q, sql := ss[k - 1], qs[k - 1], sqls[k - 1];
      assert ss[k] == Next(s, q) && !Strays(u, s, q, sql);
      HoldsStandbyIff(s, q);
      if NeedsLeader(u, s, sql) && OpensOnStandby(q) {
        LeaderQueryStaysClean(u, s, q, sql);
      }
    }
  }

  // Leader routing over whole runs: every query that needs the leader reaches leader
  // connections only, exactly if no query goes out on a held standby's connection.
  lemma LeaderRoutingIff(u: Unicode, ss: seq<State>, qs: seq<Query>, sqls: seq<string>)
    requires IsRoutedRun(u, ss, qs, sqls)
    ensures (forall k :: 0 <= k < |qs| && NeedsLeader(u, ss[k], sqls[k]) ==> ReachesLeadersOnly(qs[k])) <==>
            (forall k :: 0 <= k < |qs| && HoldsStandby(ss[k]) ==> !qs[k].held.value.accepts)
  {
    hide ReachesLeadersOnly, Classify;
    forall k | 0 <= k < |qs|
      ensures NeedsLeader(u, ss[k], sqls[k]) ==>
                (ReachesLeadersOnly(qs[k]) <==> !(HoldsStandby(ss[k]) && qs[k].held.value.accepts))
      ensures HoldsStandby(ss[k]) ==> NeedsLeader(u, ss[k], sqls[k])
    {
      if NeedsLeader(u, ss[k], sqls[k]) {
        LeaderQueryIff(u, ss[k], qs[k], sqls[k]);
      }
      Pinned(ss, qs, k);
    }
  }

  // So without stray queries everything that needs the leader gets the leader.
  lemma NoStraysNoStandby(u: Unicode, ss: seq<State>, qs: seq<Query>, sqls: seq<string>)
    requires IsRoutedRun(u, ss, qs, sqls) && forall k :: 0 <= k < |qs| ==> !Strays(u, ss[k], qs[k], sqls[k])
    ensures forall k :: 0 <= k < |qs| && NeedsLeader(u, ss[k], sqls[k]) ==> ReachesLeadersOnly(qs[k])
  {
    NeverHeldIff(u, ss, qs, sqls);
    LeaderRoutingIff(u, ss, qs, sqls);
  }

  // ---- A stray query.

  // A text that begins as a read and begins a transaction, sent while idle, goes to a
  // standby; the write behind it follows it there.
  lemma StrayRun(u: Unicode) returns (ss: seq<State>, qs: seq<Query>, sqls: seq<string>)
    requires Sensible(u)
    ensures sqls == ["SELECT 1; BEGIN", "INSERT INTO t VALUES (1)"] && IsRoutedRun(u, ss, qs, sqls)
    ensures Strays(u, ss[0], qs[0], sqls[0]) && NeedsLeader(u, ss[1], sqls[1]) && !ReachesLeadersOnly(qs[1])
  {
    hide Classify, OpensOnStandby, Next, AnswerOf, ReachesLeadersOnly;
    var c := Conn(0, StandbyRole, "standby", Login(None, None));
    OpeningOpens(c);
    StaysOpen(c);
    SelectIsRead(u, "1; BEGIN");
    assert "SELECT " + "1; BEGIN" == "SELECT 1; BEGIN";
    var pinned := Next(START, Opening(c));
    qs := [Opening(c), Query(Some(Answering(c, IN_TX)), [])];
    ss, sqls := [START, pinned, pinned], ["SELECT 1; BEGIN", "INSERT INTO t VALUES (1)"];
    HoldsStandbyIff(START, qs[0]);
    LeaderQueryIff(u, pinned, qs[1], sqls[1]);
  }
}
