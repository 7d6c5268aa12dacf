// What a monitor's rounds mean: one round in terms of the peers' answers, many rounds in
// terms of the last five, and the cluster's steps as rounds.
module ElectionRounds {
  import opened Bytes
  import opened RaftTypes
  import opened Quorums
  import opened Election

  // ---- One round.

  predicate AnswersAlive(a: Option<Answer>) {
    a.Some? && (a.value.status == Running || a.value.status == Restoring)
  }

  // Some peer answers as an alive leader.
  predicate LeaderAnswers(answers: seq<Option<Answer>>) {
    exists k :: 0 <= k < |answers| && AnswersAlive(answers[k]) && answers[k].value.role == Leader
  }

  // The node itself and every id that an alive peer answers with.
  function AliveIds(id: nat, answers: seq<Option<Answer>>): set<nat> {
    {id} + set k | 0 <= k < |answers| && AnswersAlive(answers[k]) :: answers[k].value.id
  }

  lemma LeaderNext(answers: seq<Option<Answer>>, a: Option<Answer>)
    ensures LeaderAnswers(answers + [a]) <==> LeaderAnswers(answers) || (AnswersAlive(a) && a.value.role == Leader)
  {
    var all, n := answers + [a], |answers|;
    assert all[n] == a && forall k :: 0 <= k < n ==> all[k] == answers[k];
  }

  lemma AliveNext(id: nat, answers: seq<Option<Answer>>, a: Option<Answer>)
    ensures AliveIds(id, answers + [a]) ==
            if AnswersAlive(a) then AliveIds(id, answers) + {a.value.id} else AliveIds(id, answers)
  {
    var all, n := answers + [a], |answers|;
    assert all[n] == a && forall k :: 0 <= k < n ==> all[k] == answers[k];
    forall j | j in AliveIds(id, answers)
      ensures j in AliveIds(id, all)
    {
      if j != id {
        var k :| 0 <= k < n && AnswersAlive(answers[k]) && answers[k].value.id == j;
        assert all[k] == answers[k];
      }
    }
  }

  // The tally is who is alive and whether an alive peer leads, in whatever order they answer.
  lemma {:induction false} TallyMeans(id: nat, answers: seq<Option<Answer>>)
    ensures Tally(id, answers) == (AliveIds(id, answers), LeaderAnswers(answers))
    decreases |answers|
  {
    hide AliveIds, LeaderAnswers;
    if answers == [] {
      NobodyAnswers(id);
    } else {
      var n := |answers| - 1;
      TallyMeans(id, answers[..n]);
      assert answers == answers[..n] + [answers[n]];
      LeaderNext(answers[..n], answers[n]);
      AliveNext(id, answers[..n], answers[n]);
    }
  }

  lemma NobodyAnswers(id: nat)
    ensures AliveIds(id, []) == {id} && !LeaderAnswers([])
  {
  }

  // A standby to which an alive leader answers stays one, and its misses are forgotten.
  lemma LeaderKeepsStandby(id: nat, quorum: nat, missed: nat, answers: seq<Option<Answer>>, ok: bool)
    requires LeaderAnswers(answers)
    ensures var (alive, found) := Tally(id, answers);
            RoleAfter(id, quorum, missed, alive, found, ok) == Standby && Missed(id, quorum, missed, alive, found, ok) == 0
  {
    TallyMeans(id, answers);
  }

  // ---- Many rounds.

  // A standby's round: paused while its process restores or is stopped, or with the
  // peers' answers and whether promotion would succeed.
  datatype Round = Paused | Polled(answers: seq<Option<Answer>>, promoteSucceeds: bool)

  // Role and counter of a node that starts as a standby; nothing follows a promotion.
  function AfterRounds(id: nat, peerCount: nat, rounds: seq<Round>): (NodeRole, nat) {
    if rounds == [] then (Standby, 0) else
    var n := |rounds| - 1;
    var (role, missed) := AfterRounds(id, peerCount, rounds[..n]);
    if role != Standby then (role, missed) else
    match rounds[n]
    case Paused => (Standby, 0)
    case Polled(answers, ok) =>
      var (alive, found) := Tally(id, answers);
      (RoleAfter(id, Quorum(peerCount), missed, alive, found, ok), Missed(id, Quorum(peerCount), missed, alive, found, ok))
  }

  // A round in which no alive leader answers.
  predicate Misses(r: Round) {
    r.Polled? && !LeaderAnswers(r.answers)
  }

  // Exactly the last t rounds are such.
  predicate TrailingMisses(rounds: seq<Round>, t: nat) {
    && t <= |rounds| && (forall k :: |rounds| - t <= k < |rounds| ==> Misses(rounds[k]))
    && (t < |rounds| ==> !Misses(rounds[|rounds| - t - 1]))
  }

  lemma TrailingNext(rounds: seq<Round>, r: Round, t: nat)
    requires TrailingMisses(rounds, t)
    ensures TrailingMisses(rounds + [r], if Misses(r) then t + 1 else 0)
  {
    var all, n := rounds + [r], |rounds|;
    assert all[n] == r && forall k :: 0 <= k < n ==> all[k] == rounds[k];
  }

  // A standby's counter is the number of rounds since a leader was last seen, or the node
  // paused.
  lemma {:induction false} CounterMeans(id: nat, peerCount: nat, rounds: seq<Round>)
    requires AfterRounds(id, peerCount, rounds).0 == Standby
    ensures TrailingMisses(rounds, AfterRounds(id, peerCount, rounds).1)
    decreases |rounds|
  {
    hide TrailingMisses, LeaderAnswers;
    if rounds == [] {
      NoRounds();
    } else {
      var n := |rounds| - 1;
      CounterMeans(id, peerCount, rounds[..n]);
      assert rounds == rounds[..n] + [rounds[n]];
      TrailingNext(rounds[..n], rounds[n], AfterRounds(id, peerCount, rounds[..n]).1);
      if rounds[n].Polled? {
        TallyMeans(id, rounds[n].answers);
      }
    }
  }

  lemma NoRounds()
    ensures TrailingMisses([], 0)
  {
  }

  // The round sees a majority alive, and the node is the lowest of them.
  predicate Electable(id: nat, peerCount: nat, r: Round) {
    r.Polled? && |AliveIds(id, r.answers)| >= peerCount / 2 + 1 && IsLeast(AliveIds(id, r.answers), id)
  }

  // A standby is promoted in a round exactly if that round and the four before it were all
  // polled and none of them saw an alive leader, the round sees a majority of which the
  // node is the lowest, and promotion succeeds.
  lemma PromotedIff(id: nat, peerCount: nat, rounds: seq<Round>)
    requires rounds != [] && AfterRounds(id, peerCount, rounds[..|rounds| - 1]).0 == Standby
    ensures var n := |rounds|;
            AfterRounds(id, peerCount, rounds).0 == Leader <==>
            && n >= 5 && (forall k :: n - 5 <= k < n ==> Misses(rounds[k]))
            && Electable(id, peerCount, rounds[n - 1]) && rounds[n - 1].promoteSucceeds
    ensures AfterRounds(id, peerCount, rounds).0 != Leader ==> AfterRounds(id, peerCount, rounds).0 == Standby
  {
    hide LeaderAnswers, AliveIds;
    var n := |rounds|;
    var init, r := rounds[..n - 1], rounds[n - 1];
    CounterMeans(id, peerCount, init);
    var t := AfterRounds(id, peerCount, init).1;
    assert forall k :: 0 <= k < n - 1 ==> init[k] == rounds[k];
    if r.Polled? {
      TallyMeans(id, r.answers);
      EnoughMisses(rounds, t);
    }
  }

  // Five rounds without a leader are four before the last, and the last.
  lemma EnoughMisses(rounds: seq<Round>, t: nat)
    requires rounds != [] && TrailingMisses(rounds[..|rounds| - 1], t)
    ensures var n := |rounds|;
            Misses(rounds[n - 1]) ==>
              (t + 1 >= 5 <==> n >= 5 && forall k :: n - 5 <= k < n ==> Misses(rounds[k]))
  {
    hide Misses;
    var n := |rounds|;
    var init := rounds[..n - 1];
    assert forall k :: 0 <= k < n - 1 ==> init[k] == rounds[k];
    if t < n - 1 {
      assert !Misses(rounds[n - 1 - t - 1]);
    }
  }

  // ---- The cluster's steps are rounds.

  // The answers that node i gets when nothing changes while it asks.
  function AskedAll(net: Net, s: seq<Node>, i: nat): seq<Option<Answer>>
    requires |net.comp| == net.n == |s| && |net.peers| == net.n && i < net.n
  {
    seq(|net.peers[i]|, k requires 0 <= k < |net.peers[i]| => Asked(net, s, i, net.peers[i][k]))
  }

  // Node i after k answers.
  function Asking(net: Net, s: seq<Node>, i: nat, k: nat): seq<Node>
    requires |net.comp| == net.n == |s| && |net.peers| == net.n && i < net.n && k <= |net.peers[i]|
  {
    var (alive, found) := Tally(i, AskedAll(net, s, i)[..k]);
    s[i := s[i].(phase := Probing(k, alive, found))]
  }

  // The first steps of a round: the beginning and k requests.
  function FirstSteps(i: nat, k: nat): seq<Event> {
    [Begin(i)] + seq(k, _ => Probe(i))
  }

  lemma StepsThen(net: Net, ss: seq<seq<Node>>, es: seq<Event>, e: Event)
    requires WellFormed(net) && IsSteps(net, ss, es) && |ss[|es|]| == net.n && Enabled(net, ss[|es|], e)
    ensures IsSteps(net, ss + [After(net, ss[|es|], e)], es + [e])
  {
    hide Enabled, After;
    var ss', es' := ss + [After(net, ss[|es|], e)], es + [e];
    forall k | 0 <= k < |es'|
      ensures |ss'[k]| == net.n && Enabled(net, ss'[k], es'[k]) && ss'[k + 1] == After(net, ss'[k], es'[k])
    {
      if k < |es| {
        assert ss'[k] == ss[k] && ss'[k + 1] == ss[k + 1] && es'[k] == es[k];
      }
    }
  }

  lemma BeginAsks(net: Net, s: seq<Node>, i: nat)
    requires WellFormed(net) && |s| == net.n && Enabled(net, s, Begin(i))
    ensures After(net, s, Begin(i)) == Asking(net, s, i, 0)
  {
    assert AskedAll(net, s, i)[..0] == [];
  }

  lemma ProbeAsks(net: Net, s: seq<Node>, i: nat, k: nat)
    requires WellFormed(net) && |s| == net.n && i < net.n && k < |net.peers[i]|
    ensures Enabled(net, Asking(net, s, i, k), Probe(i))
    ensures After(net, Asking(net, s, i, k), Probe(i)) == Asking(net, s, i, k + 1)
  {
    var answers, b, j := AskedAll(net, s, i), Asking(net, s, i, k), net.peers[i][k];
    assert answers[..k + 1][..k] == answers[..k] && answers[..k + 1][k] == Asked(net, s, i, j);
    assert Asked(net, b, i, j) == Asked(net, s, i, j);
    assert ListsPeers(net, i) && j in net.peers[i];
  }

  lemma {:induction false} AsksInOneGo(net: Net, s: seq<Node>, i: nat, k: nat) returns (ss: seq<seq<Node>>)
    requires WellFormed(net) && |s| == net.n && Enabled(net, s, Begin(i)) && k <= |net.peers[i]|
    ensures IsSteps(net, ss, FirstSteps(i, k)) && ss[0] == s && ss[k + 1] == Asking(net, s, i, k)
    decreases k
  {
    hide After, Asking;
    if k == 0 {
      BeginAsks(net, s, i);
      ss := [s, After(net, s, Begin(i))];
      assert FirstSteps(i, 0) == [Begin(i)];
    } else {
      ss := AsksInOneGo(net, s, i, k - 1);
      ProbeAsks(net, s, i, k - 1);
      AskingSize(net, s, i, k - 1);
      StepsThen(net, ss, FirstSteps(i, k - 1), Probe(i));
      assert FirstSteps(i, k - 1) + [Probe(i)] == FirstSteps(i, k);
      ss := ss + [After(net, ss[k], Probe(i))];
    }
  }

  lemma AskingSize(net: Net, s: seq<Node>, i: nat, k: nat)
    requires WellFormed(net) && |s| == net.n && i < net.n && k <= |net.peers[i]|
    ensures |Asking(net, s, i, k)| == net.n
  {
  }

  // Beginning, asking every peer and acting, with nothing in between, leaves the role and
  // the counter that the monitor's round computes from the peers' answers.
  lemma RoundInOneGo(net: Net, s: seq<Node>, i: nat, ok: bool) returns (ss: seq<seq<Node>>)
    requires WellFormed(net) && |s| == net.n && Enabled(net, s, Begin(i))
    ensures var es := FirstSteps(i, |net.peers[i]|) + [Act(i, ok)];
            var q, missed := Quorum(|net.peers[i]|), s[i].missed;
            var (alive, found) := Tally(i, AskedAll(net, s, i));
            && IsSteps(net, ss, es) && ss[0] == s
            && ss[|es|] == s[i := Node(RoleAfter(i, q, missed, alive, found, ok), s[i].status,
                                       Missed(i, q, missed, alive, found, ok), Idle)]
  {
    var n := |net.peers[i]|;
    ss := AsksInOneGo(net, s, i, n);
    ActEnds(net, s, i, ok);
    AskingSize(net, s, i, n);
    StepsThen(net, ss, FirstSteps(i, n), Act(i, ok));
    ss := ss + [After(net, ss[n + 1], Act(i, ok))];
  }

  lemma ActEnds(net: Net, s: seq<Node>, i: nat, ok: bool)
    requires WellFormed(net) && |s| == net.n && i < net.n
    ensures var b := Asking(net, s, i, |net.peers[i]|);
            var q, missed := Quorum(|net.peers[i]|), s[i].missed;
            var (alive, found) := Tally(i, AskedAll(net, s, i));
            && |b| == net.n && Enabled(net, b, Act(i, ok))
            && After(net, b, Act(i, ok)) == s[i := Node(RoleAfter(i, q, missed, alive, found, ok), s[i].status,
                                                        Missed(i, q, missed, alive, found, ok), Idle)]
  {
    var answers := AskedAll(net, s, i);
    assert answers[..|answers|] == answers;
  }

  // A leader, and a fenced node, sees another running leader exactly if some peer answers
  // as one.
  lemma SeesIff(net: Net, s: seq<Node>, i: nat)
    requires WellFormed(net) && |s| == net.n && i < net.n
    ensures SeesLeader(net, s, i) <==>
            exists k :: 0 <= k < |net.peers[i]| && AnswersAsRunningLeader(AskedAll(net, s, i)[k], i)
  {
    assert ListsPeers(net, i);
    if SeesLeader(net, s, i) {
      var j: nat :| j != i && Reaches(net, i, j) && RunningLeader(s, j);
      assert j in net.peers[i];
      var k :| 0 <= k < |net.peers[i]| && net.peers[i][k] == j;
      assert AnswersAsRunningLeader(AskedAll(net, s, i)[k], i);
    }
    if k :| 0 <= k < |net.peers[i]| && AnswersAsRunningLeader(AskedAll(net, s, i)[k], i) {
      assert RunningLeader(s, net.peers[i][k]);
    }
  }

  // A fenced node that sees a leader restores from it; if that works it is a running standby
  // with no misses, and otherwise it is fenced as before.
  lemma RejoinInOneGo(net: Net, s: seq<Node>, i: nat, ok: bool)
    requires WellFormed(net) && |s| == net.n && i < net.n && s[i].role == Fenced && SeesLeader(net, s, i)
    ensures Enabled(net, s, Resync(i)) && Enabled(net, After(net, s, Resync(i)), Resynced(i, ok))
    ensures var x := After(net, After(net, s, Resync(i)), Resynced(i, ok))[i];
            if ok then x.role == Standby && x.status == Running && x.missed == 0
            else x.role == Fenced && x.status == Down && x.missed == s[i].missed
  {
  }
}
