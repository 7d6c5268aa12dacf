// How a query ends, read off the script alone: the targets it may be sent to, whether each
// takes it, and the bytes that come back.
module Failover {
  import opened Bytes
  import opened Frames
  import opened Pool
  import opened Responses
  import opened Session

  // The held connection, if there is one, and then the outcome of each acquire.
  function Targets(held: Option<Backend>, more: Attempts): Attempts {
    if held.Some? then [held] + more else more
  }

  // The connection ends before its bytes make a whole frame.
  predicate NoWholeFrame(b: Backend) {
    !HasFrame(Joined(b.chunks))
  }

  lemma SilentIff(b: Backend)
    ensures Silent(b) <==> NoWholeFrame(b)
  {
    hide Reaction, HasFrame;
    NothingIff(Joined(b.chunks));
  }

  // A target that takes the query and goes away.
  predicate GoesAway(t: Option<Backend>) {
    t.Some? && t.value.accepts && NoWholeFrame(t.value)
  }

  // A target that the query passes over; only the first may refuse it.
  predicate PassedOver(ts: Attempts, j: nat) {
    j < |ts| && (GoesAway(ts[j]) || (j == 0 && ts[0].Some? && !ts[0].value.accepts))
  }

  // The first target that the query does not pass over, or the end of the script.
  predicate Decides(ts: Attempts, k: nat) {
    k <= |ts| && (forall j: nat :: j < k ==> PassedOver(ts, j)) && !PassedOver(ts, k)
  }

  lemma {:induction false} FirstDecider(ts: Attempts, from: nat) returns (k: nat)
    requires from <= |ts| && forall j: nat :: j < from ==> PassedOver(ts, j)
    ensures Decides(ts, k)
    decreases |ts| - from
  {
    if PassedOver(ts, from) {
      k := FirstDecider(ts, from + 1);
    } else {
      k := from;
    }
  }

  // The outcome that the target at k decides: a timeout, or the end of the script, reports
  // a failure; a refusal ends the session; otherwise the bytes decide.
  function Verdict(ts: Attempts, k: nat): Outcome {
    if k >= |ts| || ts[k] == None then Aborted([]) else
    if !ts[k].value.accepts then SessionEnds else
    var (fs, end) := AnswerOf(ts[k].value);
    match end
    case Ready(status) => Finished(fs, ts[k].value.conn, status)
    case Jam => Stuck(fs)
    case Incomplete => Aborted(fs)
  }

  // The targets that take the query, among the first n.
  function Takers(ts: Attempts, n: nat): seq<Backend>
    requires n <= |ts|
  {
    if n == 0 then [] else
    Takers(ts, n - 1) + if ts[n - 1].Some? && ts[n - 1].value.accepts then [ts[n - 1].value] else []
  }

  function UpTo(ts: Attempts, k: nat): nat {
    if k < |ts| then k + 1 else |ts|
  }

  lemma {:induction false} TakersShift(t: Option<Backend>, ts: Attempts, n: nat)
    requires n <= |ts|
    ensures Takers([t] + ts, n + 1) == (if t.Some? && t.value.accepts then [t.value] else []) + Takers(ts, n)
    decreases n
  {
    if n == 0 {
      assert Takers([t] + ts, 0) == [];
    } else {
      TakersShift(t, ts, n - 1);
      assert ([t] + ts)[n] == ts[n - 1];
      Assoc(if t.Some? && t.value.accepts then [t.value] else [], Takers(ts, n - 1),
            if ts[n - 1].Some? && ts[n - 1].value.accepts then [ts[n - 1].value] else []);
    }
  }

  // Once nothing has reached the client, the first target that does not go away decides.
  lemma {:induction false} ReplayIs(more: Attempts, k: nat)
    requires k <= |more| && (forall j :: 0 <= j < k ==> GoesAway(more[j])) && (k < |more| ==> !GoesAway(more[k]))
    ensures Replay(more) == Verdict(more, k) && NextReceivers(more) == Takers(more, UpTo(more, k))
    decreases |more|
  {
    hide NoWholeFrame, AnswerOf;
    if more != [] && more[0].Some? && more[0].value.accepts {
      var b, rest := more[0].value, more[1..];
      SilentIff(b);
      assert more == [more[0]] + rest;
      if k > 0 {
        ReplayIs(rest, k - 1);
        TakersShift(more[0], rest, UpTo(rest, k - 1));
      } else {
        assert Takers(more, 1) == Takers(more, 0) + [b];
      }
    } else if more != [] {
      assert k == 0 && Takers(more, 1) == Takers(more, 0) + [];
    }
  }

  lemma FirstDecides(held: Option<Backend>, more: Attempts)
    requires Decides(Targets(held, more), 0)
    ensures Handled(held, more) == Verdict(Targets(held, more), 0)
    ensures Reached(held, more) == Takers(Targets(held, more), UpTo(Targets(held, more), 0))
  {
    hide NoWholeFrame, AnswerOf, NextReceivers;
    var ts := Targets(held, more);
    if ts != [] {
      if ts[0].Some? {
        SilentIff(ts[0].value);
      }
      assert Takers(ts, 1) == Takers(ts, 0) + if ts[0].Some? && ts[0].value.accepts then [ts[0].value] else [];
    }
  }

  // A first target that is passed over leaves the query to the acquires behind it.
  lemma FirstPasses(held: Option<Backend>, more: Attempts)
    requires PassedOver(Targets(held, more), 0)
    ensures var ts := Targets(held, more);
            && Handled(held, more) == Replay(ts[1..])
            && Reached(held, more) == (if ts[0].value.accepts then [ts[0].value] else []) + NextReceivers(ts[1..])
  {
    hide NoWholeFrame, AnswerOf, NextReceivers, Replay;
    var ts := Targets(held, more);
    assert ts[1..] == if held.Some? then more else more[1..];
    SilentIff(ts[0].value);
    SilentResponds(ts[0].value, ts[1..]);
  }

  lemma SilentResponds(b: Backend, more: Attempts)
    ensures Silent(b) ==> Respond(b, more) == Replay(more)
  {
  }

  // For every script: the outcome is the verdict of the deciding target, and the query was
  // written to exactly the targets up to there that take it.
  lemma OutcomeIs(held: Option<Backend>, more: Attempts, k: nat)
    requires Decides(Targets(held, more), k)
    ensures Handled(held, more) == Verdict(Targets(held, more), k)
    ensures Reached(held, more) == Takers(Targets(held, more), UpTo(Targets(held, more), k))
  {
    hide NoWholeFrame, AnswerOf, Handled, Reached, NextReceivers, Replay, Targets;
    var ts := Targets(held, more);
    if k == 0 {
      FirstDecides(held, more);
    } else {
      var rest := ts[1..];
      assert PassedOver(ts, 0) && ts == [ts[0]] + rest;
      FirstPasses(held, more);
      AfterFirst(ts, k);
      ReplayIs(rest, k - 1);
      assert UpTo(ts, k) == UpTo(rest, k - 1) + 1 && ts[0].Some?;
      TakersShift(ts[0], rest, UpTo(rest, k - 1));
    }
  }

  lemma AfterFirst(ts: Attempts, k: nat)
    requires 0 < k && Decides(ts, k)
    ensures k - 1 <= |ts[1..]| && (forall j :: 0 <= j < k - 1 ==> GoesAway(ts[1..][j]))
    ensures k - 1 < |ts[1..]| ==> !GoesAway(ts[1..][k - 1])
  {
    hide GoesAway;
    forall j | 0 <= j < k - 1
      ensures GoesAway(ts[1..][j])
    {
      assert PassedOver(ts, j + 1);
    }
  }

  // Some target but the first refuses the query, behind targets that refuse it or go away.
  ghost predicate RefusedLater(ts: Attempts) {
    exists k :: 0 < k < |ts| && ts[k].Some? && !ts[k].value.accepts && LedUpTo(ts, k)
  }

  predicate LedUpTo(ts: Attempts, k: int) {
    forall j :: 0 <= j < |ts| && j < k ==> ts[j].Some? && (!ts[j].value.accepts || NoWholeFrame(ts[j].value))
  }

  // The session ends exactly if an acquire that follows only refusing or silent targets,
  // and is not the first target, gives a backend that refuses the query.
  lemma SessionEndsIff(held: Option<Backend>, more: Attempts)
    ensures Handled(held, more).SessionEnds? <==> RefusedLater(Targets(held, more))
  {
    hide NoWholeFrame, AnswerOf;
    var ts := Targets(held, more);
    var d := FirstDecider(ts, 0);
    OutcomeIs(held, more, d);
    if Handled(held, more).SessionEnds? {
      assert d != 0 && LedUpTo(ts, d) by {
        forall j | 0 <= j < |ts| && j < d
          ensures ts[j].Some? && (!ts[j].value.accepts || NoWholeFrame(ts[j].value))
        {
          assert PassedOver(ts, j);
        }
      }
    }
    if RefusedLater(ts) {
      var k :| 0 < k < |ts| && ts[k].Some? && !ts[k].value.accepts && LedUpTo(ts, k);
      assert !PassedOver(ts, k);
      assert d <= k;
      if d < k {
        assert ts[d].Some?;
      }
    }
  }

  // The client is sent an error and a ready message, and nothing else, exactly if the
  // deciding target is a timeout or the end of the script.
  lemma FailureOnlyIff(held: Option<Backend>, more: Attempts, k: nat)
    requires Decides(Targets(held, more), k)
    ensures var ts := Targets(held, more);
            ClientReads(Handled(held, more)) == [ErrorResponse, ReadyForQuery(Idle)] <==> k == |ts| || ts[k] == None
  {
    hide NoWholeFrame, AnswerOf;
    var ts := Targets(held, more);
    OutcomeIs(held, more, k);
    if k < |ts| && ts[k].Some? && ts[k].value.accepts {
      SilentIff(ts[k].value);
      RelayIsNoError(AnswerOf(ts[k].value).0);
    }
  }

  lemma RelayIsNoError(fs: seq<seq<byte>>)
    ensures Relay(fs) != [ErrorResponse, ReadyForQuery(Idle)]
    ensures fs != [] ==> ClientReads(Aborted(fs)) != [ErrorResponse, ReadyForQuery(Idle)]
  {
    if fs != [] {
      assert Relay(fs)[0] == Relayed(fs[0]) == ClientReads(Aborted(fs))[0];
    }
  }

  // One final ready message, on the script alone.
  lemma OneReadyOnScript(held: Option<Backend>, more: Attempts, k: nat)
    requires Decides(Targets(held, more), k)
    ensures var ts := Targets(held, more);
            ReadyOnceAndLast(ClientReads(Handled(held, more))) <==>
            && !RefusedLater(ts)
            && forall b :: b in Takers(ts, UpTo(ts, k)) ==> !MeetsEmptyFrame(b)
  {
    hide NoWholeFrame, AnswerOf, ReadyOnceAndLast, MeetsEmptyFrame, RefusedLater;
    OutcomeIs(held, more, k);
    SessionEndsIff(held, more);
    OneReadyLastIff(held, more);
  }
}
