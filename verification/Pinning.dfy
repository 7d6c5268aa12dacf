// Transaction pinning: which connection the queries of a transaction use, without losses
// and with them.
module Pinning {
  import opened Bytes
  import opened Frames
  import opened Pool
  import opened Responses
  import opened Session

  // One query of a session: how the held connection treats it, and the acquires after it.
  datatype Query = Query(held: Option<Backend>, more: Attempts)

  datatype State = State(tracker: Tracker, active: Option<Conn>)

  const START := State(Tracker(Idle, false), None)

  predicate Fits(s: State, q: Query) {
    if s.active == None then q.held == None else q.held.Some? && q.held.value.conn == s.active.value
  }

  function Next(s: State, q: Query): State {
    var r := Settled(s.tracker, Handled(q.held, q.more));
    State(r.0, r.1)
  }

  ghost predicate IsRun(ss: seq<State>, qs: seq<Query>) {
    && |ss| == |qs| + 1 && ss[0] == START
    && forall i :: 0 <= i < |qs| ==> Fits(ss[i], qs[i]) && ss[i + 1] == Next(ss[i], qs[i])
  }

  // ---- What the script of backends decides.

  // The backend's answer ends with a ready tag.
  predicate Answers(b: Backend) {
    AnswerOf(b).1.Ready?
  }

  // The status that comes with it.
  function StatusSent(b: Backend): TransactionStatus
    requires Answers(b)
  {
    AnswerOf(b).1.status
  }

  function ReachedBy(q: Query): seq<Backend> {
    Reached(q.held, q.more)
  }

  ghost predicate SomeoneAnswers(q: Query) {
    exists b :: b in ReachedBy(q) && Answers(b)
  }

  // A query finishes exactly if some backend that it reaches answers; that is the last
  // one, and the query ends on its connection with its status.
  lemma FinishedIff(q: Query)
    ensures Handled(q.held, q.more).Finished? <==> SomeoneAnswers(q)
    ensures SomeoneAnswers(q) ==>
              var rs := ReachedBy(q);
              && rs != [] && Answers(rs[|rs| - 1]) && Handled(q.held, q.more).conn == rs[|rs| - 1].conn
              && (forall t: Tracker :: Settled(t, Handled(q.held, q.more)).0 ==
                                       t.OnReadyForQuery(StatusSent(rs[|rs| - 1])))
  {
    hide Reached, Handled, AnswerOf;
    FailoverRelay(q.held, q.more);
    var rs := ReachedBy(q);
    if b :| b in rs && Answers(b) {
      var i :| 0 <= i < |rs| && rs[i] == b;
      assert i == |rs| - 1;
    }
    if Handled(q.held, q.more).Finished? {
      assert rs[|rs| - 1] in rs && Answers(rs[|rs| - 1]);
    }
  }

  // The held connection is not handed out again while it is held: it is in use, and the
  // pool keeps what is in use apart from what it gives.
  predicate Fresh(q: Query) {
    q.held.Some? ==> forall i :: 0 <= i < |q.more| && q.more[i].Some? ==> q.more[i].value.conn != q.held.value.conn
  }

  lemma OthersAreElsewhere(q: Query, i: nat)
    requires q.held.Some? && Fresh(q) && i < |ReachedBy(q)|
    ensures ReachedBy(q)[i].conn == q.held.value.conn <==> i == 0 && q.held.value.accepts
  {
    hide Silent;
    FailoverRelay(q.held, q.more);
    var rs := ReachedBy(q);
    if q.held.value.accepts {
      LaterAreOffered(q.held.value, q.more);
      if i > 0 {
        assert rs[i] == Later(q.held.value, q.more)[i - 1];
      }
    } else {
      assert rs[i] in rs;
      NextAreOffered(q.more);
    }
  }

  lemma NextAreOffered(more: Attempts)
    ensures forall b :: b in NextReceivers(more) ==> Some(b) in more
  {
    hide Silent;
    if NextReceivers(more) != [] {
      ReceiversOffered(more[0].value, more[1..]);
    }
  }

  lemma LaterAreOffered(b: Backend, more: Attempts)
    ensures forall r :: r in Later(b, more) ==> Some(r) in more
  {
    NextAreOffered(more);
  }

  // A query with a held connection finishes on it exactly if that backend takes the query
  // and answers it.
  lemma StaysIff(q: Query)
    requires q.held.Some? && Fresh(q)
    ensures Handled(q.held, q.more).Finished? && Handled(q.held, q.more).conn == q.held.value.conn <==>
            q.held.value.accepts && Answers(q.held.value)
  {
    hide Handled, AnswerOf, StatusSent;
    FinishedIff(q);
    var rs, h := ReachedBy(q), q.held.value;
    if rs != [] {
      OthersAreElsewhere(q, |rs| - 1);
    }
    if h.accepts {
      assert rs[0] == h && h in rs;
      if Answers(h) {
        AnswersAlone(q);
      }
    }
  }

  lemma AnswersAlone(q: Query)
    requires q.held.Some? && q.held.value.accepts && Answers(q.held.value)
    ensures ReachedBy(q) == [q.held.value]
  {
    hide AnswerOf;
  }

  // It finishes elsewhere exactly if that backend refuses it or falls silent, and
  // some backend reached answers.
  lemma ElsewhereIff(q: Query)
    requires q.held.Some? && Fresh(q)
    ensures Handled(q.held, q.more).Finished? && Handled(q.held, q.more).conn != q.held.value.conn <==>
            (!q.held.value.accepts || Silent(q.held.value)) && SomeoneAnswers(q)
  {
    hide Handled, AnswerOf, StatusSent;
    StaysIff(q);
    FinishedIff(q);
    var h := q.held.value;
    if h.accepts && !Silent(h) {
      assert ReachedBy(q) == [h];
    }
  }

  // ---- The tracker and the held connection.

  // Nothing is lost: the first backend takes the query and answers it.
  predicate Healthy(q: Query) {
    var b := if q.held.Some? then q.held else if q.more == [] then None else q.more[0];
    b.Some? && b.value.accepts && Answers(b.value)
  }

  // In every run a held connection means a transaction is open; without losses the
  // converse holds too.
  lemma Pinned(ss: seq<State>, qs: seq<Query>, k: nat)
    requires IsRun(ss, qs) && k < |ss|
    ensures ss[k].active.Some? ==> ss[k].tracker.status != Idle
    ensures (forall i :: 0 <= i < k ==> Healthy(qs[i])) ==> (ss[k].active.Some? <==> ss[k].tracker.status != Idle)
  {
    if k > 0 {
      assert ss[k] == Next(ss[k - 1], qs[k - 1]);
      if Healthy(qs[k - 1]) {
        HealthyFinishes(ss[k - 1], qs[k - 1]);
      }
    }
  }

  // After a query the session is stranded - the tracker has a transaction, and nothing is
  // held - exactly if a transaction was open and no backend reached answers.
  lemma StrandedIff(s: State, q: Query)
    ensures var s' := Next(s, q);
            s'.active == None && s'.tracker.status != Idle <==> s.tracker.status != Idle && !SomeoneAnswers(q)
  {
    hide Handled, SomeoneAnswers, StatusSent;
    FinishedIff(q);
  }

  // A query without losses finishes on the held connection if there is one, and the
  // connection goes back to the pool exactly when the transaction is over.
  lemma HealthyFinishes(s: State, q: Query)
    requires Fits(s, q) && Healthy(q)
    ensures var o := Handled(q.held, q.more);
            var r := Settled(s.tracker, o);
            && o.Finished? && (s.active.Some? ==> o.conn == s.active.value)
            && (r.0.status == Idle <==> r.2 == Some(o.conn)) && (r.0.status == Idle <==> r.2.Some?)
            && (r.0.status != Idle <==> r.1 == Some(o.conn))
            && (o.relayed == [] ==> MeetsEmptyFrame(if q.held.Some? then q.held.value else q.more[0].value))
  {
    hide MeetsEmptyFrame, UpToReady, Split;
    var b := if q.held.Some? then q.held.value else q.more[0].value;
    AnswerWithEmpty(b);
    if HasReady(FramesOf(b)) {
      ReadyIsLast(FramesOf(b));
    }
  }

  // ---- The queries of one transaction.

  // Query k finishes on the connection.
  predicate FinishesOn(q: Query, c: Conn) {
    Handled(q.held, q.more).Finished? && Handled(q.held, q.more).conn == c
  }

  // Query k goes to a held connection that takes it and answers it.
  predicate HeldAnswers(q: Query) {
    q.held.Some? && q.held.value.accepts && Answers(q.held.value)
  }

  // Query i opens a transaction on c; until query j the tracker never sees it end.
  ghost predicate Spans(ss: seq<State>, qs: seq<Query>, i: nat, j: nat, c: Conn) {
    && IsRun(ss, qs) && i < j < |qs| && FinishesOn(qs[i], c) && ss[i + 1].active == Some(c)
    && (forall k :: i < k <= j ==> Fresh(qs[k]) && ss[k].tracker.status != Idle)
  }

  lemma StillHeld(s: State, q: Query, c: Conn)
    requires FinishesOn(q, c) && Next(s, q).tracker.status != Idle
    ensures Next(s, q).active == Some(c)
  {
  }

  // All queries of a transaction run on the connection it was opened on, exactly if for
  // each of them the held backend takes it and answers it.
  lemma {:induction false} OneConnectionIff(ss: seq<State>, qs: seq<Query>, i: nat, j: nat, c: Conn)
    requires Spans(ss, qs, i, j, c)
    ensures (forall k :: i < k <= j ==> FinishesOn(qs[k], c)) <==> (forall k :: i < k <= j ==> HeldAnswers(qs[k]))
    ensures (forall k :: i < k < j ==> FinishesOn(qs[k], c)) ==> ss[j].active == Some(c)
    decreases j
  {
    hide Handled, Next, AnswerOf;
    if i + 1 < j {
      OneConnectionIff(ss, qs, i, j - 1, c);
      if forall k :: i < k < j ==> FinishesOn(qs[k], c) {
        assert FinishesOn(qs[j - 1], c) && ss[j] == Next(ss[j - 1], qs[j - 1]);
        StillHeld(ss[j - 1], qs[j - 1], c);
      }
    }
    assert Fits(ss[j], qs[j]);
    if ss[j].active == Some(c) {
      StaysIff(qs[j]);
    }
  }

  // ---- Losses.

  // A backend's ready frame with a status byte, as one chunk.
  function ReadyChunk(status: byte): seq<byte> {
    EncodeRaw(READY_TAG, [status])
  }

  lemma JoinedOne(chunk: seq<byte>)
    ensures Joined([chunk]) == chunk
  {
    assert [chunk][..0] == [];
    assert [] + chunk == chunk;
  }

  lemma ReadyBytes(status: byte)
    ensures var f := ReadyChunk(status);
            |f| == 6 && f[0] == READY_TAG && f[5] == status
  {
  }

  lemma OneReadyFrame(c: Conn, status: byte)
    ensures AnswerOf(Backend(c, true, [ReadyChunk(status)])) == ([ReadyChunk(status)], Ready(StatusOf(ReadyChunk(status))))
  {
    hide EncodeRaw, FrameSize;
    var f := ReadyChunk(status);
    RawRoundTrip(READY_TAG, [status], []);
    assert f + [] == f;
    JoinedOne(f);
    assert [f] + Split([]).0 == [f];
    ReadyBytes(status);
    ReadyOne(f);
  }

  // A backend that answers with the status and nothing else.
  function Answering(c: Conn, status: byte): (b: Backend) {
    Backend(c, true, [ReadyChunk(status)])
  }

  // A backend that takes the query and goes away.
  function Leaving(c: Conn): (b: Backend) {
    Backend(c, true, [])
  }

  const IN_TX: byte := 84
  const NO_TX: byte := 73

  lemma AnsweringAnswers(c: Conn, status: byte, more: Attempts)
    ensures var b := Answering(c, status);
            && Respond(b, more) == Finished([ReadyChunk(status)], c, StatusOf(ReadyChunk(status))) && Answers(b)
            && StatusOf(ReadyChunk(status)) == (if status == IN_TX then InTransaction else if status == 69 then InError else Idle)
  {
    hide AnswerOf;
    OneReadyFrame(c, status);
    ReadyBytes(status);
  }

  lemma LeavingIsSilent(c: Conn, more: Attempts)
    ensures Silent(Leaving(c)) && Respond(Leaving(c), more) == Replay(more)
  {
    NothingYet();
  }

  // A query that opens a transaction on c.
  function Opening(c: Conn): Query {
    Query(None, [Some(Answering(c, IN_TX))])
  }

  lemma OpeningOpens(c: Conn)
    ensures Fits(START, Opening(c)) && Next(START, Opening(c)) == State(Tracker(InTransaction, false), Some(c))
  {
    AnsweringAnswers(c, IN_TX, []);
    var more := Opening(c).more;
    assert more[1..] == [];
  }

  lemma StaysOpen(c: Conn)
    ensures var s := Next(START, Opening(c));
            var q := Query(Some(Answering(c, IN_TX)), []);
            Fits(s, q) && Next(s, q) == s
  {
    OpeningOpens(c);
    AnsweringAnswers(c, IN_TX, []);
  }

  // The held connection is lost without a sign to the client: the query inside the
  // transaction finishes on another connection, outside any transaction.
  lemma LostSilently(c: Conn, d: Conn) returns (ss: seq<State>, qs: seq<Query>)
    requires c != d
    ensures IsRun(ss, qs) && |qs| == 2 && Fresh(qs[1])
    ensures ss[1].tracker.status == InTransaction && ss[1].active == Some(c)
    ensures FinishesOn(qs[1], d) && ss[2] == START
  {
    OpeningOpens(c);
    LeavingIsSilent(c, [Some(Answering(d, NO_TX))]);
    AnsweringAnswers(d, NO_TX, []);
    var more: Attempts := [Some(Answering(d, NO_TX))];
    assert more[1..] == [];
    qs := [Opening(c), Query(Some(Leaving(c)), more)];
    ss := [START, Next(START, qs[0]), START];
  }

  // Nobody takes over: the client is told that it is idle, while the tracker still has
  // the transaction.
  lemma Stranded(c: Conn) returns (ss: seq<State>, qs: seq<Query>)
    ensures IsRun(ss, qs) && |qs| == 2 && Handled(qs[1].held, qs[1].more) == Aborted([])
    ensures ss[2].active == None && ss[2].tracker.status == InTransaction
  {
    OpeningOpens(c);
    LeavingIsSilent(c, []);
    qs := [Opening(c), Query(Some(Leaving(c)), [])];
    ss := [START, Next(START, qs[0]), State(Tracker(InTransaction, false), None)];
  }
}
