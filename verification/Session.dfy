// A client session of the proxy: transaction tracking, the relay of one query's
// response, and the failover that replays the query, with everything that goes out.
module Session {
  import opened Bytes
  import opened Frames
  import opened Pool
  import opened Responses

  datatype QueryKind = Read | Write | BeginTx | CommitTx | RollbackTx | SetVar | Other

  datatype Tracker = Tracker(status: TransactionStatus, inManualTx: bool) {
    function OnReadyForQuery(s: TransactionStatus): Tracker {
      Tracker(s, inManualTx && s != Idle)
    }

    // Inside a transaction everything stays with the leader; outside it only reads leave it.
    predicate RequiresLeader(kind: QueryKind) {
      status != Idle || kind != Read
    }
  }

  // How a backend treats one query: whether its socket takes the query, and the chunks
  // it sends back before the connection ends. The connection may of course live on;
  // then the relay stops reading before the chunks run out.
  datatype Backend = Backend(conn: Conn, accepts: bool, chunks: seq<seq<byte>>)

  // The outcome of each further acquire: a backend, or None for a failover timeout.
  type Attempts = seq<Option<Backend>>

  // The frames that the backend sends, up to a length field of -1 if there is one.
  function FramesOf(b: Backend): seq<seq<byte>> {
    Split(Joined(b.chunks)).0
  }

  // What there is to relay of the backend's answer, and how it ends.
  function AnswerOf(b: Backend): (seq<seq<byte>>, End) {
    Reaction(Joined(b.chunks))
  }

  // The connection ends before a whole frame has come.
  predicate Silent(b: Backend) {
    AnswerOf(b) == ([], Incomplete)
  }

  // How a query ends: with the backend's ready tag; with an error message and a ready
  // message of the proxy's own; never, at an empty frame; or with the end of the session.
  datatype Outcome =
    | Finished(relayed: seq<seq<byte>>, conn: Conn, status: TransactionStatus)
    | Aborted(relayed: seq<seq<byte>>)
    | Stuck(relayed: seq<seq<byte>>)
    | SessionEnds

  // The query has reached backend `b`.
  function Respond(b: Backend, more: Attempts): Outcome
    decreases |more|
  {
    var (fs, end) := AnswerOf(b);
    match end
    case Ready(status) => Finished(fs, b.conn, status)
    case Jam => Stuck(fs)
    case Incomplete => if fs != [] then Aborted(fs) else Replay(more)
  }

  // Nothing has reached the client: the query goes to the next backend, if there is one.
  function Replay(more: Attempts): Outcome
    decreases |more|, 0
  {
    if more == [] || more[0] == None then Aborted([]) else
    if !more[0].value.accepts then SessionEnds else
    Respond(more[0].value, more[1..])
  }

  function Submit(b: Backend, more: Attempts): Outcome {
    if b.accepts then Respond(b, more) else Replay(more)
  }

  // What the client reads.
  datatype Message = Relayed(frame: seq<byte>) | ErrorResponse | ReadyForQuery(status: TransactionStatus)

  function Relay(fs: seq<seq<byte>>): seq<Message> {
    seq(|fs|, i requires 0 <= i < |fs| => Relayed(fs[i]))
  }

  function ClientReads(o: Outcome): seq<Message> {
    match o
    case Finished(fs, _, _) => Relay(fs)
    case Aborted(fs) => Relay(fs) + [ErrorResponse, ReadyForQuery(Idle)]
    case Stuck(fs) => Relay(fs)
    case SessionEnds => []
  }

  predicate IsReadyMessage(m: Message) {
    m.ReadyForQuery? || (m.Relayed? && IsReady(m.frame))
  }

  // What leaves the session: the query, written to a backend, and messages to the client.
  datatype Effect = Submitted(to: Backend) | ToClient(message: Message)

  function Submissions(bs: seq<Backend>): seq<Effect> {
    seq(|bs|, i requires 0 <= i < |bs| => Submitted(bs[i]))
  }

  function Deliveries(ms: seq<Message>): seq<Effect> {
    seq(|ms|, i requires 0 <= i < |ms| => ToClient(ms[i]))
  }

  lemma DeliveriesConcat(fs: seq<seq<byte>>, gs: seq<seq<byte>>)
    ensures Deliveries(Relay(fs + gs)) == Deliveries(Relay(fs)) + Deliveries(Relay(gs))
  {
  }

  lemma SubmissionsConcat(a: seq<Backend>, b: seq<Backend>)
    ensures Submissions(a + b) == Submissions(a) + Submissions(b)
  {
  }

  class ClientSession {
    var tracker: Tracker
    var active: Option<Conn>
    var trace: seq<Effect>

    constructor ()
      ensures tracker == Tracker(Idle, false) && active == None && trace == []
    {
      tracker, active, trace := Tracker(Idle, false), None, [];
    }

    // Writes the query to a backend.
    method WriteQuery(b: Backend) returns (ok: bool)
      modifies this`trace
      ensures ok == b.accepts && trace == old(trace) + Submissions(if ok then [b] else [])
    {
      ok := b.accepts;
      if ok {
        trace := trace + [Submitted(b)];
      }
    }

    // Tells the client that the query failed, and that it may go on.
    method ReportFailure()
      modifies this`trace
      ensures trace == old(trace) + Deliveries(ClientReads(Aborted([])))
    {
      trace := trace + [ToClient(ErrorResponse)];
      trace := trace + [ToClient(ReadyForQuery(Idle))];
      assert ClientReads(Aborted([])) == [ErrorResponse, ReadyForQuery(Idle)];
    }

    // Forwards the complete frames of the buffer, up to a ready frame or an empty one.
    method ForwardFrames(buf: seq<byte>) returns (sent: seq<seq<byte>>, written: nat, end: End, rest: seq<byte>)
      modifies this`trace
      ensures (sent, end) == Reaction(buf) && (end == Incomplete ==> (sent, rest) == Split(buf) && !HasReady(sent))
      ensures written == 0 <==> sent == []
      ensures trace == old(trace) + Deliveries(Relay(sent))
    {
      hide FrameSize, LengthField, UpToReady, Deliveries, Relay;
      sent, written, end, rest := [], 0, Incomplete, buf;
      NothingYet();
      NothingOut(trace);
      assert [] + Split(buf).0 == Split(buf).0;
      while true
        invariant !HasReady(sent) && end == Incomplete
        invariant Split(buf) == (sent + Split(rest).0, Split(rest).1)
        invariant written == 0 <==> sent == []
        invariant trace == old(trace) + Deliveries(Relay(sent))
        decreases |rest|
      {
        ReactBehind(sent, Split(rest).0, Split(rest).1);
        assert sent + [] == sent;
        if |rest| >= 5 {
          EmptyFrameIff(rest);
        }
        var frame, next := ExtractBackendFrame(rest);
        if frame == None {
          assert !Blocked(rest) && Split(rest) == ([], rest);
          return;
        }
        var tag := rest[0];
        if frame.value == [] {
          end := if tag == READY_TAG then Ready(Idle) else Jam;
          return;
        }
        NextFrame(rest);
        Assoc(sent, [frame.value], Split(next).0);
        HasReadyConcat(sent, [frame.value]);
        ReadyOne(frame.value);
        DeliverOne(old(trace), sent, frame.value);
        if tag == READY_TAG {
          end := Ready(StatusOf(frame.value));
          ReadyNow(sent, frame.value, Split(next).0, Split(rest).1);
        }
        sent := sent + [frame.value];
        written := written + |frame.value|;
        trace := trace + [ToClient(Relayed(frame.value))];
        rest := next;
        if tag == READY_TAG {
          return;
        }
      }
    }

    // Reads the backend's chunks and forwards their frames until the answer or the
    // connection ends.
    method RelayResponse(b: Backend) returns (sent: seq<seq<byte>>, written: nat, end: End)
      modifies this`trace
      ensures (sent, end) == AnswerOf(b)
      ensures written == 0 <==> sent == []
      ensures trace == old(trace) + Deliveries(Relay(sent))
    {
      hide Split, Deliveries, Relay, Reaction, HasReady;
      sent, written := [], 0;
      var buf: seq<byte> := [];
      NothingYet();
      NothingOut(trace);
      assert Joined(b.chunks[..0]) == [];
      for i := 0 to |b.chunks|
        invariant (sent, buf) == Split(Joined(b.chunks[..i])) && !HasReady(sent)
        invariant Reaction(Joined(b.chunks[..i])) == (sent, Incomplete)
        invariant written == 0 <==> sent == []
        invariant trace == old(trace) + Deliveries(Relay(sent))
      {
        OneMoreChunk(b.chunks, i);
        buf := buf + b.chunks[i];
        var more, n, e, rest := ForwardFrames(buf);
        DeliveriesConcat(sent, more);
        Assoc(old(trace), Deliveries(Relay(sent)), Deliveries(Relay(more)));
        HasReadyConcat(sent, more);
        sent := sent + more;
        written := written + n;
        if e != Incomplete {
          return sent, written, e;
        }
        buf := rest;
      }
      assert b.chunks[..|b.chunks|] == b.chunks;
      return sent, written, Incomplete;
    }

    // Acquires the next backend and hands it the query. None: the failover timed out, or
    // the session ends because the new backend does not take the query.
    method Resubmit(more: Attempts) returns (b: Option<Backend>, rest: Attempts, fatal: bool)
      modifies this`trace
      ensures b.Some? ==> more != [] && more[0] == b && b.value.accepts && rest == more[1..]
      ensures b == None && fatal ==> more != [] && more[0].Some? && !more[0].value.accepts
      ensures b == None && !fatal ==> more == [] || more[0] == None
      ensures trace == old(trace) + Submissions(if b.Some? then [b.value] else [])
    {
      if more == [] || more[0] == None {
        return None, [], false;
      }
      var ok := WriteQuery(more[0].value);
      if !ok {
        return None, [], true;
      }
      return more[0], more[1..], false;
    }

    // The backend has the query: relays its answer, or goes on to the next backend while
    // nothing has been sent to the client. The outcome `Stuck` stands for a loop without end.
    method RelayOrReplay(first: Backend, more: Attempts) returns (o: Outcome, released: Option<Conn>)
      requires active == None
      modifies this
      ensures o == Respond(first, more)
      ensures (tracker, active, released) == Settled(old(tracker), o)
      ensures trace == old(trace) + Submissions(Later(first, more)) + Deliveries(ClientReads(o))
    {
      hide AnswerOf, Submissions, Deliveries, Relay, Receivers;
      NothingOut(trace);
      released := None;
      var backend, rest := first, more;
      ghost var tried: seq<Backend> := [];
      while true
        invariant active == None && tracker == old(tracker) && released == None
        invariant Respond(first, more) == Respond(backend, rest)
        invariant Later(first, more) == tried + Later(backend, rest)
        invariant trace == old(trace) + Submissions(tried)
        decreases |rest|
      {
        var sent, written, end := RelayResponse(backend);
        if end.Ready? {
          assert Later(backend, rest) == [] && Later(first, more) == tried;
          tracker := tracker.OnReadyForQuery(end.status);
          if end.status == Idle {
            released := Some(backend.conn);
          } else {
            active := Some(backend.conn);
          }
          return Finished(sent, backend.conn, end.status), released;
        }
        if end == Jam {
          assert Later(backend, rest) == [] && Later(first, more) == tried;
          return Stuck(sent), None;
        }
        if written > 0 {
          assert Later(backend, rest) == [] && Later(first, more) == tried;
          FailureBehind(old(trace) + Submissions(tried), sent);
          ReportFailure();
          return Aborted(sent), None;
        }
        NothingOut(trace);
        var next, others, fatal := Resubmit(rest);
        if next == None {
          assert Later(backend, rest) == [] && Later(first, more) == tried;
          NothingOut(trace);
          if fatal {
            return SessionEnds, None;
          }
          ReportFailure();
          return Aborted([]), None;
        }
        OneMoreTried(old(trace), tried, next.value, others);
        tried := tried + [next.value];
        backend, rest := next.value, others;
      }
    }

    // Handles one query. `held` is how the held connection will treat it, if one is held;
    // `more` are the acquires that follow.
    method HandleQuery(held: Option<Backend>, more: Attempts) returns (o: Outcome, released: Option<Conn>)
      requires if active == None then held == None else held.Some? && held.value.conn == active.value
      modifies this
      ensures o == Handled(held, more)
      ensures (tracker, active, released) == Settled(old(tracker), o)
      ensures trace == old(trace) + Submissions(Reached(held, more)) + Deliveries(ClientReads(o))
    {
      hide Silent, Respond, Submissions, Deliveries, Receivers, Later;
      NothingOut(trace);
      var rest := more;
      var backend: Backend;
      if held == None {
        if rest == [] || rest[0] == None {
          ReportFailure();
          return Aborted([]), None;
        }
        backend, rest := rest[0].value, rest[1..];
      } else {
        backend := held.value;
      }
      active := None;
      var ok := WriteQuery(backend);
      if !ok {
        var next, others, fatal := Resubmit(rest);
        if next == None {
          NothingOut(trace);
          if fatal {
            return SessionEnds, None;
          }
          ReportFailure();
          return Aborted([]), None;
        }
        backend, rest := next.value, others;
      }
      FirstAndLater(trace, old(trace), backend, rest);
      o, released := RelayOrReplay(backend, rest);
    }
  }

  lemma OneMoreTried(t: seq<Effect>, tried: seq<Backend>, b: Backend, more: Attempts)
    ensures (t + Submissions(tried)) + Submissions([b]) == t + Submissions(tried + [b])
    ensures tried + Receivers(b, more) == (tried + [b]) + Later(b, more)
  {
    hide Silent, NextReceivers;
    SubmissionsConcat(tried, [b]);
  }

  lemma FirstAndLater(now: seq<Effect>, t: seq<Effect>, b: Backend, more: Attempts)
    requires now == t + Submissions([b])
    ensures now + Submissions(Later(b, more)) == t + Submissions(Receivers(b, more))
  {
    hide Silent, NextReceivers;
    SubmissionsConcat([b], Later(b, more));
    assert Receivers(b, more) == [b] + Later(b, more);
  }

  lemma NothingOut(t: seq<Effect>)
    ensures t + Submissions([]) == t && t + Deliveries([]) == t && Relay([]) == [] && t + Deliveries(Relay([])) == t
  {
  }

  // A frame taken off the buffer is the next of the buffer's frames.
  lemma NextFrame(buf: seq<byte>)
    requires HasFrame(buf) && FrameSize(buf) > 0
    ensures var n := FrameSize(buf);
            Split(buf) == ([buf[..n]] + Split(buf[n..]).0, Split(buf[n..]).1)
  {
  }

  lemma DeliverOne(t: seq<Effect>, sent: seq<seq<byte>>, frame: seq<byte>)
    ensures (t + Deliveries(Relay(sent))) + [ToClient(Relayed(frame))] == t + Deliveries(Relay(sent + [frame]))
  {
    DeliveriesConcat(sent, [frame]);
    assert Deliveries(Relay([frame])) == [ToClient(Relayed(frame))];
  }

  // The first ready frame ends the answer.
  lemma ReadyNow(sent: seq<seq<byte>>, frame: seq<byte>, later: seq<seq<byte>>, rest: seq<byte>)
    requires !HasReady(sent) && IsReady(frame)
    ensures React(sent + ([frame] + later), rest) == (sent + [frame], Ready(StatusOf(frame)))
  {
    ReactBehind(sent, [frame] + later, rest);
    ReadyOne(frame);
    HasReadyConcat([frame], later);
    UpToReadyStays([frame], later);
  }

  // The proxy's own two messages come behind what was relayed.
  lemma FailureBehind(t: seq<Effect>, sent: seq<seq<byte>>)
    ensures (t + Deliveries(Relay(sent))) + Deliveries(ClientReads(Aborted([]))) ==
            t + Deliveries(ClientReads(Aborted(sent)))
  {
    assert ClientReads(Aborted([])) == [ErrorResponse, ReadyForQuery(Idle)];
  }

  // The outcome of a query on a held connection, or on the first one acquired.
  function Handled(held: Option<Backend>, more: Attempts): Outcome {
    if held.Some? then Submit(held.value, more) else
    if more == [] || more[0] == None then Aborted([]) else
    Submit(more[0].value, more[1..])
  }

  // The session after a query: tracker, held connection, and what went back to the pool.
  function Settled(t: Tracker, o: Outcome): (Tracker, Option<Conn>, Option<Conn>) {
    match o
    case Finished(_, c, status) =>
      (t.OnReadyForQuery(status), if status == Idle then None else Some(c), if status == Idle then Some(c) else None)
    case _ => (t, None, None)
  }

  // ---- What failover promises.

  // The backends that receive the query, in order, once backend `b` has it.
  function Receivers(b: Backend, more: Attempts): (rs: seq<Backend>)
    ensures rs != [] && rs[0] == b
    decreases |more|
  {
    if Silent(b) then [b] + NextReceivers(more) else [b]
  }

  // The backends behind the first.
  function Later(b: Backend, more: Attempts): seq<Backend> {
    if Silent(b) then NextReceivers(more) else []
  }

  function NextReceivers(more: Attempts): seq<Backend>
    decreases |more|, 0
  {
    if more == [] || more[0] == None || !more[0].value.accepts then [] else Receivers(more[0].value, more[1..])
  }

  // A query is replayed only while no frame has reached the client; what the client gets
  // comes from the last receiver alone, whole frames in order, up to its ready frame.
  ghost predicate RelayedFrom(rs: seq<Backend>, o: Outcome) {
    && (forall i :: 0 <= i < |rs| - 1 ==> Silent(rs[i]))
    && (o.Finished? <==> rs != [] && AnswerOf(rs[|rs| - 1]).1.Ready?)
    && (o.Finished? ==>
          o.conn == rs[|rs| - 1].conn && (o.relayed, Ready(o.status)) == AnswerOf(rs[|rs| - 1]))
    && (o.Stuck? <==> rs != [] && AnswerOf(rs[|rs| - 1]).1 == Jam)
    && (o.Stuck? ==> o.relayed == AnswerOf(rs[|rs| - 1]).0)
    && (o.Aborted? && o.relayed != [] ==> rs != [] && (o.relayed, Incomplete) == AnswerOf(rs[|rs| - 1]))
  }

  lemma {:induction false} RespondRelays(b: Backend, more: Attempts)
    ensures RelayedFrom(Receivers(b, more), Respond(b, more))
    decreases |more|
  {
    hide AnswerOf;
    if Silent(b) && NextReceivers(more) != [] {
      RespondRelays(more[0].value, more[1..]);
      var rs, rest := Receivers(b, more), NextReceivers(more);
      assert forall i :: 0 < i < |rs| ==> rs[i] == rest[i - 1];
    }
  }

  // The backends that receive a query on a held connection, or on the first one acquired.
  function Reached(held: Option<Backend>, more: Attempts): seq<Backend> {
    var first := if held.Some? || more == [] then held else more[0];
    var rest := if held.Some? || more == [] then more else more[1..];
    if first == None then [] else
    if first.value.accepts then Receivers(first.value, rest) else NextReceivers(rest)
  }

  // Failover relay: for every script of backends and acquires.
  lemma FailoverRelay(held: Option<Backend>, more: Attempts)
    ensures RelayedFrom(Reached(held, more), Handled(held, more))
    ensures forall b :: b in Reached(held, more) ==> b.accepts && (held == Some(b) || Some(b) in more)
  {
    var first := if held.Some? || more == [] then held else more[0];
    var rest := if held.Some? || more == [] then more else more[1..];
    if first.Some? && first.value.accepts {
      RespondRelays(first.value, rest);
      ReceiversOffered(first.value, rest);
    } else if first.Some? && NextReceivers(rest) != [] {
      RespondRelays(rest[0].value, rest[1..]);
      ReceiversOffered(rest[0].value, rest[1..]);
    }
  }

  // Once the client has been sent anything, the query is not written to any backend again.
  lemma DeliveriesComeLast(held: Option<Backend>, more: Attempts, i: nat, j: nat)
    requires var out := Submissions(Reached(held, more)) + Deliveries(ClientReads(Handled(held, more)));
             i < j < |out| && out[i].ToClient?
    ensures (Submissions(Reached(held, more)) + Deliveries(ClientReads(Handled(held, more))))[j].ToClient?
  {
  }

  lemma {:induction false} ReceiversOffered(b: Backend, more: Attempts)
    requires b.accepts
    ensures forall r :: r in Receivers(b, more) ==> r.accepts && (r == b || Some(r) in more)
    decreases |more|
  {
    if Silent(b) && NextReceivers(more) != [] {
      ReceiversOffered(more[0].value, more[1..]);
    }
  }

  predicate ReadyOnceAndLast(ms: seq<Message>) {
    && ms != [] && IsReadyMessage(ms[|ms| - 1])
    && forall i :: 0 <= i < |ms| - 1 ==> !IsReadyMessage(ms[i])
  }

  // The backend's bytes come to a length field of -1 before a ready frame.
  predicate MeetsEmptyFrame(b: Backend) {
    EmptyFirst(Joined(b.chunks))
  }

  lemma AnswerWithEmpty(b: Backend)
    ensures MeetsEmptyFrame(b) <==> !HasReady(FramesOf(b)) && AnswerOf(b).1 != Incomplete
    ensures MeetsEmptyFrame(b) ==> AnswerOf(b).0 == FramesOf(b)
    ensures AnswerOf(b).1 == Jam ==> MeetsEmptyFrame(b)
  {
    hide Split, EmptyFirst, Blocked;
    EmptyFirstIff(Joined(b.chunks));
  }

  lemma RelayReads(fs: seq<seq<byte>>)
    requires !HasReady(fs)
    ensures !ReadyOnceAndLast(Relay(fs)) && ReadyOnceAndLast(ClientReads(Aborted(fs)))
  {
  }

  lemma ReadyReads(fs: seq<seq<byte>>)
    requires HasReady(fs)
    ensures ReadyOnceAndLast(Relay(UpToReady(fs)))
  {
    hide UpToReady;
    ReadyIsLast(fs);
  }

  // What one backend's answer gives the client, if it is not passed over.
  lemma AnswerReads(b: Backend)
    ensures ReadyOnceAndLast(Relay(AnswerOf(b).0)) <==> AnswerOf(b).1.Ready? && !MeetsEmptyFrame(b)
    ensures AnswerOf(b).1 == Incomplete ==> ReadyOnceAndLast(ClientReads(Aborted(AnswerOf(b).0)))
  {
    hide Split, ReadyOnceAndLast, MeetsEmptyFrame, UpToReady;
    AnswerWithEmpty(b);
    if HasReady(FramesOf(b)) {
      ReadyReads(FramesOf(b));
    } else {
      RelayReads(FramesOf(b));
    }
  }

  // For every script: the client gets exactly one ready message, and it comes last, exactly
  // if the session does not end and no backend reached comes to a length field of -1
  // before its first ready frame.
  lemma OneReadyLastIff(held: Option<Backend>, more: Attempts)
    ensures ReadyOnceAndLast(ClientReads(Handled(held, more))) <==>
            && !Handled(held, more).SessionEnds?
            && forall b :: b in Reached(held, more) ==> !MeetsEmptyFrame(b)
  {
    hide Reached, Handled, AnswerOf, ReadyOnceAndLast, MeetsEmptyFrame, Relay;
    FailoverRelay(held, more);
    var rs, o := Reached(held, more), Handled(held, more);
    forall i | 0 <= i < |rs|
      ensures i < |rs| - 1 ==> !MeetsEmptyFrame(rs[i])
    {
      SilentMeetsNothing(rs[i]);
    }
    NothingYet();
    RelayReads([]);
    if rs != [] {
      AnswerReads(rs[|rs| - 1]);
      AnswerWithEmpty(rs[|rs| - 1]);
      assert rs[|rs| - 1] in rs;
    }
    EndReadsNothing();
  }

  lemma SilentMeetsNothing(b: Backend)
    ensures AnswerOf(b).1 == Incomplete ==> !MeetsEmptyFrame(b)
  {
    hide MeetsEmptyFrame, AnswerOf;
    AnswerWithEmpty(b);
  }

  lemma EndReadsNothing()
    ensures !ReadyOnceAndLast(ClientReads(SessionEnds))
  {
  }

  // ---- Answers with an empty frame.

  // The five bytes of a tag and a length of -1.
  function EmptyFrame(tag: byte): seq<byte> {
    [tag, 255, 255, 255, 255]
  }

  lemma EmptyFrameBlocks(tag: byte)
    ensures Blocked(EmptyFrame(tag)) && Split(EmptyFrame(tag)) == ([], EmptyFrame(tag))
    ensures Joined([EmptyFrame(tag)]) == EmptyFrame(tag)
  {
    assert EmptyFrame(tag)[1..5] == [255, 255, 255, 255];
    EmptyFrameIff(EmptyFrame(tag));
    assert [EmptyFrame(tag)][..0] == [];
    assert [] + EmptyFrame(tag) == EmptyFrame(tag);
  }

  // A ready tag with a length of -1 finishes the query, makes the tracker idle, and sends
  // the client nothing; any other tag with that length holds the session for ever.
  lemma EmptyAnswers(c: Conn, tag: byte, more: Attempts, t: Tracker)
    ensures var b := Backend(c, true, [EmptyFrame(tag)]);
            var o := Handled(Some(b), more);
            && o == (if tag == READY_TAG then Finished([], c, Idle) else Stuck([])) && ClientReads(o) == []
            && (tag == READY_TAG ==> Settled(t, o).0.status == Idle && Settled(t, o).2 == Some(c))
  {
    hide Split, Blocked;
    EmptyFrameBlocks(tag);
    NothingYet();
  }
}
