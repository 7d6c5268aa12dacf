// What the bytes of one backend's answer amount to, however they were chunked: the frames
// to relay, and how the answer ends.
module Responses {
  import opened Bytes
  import opened Frames

  datatype TransactionStatus = Idle | InTransaction | InError

  const READY_TAG: byte := 90  // 'Z'

  predicate IsReady(frame: seq<byte>) {
    frame != [] && frame[0] == READY_TAG
  }

  // The status byte of a ready frame; short frames and unknown bytes count as idle.
  function StatusOf(frame: seq<byte>): TransactionStatus {
    if |frame| < 6 then Idle else
    if frame[5] == 84 then InTransaction else
    if frame[5] == 69 then InError else Idle
  }

  predicate HasReady(fs: seq<seq<byte>>) {
    exists i :: 0 <= i < |fs| && IsReady(fs[i])
  }

  // The frames up to and including the first ready frame; all of them if there is none.
  function UpToReady(fs: seq<seq<byte>>): seq<seq<byte>> {
    if fs == [] then [] else
    if IsReady(fs[0]) then [fs[0]] else [fs[0]] + UpToReady(fs[1..])
  }

  function LastStatus(fs: seq<seq<byte>>): TransactionStatus {
    if fs == [] then Idle else StatusOf(fs[|fs| - 1])
  }

  // How the bytes end: in the middle of a frame or between frames; with a ready tag; or at
  // an empty frame of another kind, which is taken off the buffer for ever.
  datatype End = Incomplete | Ready(status: TransactionStatus) | Jam

  // The frames to relay and the end, given the frames of the bytes and what is left behind
  // them. An empty ready frame counts as idle, and has nothing to relay.
  function React(fs: seq<seq<byte>>, rest: seq<byte>): (seq<seq<byte>>, End) {
    if HasReady(fs) then (UpToReady(fs), Ready(LastStatus(UpToReady(fs)))) else
    if !Blocked(rest) then (fs, Incomplete) else
    (fs, if rest[0] == READY_TAG then Ready(Idle) else Jam)
  }

  function Reaction(b: seq<byte>): (seq<seq<byte>>, End) {
    React(Split(b).0, Split(b).1)
  }

  // ---- Frame lists.

  lemma HasReadyConcat(a: seq<seq<byte>>, b: seq<seq<byte>>)
    ensures HasReady(a + b) <==> HasReady(a) || HasReady(b)
  {
    if HasReady(a) {
      var i :| 0 <= i < |a| && IsReady(a[i]);
      assert (a + b)[i] == a[i];
    }
    if HasReady(b) {
      var i :| 0 <= i < |b| && IsReady(b[i]);
      assert (a + b)[|a| + i] == b[i];
    }
  }

  lemma ReadyOne(f: seq<byte>)
    ensures HasReady([f]) <==> IsReady(f)
    ensures !HasReady([])
  {
    assert [f][0] == f;
  }

  // Frames without a ready frame are passed over.
  lemma {:induction false} UpToReadyBehind(a: seq<seq<byte>>, b: seq<seq<byte>>)
    requires !HasReady(a)
    ensures UpToReady(a + b) == a + UpToReady(b)
    decreases |a|
  {
    if a == [] {
      assert a + b == b;
    } else {
      assert a == [a[0]] + a[1..] && (a + b)[1..] == a[1..] + b;
      HasReadyConcat([a[0]], a[1..]);
      ReadyOne(a[0]);
      UpToReadyBehind(a[1..], b);
    }
  }

  // What follows the first ready frame does not matter.
  lemma {:induction false} UpToReadyStays(a: seq<seq<byte>>, b: seq<seq<byte>>)
    requires HasReady(a)
    ensures UpToReady(a + b) == UpToReady(a)
    decreases |a|
  {
    assert (a + b)[0] == a[0] && (a + b)[1..] == a[1..] + b;
    if !IsReady(a[0]) {
      assert a == [a[0]] + a[1..];
      HasReadyConcat([a[0]], a[1..]);
      ReadyOne(a[0]);
      UpToReadyStays(a[1..], b);
    }
  }

  // Cut at the first ready frame: that frame is last, and no other is among them.
  lemma {:induction false} ReadyIsLast(fs: seq<seq<byte>>)
    requires HasReady(fs)
    ensures var r := UpToReady(fs);
            && r != [] && r <= fs && IsReady(r[|r| - 1])
            && forall i :: 0 <= i < |r| - 1 ==> !IsReady(r[i])
    decreases |fs|
  {
    if !IsReady(fs[0]) {
      assert fs == [fs[0]] + fs[1..];
      HasReadyConcat([fs[0]], fs[1..]);
      ReadyOne(fs[0]);
      ReadyIsLast(fs[1..]);
    }
  }

  // ---- Chunks.

  // Frames already relayed come first, and do not matter otherwise.
  lemma ReactBehind(sent: seq<seq<byte>>, fs: seq<seq<byte>>, rest: seq<byte>)
    requires !HasReady(sent)
    ensures React(sent + fs, rest) == (sent + React(fs, rest).0, React(fs, rest).1)
  {
    HasReadyConcat(sent, fs);
    UpToReadyBehind(sent, fs);
    if HasReady(fs) {
      ReadyIsLast(fs);
    }
  }

  // Once the end is reached, further bytes do not matter.
  lemma EndStays(a: seq<byte>, b: seq<byte>)
    requires Reaction(a).1 != Incomplete
    ensures Reaction(a + b) == Reaction(a)
  {
    hide Split, Blocked;
    SplitInTwo(a, b);
    var (fs, rest) := Split(a);
    var (gs, end) := Split(rest + b);
    HasReadyConcat(fs, gs);
    if HasReady(fs) {
      UpToReadyStays(fs, gs);
    } else {
      BlockedStays(rest, b);
      assert fs + [] == fs;
    }
  }

  lemma BlockedStays(a: seq<byte>, b: seq<byte>)
    requires Blocked(a)
    ensures Blocked(a + b) && Split(a + b) == ([], a + b) && (a + b)[0] == a[0]
  {
    assert (a + b)[1..5] == a[1..5];
    EmptyFrameIff(a + b);
  }

  lemma {:induction false} JoinedConcat(a: seq<seq<byte>>, b: seq<seq<byte>>)
    ensures Joined(a + b) == Joined(a) + Joined(b)
    decreases |b|
  {
    if b == [] {
      assert a + b == a;
    } else {
      var init := b[..|b| - 1];
      JoinedConcat(a, init);
      assert (a + b)[..|a + b| - 1] == a + init;
      Assoc(Joined(a), Joined(init), b[|b| - 1]);
    }
  }

  // More bytes: their reaction behind what is buffered, behind what was relayed.
  lemma MoreBytes(a: seq<byte>, b: seq<byte>)
    requires !HasReady(Split(a).0)
    ensures var (sent, buf) := Split(a);
            && Reaction(a + b) == (sent + Reaction(buf + b).0, Reaction(buf + b).1)
            && Split(a + b) == (sent + Split(buf + b).0, Split(buf + b).1)
  {
    hide Split, React;
    SplitInTwo(a, b);
    var (sent, buf) := Split(a);
    ReactBehind(sent, Split(buf + b).0, Split(buf + b).1);
  }

  lemma JoinedNext(chunks: seq<seq<byte>>, i: nat)
    requires i < |chunks|
    ensures Joined(chunks[..i + 1]) == Joined(chunks[..i]) + chunks[i]
    ensures Joined(chunks) == Joined(chunks[..i + 1]) + Joined(chunks[i + 1..])
  {
    hide Joined;
    JoinedLast(chunks[..i + 1]);
    assert chunks[..i + 1][..i] == chunks[..i];
    assert chunks == chunks[..i + 1] + chunks[i + 1..];
    JoinedConcat(chunks[..i + 1], chunks[i + 1..]);
  }

  lemma JoinedLast(chunks: seq<seq<byte>>)
    requires chunks != []
    ensures Joined(chunks) == Joined(chunks[..|chunks| - 1]) + chunks[|chunks| - 1]
  {
  }

  // One more chunk; if it brings the end, the chunks behind it do not matter.
  lemma OneMoreChunk(chunks: seq<seq<byte>>, i: nat)
    requires i < |chunks| && !HasReady(Split(Joined(chunks[..i])).0)
    ensures var (sent, buf) := Split(Joined(chunks[..i]));
            var (more, end) := Reaction(buf + chunks[i]);
            && Reaction(Joined(chunks[..i + 1])) == (sent + more, end)
            && Split(Joined(chunks[..i + 1])) == (sent + Split(buf + chunks[i]).0, Split(buf + chunks[i]).1)
            && (end != Incomplete ==> Reaction(Joined(chunks)) == (sent + more, end))
  {
    hide Split, Reaction, Joined, HasReady;
    JoinedNext(chunks, i);
    MoreBytes(Joined(chunks[..i]), chunks[i]);
    if Reaction(Joined(chunks[..i + 1])).1 != Incomplete {
      EndStays(Joined(chunks[..i + 1]), Joined(chunks[i + 1..]));
    }
  }

  lemma NothingYet()
    ensures Split([]) == ([], []) && Reaction([]) == ([], Incomplete) && !HasReady([])
  {
  }

  // ---- The condition on the bytes.

  // Frame by frame from the start, a length field of -1 comes before any ready frame.
  predicate EmptyFirst(b: seq<byte>)
    decreases |b|
  {
    HasFrame(b) && (LengthField(b) == -1
                    || (FrameSize(b) > 0 && b[0] != READY_TAG && EmptyFirst(b[FrameSize(b)..])))
  }

  // That is when the answer does not end with a ready frame of its own.
  lemma {:induction false} EmptyFirstIff(b: seq<byte>)
    ensures EmptyFirst(b) <==> !HasReady(Split(b).0) && Blocked(Split(b).1)
    decreases |b|
  {
    hide FrameSize, LengthField;
    if |b| >= 5 {
      EmptyFrameIff(b);
    }
    if HasFrame(b) && FrameSize(b) > 0 {
      var n := FrameSize(b);
      EmptyFirstIff(b[n..]);
      HasReadyConcat([b[..n]], Split(b[n..]).0);
      ReadyOne(b[..n]);
    } else {
      ReadyOne([]);
    }
  }

  // Nothing comes of the bytes exactly if they make no whole frame.
  lemma NothingIff(b: seq<byte>)
    ensures Reaction(b) == ([], Incomplete) <==> !HasFrame(b)
  {
    hide FrameSize, LengthField, UpToReady;
    ReadyOne([]);
    if |b| >= 5 {
      EmptyFrameIff(b);
    }
    if HasFrame(b) && FrameSize(b) > 0 {
      assert Split(b).0 != [];
      FramesReact(Split(b).0, Split(b).1);
    }
  }

  lemma FramesReact(fs: seq<seq<byte>>, rest: seq<byte>)
    requires fs != []
    ensures React(fs, rest).0 != []
  {
    hide UpToReady;
    if HasReady(fs) {
      ReadyIsLast(fs);
    }
  }
}
