// PostgreSQL wire frames: one tag byte, a big-endian 32-bit length that counts itself,
// and the rest. Frames come off a read buffer however the bytes were chunked.
module Frames {
  import opened Bytes

  const TWO_TO_THE_31: int := 0x8000_0000
  const TWO_TO_THE_64: int := 0x1_0000_0000_0000_0000

  // A 32-bit word read as a signed number.
  function Signed(w: u32): int {
    if w < TWO_TO_THE_31 then w else w - TWO_TO_THE_32
  }

  // The length field, as a signed number.
  function LengthField(b: seq<byte>): int
    requires |b| >= 5
  {
    Signed(FromBe32(b[1..5]))
  }

  // Tag and counted bytes together, in 64-bit unsigned arithmetic: a negative length
  // wraps round, and a length of -1 makes an empty frame.
  function FrameSize(b: seq<byte>): nat
    requires |b| >= 5
  {
    var len := LengthField(b);
    (1 + (if len < 0 then len + TWO_TO_THE_64 else len)) % TWO_TO_THE_64
  }

  // The buffer starts with a complete frame.
  predicate HasFrame(b: seq<byte>) {
    |b| >= 5 && FrameSize(b) <= |b|
  }

  // Takes one frame off the buffer, if it is complete.
  method ExtractBackendFrame(buf: seq<byte>) returns (frame: Option<seq<byte>>, rest: seq<byte>)
    ensures frame.Some? <==> HasFrame(buf)
    ensures frame.Some? ==> frame.value == buf[..FrameSize(buf)] && rest == buf[FrameSize(buf)..]
    ensures frame == None ==> rest == buf
  {
    if |buf| < 5 {
      return None, buf;
    }
    var len := Signed(FromBe32([buf[1], buf[2], buf[3], buf[4]]));
    assert [buf[1], buf[2], buf[3], buf[4]] == buf[1..5];
    var size := (1 + (if len < 0 then len + TWO_TO_THE_64 else len)) % TWO_TO_THE_64;
    if |buf| < size {
      return None, buf;
    }
    return Some(buf[..size]), buf[size..];
  }

  // The complete frames at the start of the buffer, and what is left behind them.
  function Split(b: seq<byte>): (r: (seq<seq<byte>>, seq<byte>))
    decreases |b|
  {
    if HasFrame(b) && FrameSize(b) > 0 then
      var (frames, rest) := Split(b[FrameSize(b)..]);
      ([b[..FrameSize(b)]] + frames, rest)
    else ([], b)
  }

  // The next length field is -1: the frame is empty, and taking it off changes nothing.
  predicate Blocked(b: seq<byte>) {
    |b| >= 5 && LengthField(b) == -1
  }

  // A length of -1, and only that, makes an empty frame, and the buffer is left as it was.
  lemma EmptyFrameIff(buf: seq<byte>)
    requires |buf| >= 5
    ensures FrameSize(buf) == 0 <==> Blocked(buf)
    ensures Blocked(buf) ==> HasFrame(buf) && buf[FrameSize(buf)..] == buf && Split(buf) == ([], buf)
  {
  }

  // A frame is its tag and the bytes that its length counts; a length below -1 is never
  // complete in any buffer of fewer than 2^63 bytes.
  lemma SizeIs(buf: seq<byte>)
    requires |buf| >= 5
    ensures LengthField(buf) >= -1 ==> FrameSize(buf) == LengthField(buf) + 1
    ensures LengthField(buf) < -1 && HasFrame(buf) ==> |buf| >= TWO_TO_THE_64 / 2
  {
  }

  // Takes frames off the buffer until none is complete, or an empty one stops it.
  method DrainFrames(buf: seq<byte>) returns (frames: seq<seq<byte>>, rest: seq<byte>, blocked: bool)
    ensures (frames, rest) == Split(buf) && blocked == Blocked(rest)
  {
    hide FrameSize;
    frames, rest := [], buf;
    assert [] + Split(buf).0 == Split(buf).0;
    while true
      invariant Split(buf) == (frames + Split(rest).0, Split(rest).1)
      decreases |rest|
    {
      var frame, next := ExtractBackendFrame(rest);
      assert frames + [] == frames;
      if |rest| >= 5 {
        EmptyFrameIff(rest);
      }
      if frame == None {
        return frames, rest, false;
      }
      if frame.value == [] {
        return frames, rest, true;
      }
      Assoc(frames, [frame.value], Split(next).0);
      frames := frames + [frame.value];
      rest := next;
    }
  }

  function Concat(frames: seq<seq<byte>>): seq<byte> {
    if frames == [] then [] else frames[0] + Concat(frames[1..])
  }

  // Frames and remainder are the bytes that came in: nothing lost, added or reordered.
  lemma {:induction false} SplitLosesNothing(b: seq<byte>)
    ensures Concat(Split(b).0) + Split(b).1 == b
    decreases |b|
  {
    hide FrameSize;
    if HasFrame(b) && FrameSize(b) > 0 {
      var n := FrameSize(b);
      SplitLosesNothing(b[n..]);
      var (frames, rest) := Split(b[n..]);
      assert ([b[..n]] + frames)[1..] == frames;
      Assoc(b[..n], Concat(frames), rest);
    }
  }

  // More bytes behind a complete frame do not change it.
  lemma FrameStays(a: seq<byte>, b: seq<byte>)
    requires |a| >= 5
    ensures FrameSize(a + b) == FrameSize(a)
  {
    assert (a + b)[1..5] == a[1..5];
  }

  // Bytes may come in any chunks: splitting what is there, and then the remainder with
  // what comes next, is splitting all of it.
  lemma {:induction false} SplitInTwo(a: seq<byte>, b: seq<byte>)
    ensures var (fs, rest) := Split(a);
            var (gs, end) := Split(rest + b);
            Split(a + b) == (fs + gs, end)
    decreases |a|
  {
    hide FrameSize;
    if HasFrame(a) && FrameSize(a) > 0 {
      var n := FrameSize(a);
      FrameStays(a, b);
      SplitInTwo(a[n..], b);
      assert (a + b)[..n] == a[..n] && (a + b)[n..] == a[n..] + b;
      var (fs, rest) := Split(a[n..]);
      var gs := Split(rest + b).0;
      Assoc([a[..n]], fs, gs);
    } else {
      assert [] + Split(a + b).0 == Split(a + b).0;
    }
  }

  // Reading chunk after chunk into one buffer and draining it each time.
  function Feed(chunks: seq<seq<byte>>): (seq<seq<byte>>, seq<byte>) {
    if chunks == [] then ([], []) else
    var (fs, rest) := Feed(chunks[..|chunks| - 1]);
    var (gs, end) := Split(rest + chunks[|chunks| - 1]);
    (fs + gs, end)
  }

  function Joined(chunks: seq<seq<byte>>): seq<byte> {
    if chunks == [] then [] else Joined(chunks[..|chunks| - 1]) + chunks[|chunks| - 1]
  }

  // Chunking independence: any chunking of a stream yields the frames of the whole
  // stream, and they and the remainder are the stream.
  lemma {:induction false} ChunkingDoesNotShow(chunks: seq<seq<byte>>)
    ensures Feed(chunks) == Split(Joined(chunks))
    ensures Concat(Feed(chunks).0) + Feed(chunks).1 == Joined(chunks)
    decreases |chunks|
  {
    if chunks != [] {
      var init := chunks[..|chunks| - 1];
      ChunkingDoesNotShow(init);
      SplitInTwo(Joined(init), chunks[|chunks| - 1]);
    }
    SplitLosesNothing(Joined(chunks));
  }

  // ---- Raw frames.

  function EncodeRaw(tag: byte, payload: seq<byte>): seq<byte> {
    [tag] + Be32((|payload| + 4) % TWO_TO_THE_32) + payload
  }

  // Decoding splits a frame off and drops tag and length.
  function DecodeRaw(b: seq<byte>): Option<(byte, seq<byte>, seq<byte>)> {
    if !HasFrame(b) || FrameSize(b) < 5 then None
    else Some((b[0], b[5..FrameSize(b)], b[FrameSize(b)..]))
  }

  // An encoded raw message is one frame, and decodes to itself, whatever follows it.
  lemma RawRoundTrip(tag: byte, payload: seq<byte>, rest: seq<byte>)
    requires |payload| + 4 < TWO_TO_THE_31
    ensures DecodeRaw(EncodeRaw(tag, payload) + rest) == Some((tag, payload, rest))
    ensures Split(EncodeRaw(tag, payload) + rest) == ([EncodeRaw(tag, payload)] + Split(rest).0, Split(rest).1)
  {
    hide Split;
    RawFrameSize(tag, payload, rest);
    var f := EncodeRaw(tag, payload);
    var b := f + rest;
    assert b[..|f|] == f && b[|f|..] == rest && b[5..|f|] == payload;
    SplitFirst(f, rest);
  }

  lemma RawFrameSize(tag: byte, payload: seq<byte>, rest: seq<byte>)
    requires |payload| + 4 < TWO_TO_THE_31
    ensures FrameSize(EncodeRaw(tag, payload) + rest) == |EncodeRaw(tag, payload)|
  {
    hide Be32, FromBe32;
    var b := EncodeRaw(tag, payload) + rest;
    assert b[1..5] == Be32(|payload| + 4);
    WordRoundTrip(|payload| + 4);
  }

  lemma SplitFirst(f: seq<byte>, rest: seq<byte>)
    requires 5 <= |f| && FrameSize(f + rest) == |f|
    ensures Split(f + rest) == ([f] + Split(rest).0, Split(rest).1)
  {
    hide FrameSize;
    assert (f + rest)[..|f|] == f && (f + rest)[|f|..] == rest;
  }
}
