// The replicated state machine: commands, its file on disk, snapshots, and the fact that
// crashes, batches and snapshots never show in its state.
module StateMachine {
  import opened Bytes
  import opened RaftTypes
  import opened WalRefinement

  const STATE_MAGIC: seq<byte> := [80, 71, 83, 77]  // "PGSM"

  datatype Data = Data(
    lastApplied: Option<LogId>,
    lastMembership: StoredMembership,
    kvs: map<string, string>,
    nodes: map<nat, NodeInfo>,
    roles: map<nat, NodeRole>)

  const INITIAL: Data := Data(None, StoredMembership(None, Membership([], map[])), map[], map[], map[])

  // The serializer and the checksum are foreign code: the model takes them as functions.
  datatype DataCodec = DataCodec(encode: Data -> seq<byte>, decode: seq<byte> -> Option<Data>, crc: seq<byte> -> u32)

  ghost predicate Invertible(c: DataCodec) {
    forall d :: c.decode(c.encode(d)) == Some(d)
  }

  // ---- Applying entries.

  function ApplyCommand(d: Data, cmd: ClusterCommand): (Data, ClusterResponse) {
    match cmd
    case RegisterNode(id, info) => (d.(nodes := d.nodes[id := info], roles := d.roles[id := Standby]), Success)
    case UpdateNodeRole(id, role) => (d.(roles := d.roles[id := role]), Success)
    case SetState(key, value) => (d.(kvs := d.kvs[key := value]), Success)
    case DeleteState(key) =>
      (d.(kvs := d.kvs - {key}), Value(if key in d.kvs then Some(d.kvs[key]) else None))
  }

  function ApplyEntry(d: Data, e: Entry): (Data, ClusterResponse) {
    var d1 := d.(lastApplied := Some(e.logId));
    match e.payload
    case Normal(cmd) => ApplyCommand(d1, cmd)
    case Change(mem) => (d1.(lastMembership := StoredMembership(Some(e.logId), mem)), Success)
    case Blank => (d1, Success)
  }

  function ApplyAll(d: Data, es: seq<Entry>): (r: (Data, seq<ClusterResponse>))
    ensures |r.1| == |es|
  {
    if es == [] then (d, []) else
    var (d1, rs) := ApplyAll(d, es[..|es| - 1]);
    var (d2, r) := ApplyEntry(d1, es[|es| - 1]);
    (d2, rs + [r])
  }

  // ---- The file.

  function FileOf(c: DataCodec, d: Data): seq<byte> {
    var payload := c.encode(d);
    STATE_MAGIC + Be32(c.crc(payload)) + payload
  }

  datatype OpenError = ShortHeader | CorruptedMagic | ChecksumMismatch | Undecodable
  datatype Opened = Opened(data: Data, file: seq<byte>) | Failed(error: OpenError)

  // A missing file, or one too short for the magic, starts the machine afresh.
  function OpenFile(c: DataCodec, file: Option<seq<byte>>): Opened {
    if file == None || |file.value| < 4 then Opened(INITIAL, FileOf(c, INITIAL)) else
    var b := file.value;
    if b[..4] != STATE_MAGIC then Failed(CorruptedMagic) else
    if |b| < 8 then Failed(ShortHeader) else
    var payload := b[8..];
    if c.crc(payload) != FromBe32(b[4..8]) then Failed(ChecksumMismatch) else
    match c.decode(payload)
    case None => Failed(Undecodable)
    case Some(d) => Opened(d, b)
  }

  // What is persisted is what is opened.
  lemma PersistThenOpen(c: DataCodec, d: Data)
    requires Invertible(c)
    ensures OpenFile(c, Some(FileOf(c, d))) == Opened(d, FileOf(c, d))
  {
    var payload := c.encode(d);
    var b := FileOf(c, d);
    assert b[..4] == STATE_MAGIC && b[4..8] == Be32(c.crc(payload)) && b[8..] == payload;
    WordRoundTrip(c.crc(payload));
  }

  // ---- Snapshots.

  datatype SnapshotMeta = SnapshotMeta(lastLogId: Option<LogId>, lastMembership: StoredMembership)
  datatype Snapshot = Snapshot(meta: SnapshotMeta, payload: seq<byte>)

  function SnapshotOf(c: DataCodec, d: Data): Snapshot {
    Snapshot(SnapshotMeta(d.lastApplied, d.lastMembership), c.encode(d))
  }

  // The state after installing a snapshot; None if its payload does not decode.
  function Installed(c: DataCodec, s: Snapshot): Option<Data> {
    match c.decode(s.payload)
    case None => None
    case Some(d) => Some(d.(lastApplied := s.meta.lastLogId, lastMembership := s.meta.lastMembership))
  }

  class Machine {
    const codec: DataCodec
    var data: Data
    var file: seq<byte>

    constructor (codec: DataCodec, data: Data, file: seq<byte>)
      ensures this.codec == codec && this.data == data && this.file == file
    {
      this.codec, this.data, this.file := codec, data, file;
    }

    // Opens the machine on its file, or starts it afresh and persists it at once.
    static method Open(codec: DataCodec, disk: Option<seq<byte>>) returns (m: Option<Machine>, error: Option<OpenError>)
      ensures match OpenFile(codec, disk)
              case Opened(d, b) => m.Some? && fresh(m.value) && m.value.codec == codec
                                   && m.value.data == d && m.value.file == b
              case Failed(e) => m == None && error == Some(e)
    {
      m, error := None, None;
      if disk == None || |disk.value| < 4 {
        var started := new Machine(codec, INITIAL, []);
        started.PersistToDisk();
        return Some(started), None;
      }
      var b := disk.value;
      if b[..4] != STATE_MAGIC {
        return None, Some(CorruptedMagic);
      }
      if |b| < 8 {
        return None, Some(ShortHeader);
      }
      var expected := FromBe32(b[4..8]);
      var payload := b[8..];
      if codec.crc(payload) != expected {
        return None, Some(ChecksumMismatch);
      }
      match codec.decode(payload)
      case None => return None, Some(Undecodable);
      case Some(d) =>
        var found := new Machine(codec, d, b);
        return Some(found), None;
    }

    // Writes a temporary file and renames it over the old one.
    method PersistToDisk()
      modifies this`file
      ensures file == FileOf(codec, data)
    {
      var payload := codec.encode(data);
      var temp := STATE_MAGIC;
      temp := temp + Be32(codec.crc(payload));
      temp := temp + payload;
      file := temp;
    }

    method Execute(cmd: ClusterCommand) returns (response: ClusterResponse)
      modifies this`data
      ensures (data, response) == ApplyCommand(old(data), cmd)
    {
      match cmd
      case RegisterNode(id, info) =>
        data := data.(nodes := data.nodes[id := info]);
        data := data.(roles := data.roles[id := Standby]);
        response := Success;
      case UpdateNodeRole(id, role) =>
        data := data.(roles := data.roles[id := role]);
        response := Success;
      case SetState(key, value) =>
        data := data.(kvs := data.kvs[key := value]);
        response := Success;
      case DeleteState(key) =>
        var prev := if key in data.kvs then Some(data.kvs[key]) else None;
        data := data.(kvs := data.kvs - {key});
        response := Value(prev);
    }

    // Applies a batch in order, answers every entry, and persists once at the end.
    method Apply(entries: seq<Entry>) returns (responses: seq<ClusterResponse>)
      modifies this
      ensures (data, responses) == ApplyAll(old(data), entries)
      ensures file == FileOf(codec, data)
    {
      responses := [];
      for i := 0 to |entries|
        invariant (data, responses) == ApplyAll(old(data), entries[..i])
      {
        var entry := entries[i];
        assert entries[..i + 1][..i] == entries[..i];
        data := data.(lastApplied := Some(entry.logId));
        match entry.payload {
          case Normal(cmd) =>
            var response := Execute(cmd);
            responses := responses + [response];
          case Change(mem) =>
            data := data.(lastMembership := StoredMembership(Some(entry.logId), mem));
            responses := responses + [Success];
          case Blank =>
            responses := responses + [Success];
        }
      }
      assert entries[..|entries|] == entries;
      PersistToDisk();
    }

    // The current snapshot; none before anything was applied.
    method GetCurrentSnapshot() returns (s: Option<Snapshot>)
      ensures s == if data.lastApplied == None then None else Some(SnapshotOf(codec, data))
    {
      if data.lastApplied == None {
        return None;
      }
      s := Some(Snapshot(SnapshotMeta(data.lastApplied, data.lastMembership), codec.encode(data)));
    }

    // Replaces the state by a snapshot's; an undecodable one changes nothing.
    method InstallSnapshot(s: Snapshot) returns (ok: bool)
      modifies this
      ensures ok <==> Installed(codec, s).Some?
      ensures ok ==> data == Installed(codec, s).value && file == FileOf(codec, data)
      ensures !ok ==> data == old(data) && file == old(file)
    {
      match codec.decode(s.payload)
      case None =>
        return false;
      case Some(d) =>
        data := d;
        PersistToDisk();
        data := data.(lastApplied := s.meta.lastLogId);
        data := data.(lastMembership := s.meta.lastMembership);
        PersistToDisk();
        return true;
    }
  }

  // ---- Batches.

  // Where a batch ends does not show: neither in the state nor in the responses.
  lemma {:induction false} BatchesDoNotShow(d: Data, a: seq<Entry>, b: seq<Entry>)
    ensures var (d1, rs1) := ApplyAll(d, a);
            var (d2, rs2) := ApplyAll(d1, b);
            ApplyAll(d, a + b) == (d2, rs1 + rs2)
    decreases |b|
  {
    if b == [] {
      assert a + b == a;
      assert ApplyAll(d, a).1 + [] == ApplyAll(d, a).1;
    } else {
      var init := b[..|b| - 1];
      BatchesDoNotShow(d, a, init);
      assert (a + b)[..|a + b| - 1] == a + init;
      var (d1, rs1) := ApplyAll(d, a);
      var (d2, rs2) := ApplyAll(d1, init);
      var r := ApplyEntry(d2, b[|b| - 1]).1;
      assert (rs1 + rs2) + [r] == rs1 + (rs2 + [r]);
    }
  }

  // ---- The machine over a committed log, through crashes and snapshots.

  // The crash-free state after the first n entries.
  function StateAt(log: seq<Entry>, n: nat): Data
    requires n <= |log|
  {
    ApplyAll(INITIAL, log[..n]).0
  }

  // The point from which replay goes on: the entries above `lastApplied`.
  function ReplayPoint(log: seq<Entry>, lastApplied: Option<LogId>): (n: nat)
    ensures n <= |log|
  {
    if lastApplied == None then 0 else Below(log, lastApplied.value.index + 1)
  }

  datatype Node = Node(up: bool, data: Data, file: Option<seq<byte>>)

  // A crash inside an apply is `Crash`: the file changes by one rename at the end. A
  // crash between the two renames of an install is `TornInstall`.
  datatype Op =
    | Apply(count: nat)        // the next entries of the log behind the recovered point
    | Install(prefix: nat)     // a snapshot that some node took after that many entries
    | TornInstall(prefix: nat)
    | Crash
    | Reopen

  predicate Legal(log: seq<Entry>, s: Node, op: Op) {
    match op
    case Apply(k) => s.up && ReplayPoint(log, s.data.lastApplied) + k <= |log|
    case Install(n) => s.up && n <= |log|
    case TornInstall(n) => s.up && n <= |log|
    case Crash => true
    case Reopen => !s.up
  }

  function Batch(log: seq<Entry>, s: Node, k: nat): seq<Entry>
    requires Legal(log, s, Apply(k))
  {
    var at := ReplayPoint(log, s.data.lastApplied);
    log[at..at + k]
  }

  // None stands for a machine that cannot be opened.
  function Step(c: DataCodec, log: seq<Entry>, s: Node, op: Op): Option<Node>
    requires Legal(log, s, op)
  {
    match op
    case Apply(k) =>
      var d := ApplyAll(s.data, Batch(log, s, k)).0;
      Some(s.(data := d, file := Some(FileOf(c, d))))
    case Install(n) =>
      var found := Installed(c, SnapshotOf(c, StateAt(log, n)));
      if found == None then Some(s) else Some(s.(data := found.value, file := Some(FileOf(c, found.value))))
    case TornInstall(n) =>
      var found := c.decode(SnapshotOf(c, StateAt(log, n)).payload);
      Some(s.(up := false, file := if found == None then s.file else Some(FileOf(c, found.value))))
    case Crash => Some(s.(up := false))
    case Reopen =>
      var found := OpenFile(c, s.file);
      if found.Failed? then None else Some(Node(true, found.data, Some(found.file)))
  }

  // The number of entries in effect after an operation.
  function Position(n: nat, op: Op): nat {
    match op
    case Apply(k) => n + k
    case Install(k) => k
    case TornInstall(k) => k
    case Crash => n
    case Reopen => n
  }

  // The node stands exactly where a crash-free machine stands after n entries.
  predicate StandsAt(c: DataCodec, log: seq<Entry>, s: Node, n: nat) {
    && n <= |log|
    && (s.up ==> s.data == StateAt(log, n) && s.file.Some?)
    && (if s.file == None then n == 0 else s.file.value == FileOf(c, StateAt(log, n)))
  }

  // The recovered point is the number of entries that are in the state.
  lemma ReplayPointIsExact(log: seq<Entry>, n: nat)
    requires Increasing(log) && n <= |log|
    ensures ReplayPoint(log, StateAt(log, n).lastApplied) == n
  {
    if n > 0 {
      assert log[..n][..n - 1] == log[..n - 1];
      LastAppliedIs(ApplyAll(INITIAL, log[..n - 1]).0, log[n - 1]);
      BelowSplits(log, Idx(log[n - 1]) + 1);
      if n < |log| {
        assert Idx(log[n - 1]) < Idx(log[n]);
      }
    }
  }

  lemma LastAppliedIs(d: Data, e: Entry)
    ensures ApplyEntry(d, e).0.lastApplied == Some(e.logId)
  {
  }

  // Going on from the recovered point is going on without a crash.
  lemma ApplyGoesOn(log: seq<Entry>, n: nat, k: nat)
    requires n + k <= |log|
    ensures ApplyAll(StateAt(log, n), log[n..n + k]).0 == StateAt(log, n + k)
    ensures ApplyAll(StateAt(log, n), log[n..n + k]).1 == ApplyAll(INITIAL, log).1[n..n + k]
  {
    hide ApplyAll;
    SplitLog(log, n, k);
    BatchesDoNotShow(INITIAL, log[..n], log[n..n + k]);
    BatchesDoNotShow(INITIAL, log[..n + k], log[n + k..]);
    var a := ApplyAll(INITIAL, log[..n]).1;
    var b := ApplyAll(StateAt(log, n), log[n..n + k]).1;
    Middle(a, b, ApplyAll(StateAt(log, n + k), log[n + k..]).1);
  }

  lemma SplitLog(log: seq<Entry>, n: nat, k: nat)
    requires n + k <= |log|
    ensures log[..n] + log[n..n + k] == log[..n + k] && log[..n + k] + log[n + k..] == log
  {
  }

  lemma Middle(a: seq<ClusterResponse>, b: seq<ClusterResponse>, c: seq<ClusterResponse>)
    ensures ((a + b) + c)[|a|..|a| + |b|] == b
  {
  }

  // A snapshot carries the whole state to any other node.
  lemma SnapshotTransfers(c: DataCodec, d: Data)
    requires Invertible(c)
    ensures Installed(c, SnapshotOf(c, d)) == Some(d)
  {
  }

  lemma StartsAfresh(c: DataCodec, log: seq<Entry>)
    ensures OpenFile(c, None) == Opened(StateAt(log, 0), FileOf(c, StateAt(log, 0)))
  {
  }

  lemma StepStands(c: DataCodec, log: seq<Entry>, s: Node, n: nat, op: Op)
    requires Invertible(c) && Increasing(log) && StandsAt(c, log, s, n) && Legal(log, s, op)
    ensures Step(c, log, s, op).Some? && StandsAt(c, log, Step(c, log, s, op).value, Position(n, op))
  {
    hide ApplyAll, FileOf, OpenFile;
    match op
    case Apply(k) =>
      ReplayPointIsExact(log, n);
      ApplyGoesOn(log, n, k);
    case Install(k) => SnapshotTransfers(c, StateAt(log, k));
    case TornInstall(k) => SnapshotTransfers(c, StateAt(log, k));
    case Crash =>
    case Reopen =>
      if s.file.Some? {
        PersistThenOpen(c, StateAt(log, n));
      } else {
        StartsAfresh(c, log);
      }
  }

  // A run: every operation is legal where it happens, and leads to the next node.
  predicate IsRun(c: DataCodec, log: seq<Entry>, ns: seq<Node>, ops: seq<Op>) {
    && |ns| == |ops| + 1 && ns[0] == Node(false, INITIAL, None)
    && forall i :: 0 <= i < |ops| ==> Legal(log, ns[i], ops[i]) && Step(c, log, ns[i], ops[i]) == Some(ns[i + 1])
  }

  function PositionAfter(ops: seq<Op>): nat {
    if ops == [] then 0 else Position(PositionAfter(ops[..|ops| - 1]), ops[|ops| - 1])
  }

  // Replay equivalence: after every run of batches, snapshots, crashes and reopenings the
  // node stands where the crash-free machine stands, and it can always go on.
  lemma {:induction false} RunStands(c: DataCodec, log: seq<Entry>, ns: seq<Node>, ops: seq<Op>)
    requires Invertible(c) && Increasing(log) && IsRun(c, log, ns, ops)
    ensures StandsAt(c, log, ns[|ops|], PositionAfter(ops))
    ensures forall op :: Legal(log, ns[|ops|], op) ==> Step(c, log, ns[|ops|], op).Some?
    decreases |ops|
  {
    var n := |ops|;
    if n > 0 {
      RunStands(c, log, ns[..n], ops[..n - 1]);
      assert ns[..n][n - 1] == ns[n - 1];
      StepStands(c, log, ns[n - 1], PositionAfter(ops[..n - 1]), ops[n - 1]);
    }
    forall op | Legal(log, ns[n], op)
      ensures Step(c, log, ns[n], op).Some?
    {
      StepStands(c, log, ns[n], PositionAfter(ops), op);
    }
  }

  // Applying the rest of the log after any run ends in the state of the whole log, and
  // the responses are those that a machine that never crashed would have given.
  lemma ReplayEndsRight(c: DataCodec, log: seq<Entry>, ns: seq<Node>, ops: seq<Op>)
    requires Invertible(c) && Increasing(log) && IsRun(c, log, ns, ops) && ns[|ops|].up
    ensures var s := ns[|ops|];
            var at := ReplayPoint(log, s.data.lastApplied);
            && at == PositionAfter(ops)
            && ApplyAll(s.data, log[at..]) == (ApplyAll(INITIAL, log).0, ApplyAll(INITIAL, log).1[at..])
  {
    RunStands(c, log, ns, ops);
    var n := PositionAfter(ops);
    ReplayPointIsExact(log, n);
    ApplyGoesOn(log, n, |log| - n);
    assert log[n..|log|] == log[n..] && log[..|log|] == log;
    var rs := ApplyAll(INITIAL, log).1;
    assert rs[n..|log|] == rs[n..];
  }
}
