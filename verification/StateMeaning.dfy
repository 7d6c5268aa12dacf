// What the state machine's state and responses mean: the last entry of the log that bears
// on a key, a node or the membership decides.
module StateMeaning {
  import opened Bytes
  import opened RaftTypes
  import opened WalRefinement
  import opened StateMachine

  // Some position passes `hit`, and no later one passes `touch`.
  ghost predicate LastBy(log: seq<Entry>, hit: Entry -> bool, touch: Entry -> bool) {
    exists i :: 0 <= i < |log| && hit(log[i]) && Untouched(log, i + 1, touch)
  }

  ghost predicate Untouched(log: seq<Entry>, from: int, touch: Entry -> bool) {
    forall j :: 0 <= j < |log| && from <= j ==> !touch(log[j])
  }

  lemma LastByNext(log: seq<Entry>, e: Entry, hit: Entry -> bool, touch: Entry -> bool)
    ensures LastBy(log + [e], hit, touch) <==> hit(e) || (!touch(e) && LastBy(log, hit, touch))
  {
    var log', n := log + [e], |log|;
    assert log'[n] == e && forall j :: 0 <= j < n ==> log'[j] == log[j];
    if hit(e) {
      assert hit(log'[n]) && Untouched(log', n + 1, touch);
    }
    if !touch(e) && LastBy(log, hit, touch) {
      var i :| 0 <= i < |log| && hit(log[i]) && Untouched(log, i + 1, touch);
      assert hit(log'[i]) && Untouched(log', i + 1, touch);
    }
    if LastBy(log', hit, touch) && !hit(e) {
      var i :| 0 <= i < |log'| && hit(log'[i]) && Untouched(log', i + 1, touch);
      assert i < n && hit(log[i]) && Untouched(log, i + 1, touch);
      assert !touch(log'[n]);
    }
  }

  lemma LastByNothing(hit: Entry -> bool, touch: Entry -> bool)
    ensures !LastBy([], hit, touch)
  {
  }

  // ---- What entries bear on.

  function SetsKey(key: string, value: string): Entry -> bool {
    (e: Entry) => e.payload == Normal(SetState(key, value))
  }

  function TouchesKey(key: string): Entry -> bool {
    (e: Entry) => e.payload.Normal? && ((e.payload.command.SetState? && e.payload.command.key == key)
                                        || e.payload.command == DeleteState(key))
  }

  // Registration makes a node a standby.
  function GivesRole(id: nat, role: NodeRole): Entry -> bool {
    (e: Entry) => e.payload.Normal? && ((e.payload.command.RegisterNode? && e.payload.command.id == id && role == Standby)
                                        || e.payload.command == UpdateNodeRole(id, role))
  }

  function TouchesRole(id: nat): Entry -> bool {
    (e: Entry) => e.payload.Normal? && ((e.payload.command.RegisterNode? && e.payload.command.id == id)
                                        || (e.payload.command.UpdateNodeRole? && e.payload.command.id == id))
  }

  function Registers(id: nat, info: NodeInfo): Entry -> bool {
    (e: Entry) => e.payload == Normal(RegisterNode(id, info))
  }

  function TouchesNode(id: nat): Entry -> bool {
    (e: Entry) => e.payload.Normal? && e.payload.command.RegisterNode? && e.payload.command.id == id
  }

  function Changes(id: LogId, membership: Membership): Entry -> bool {
    (e: Entry) => e == Entry(id, Change(membership))
  }

  function TouchesMembership(): Entry -> bool {
    (e: Entry) => e.payload.Change?
  }

  // ---- What the log means.

  ghost predicate KeyMeans(d: Data, log: seq<Entry>, key: string, value: string) {
    key in d.kvs && d.kvs[key] == value <==> LastBy(log, SetsKey(key, value), TouchesKey(key))
  }

  ghost predicate RoleMeans(d: Data, log: seq<Entry>, id: nat, role: NodeRole) {
    id in d.roles && d.roles[id] == role <==> LastBy(log, GivesRole(id, role), TouchesRole(id))
  }

  ghost predicate NodeMeans(d: Data, log: seq<Entry>, id: nat, info: NodeInfo) {
    id in d.nodes && d.nodes[id] == info <==> LastBy(log, Registers(id, info), TouchesNode(id))
  }

  ghost predicate MembershipMeans(d: Data, log: seq<Entry>, id: LogId, m: Membership) {
    d.lastMembership == StoredMembership(Some(id), m) <==> LastBy(log, Changes(id, m), TouchesMembership())
  }

  // The state is what the log means: every key has the value that some entry set and no
  // later one set or deleted; so with roles, nodes and the membership; and the last entry
  // is the last one applied.
  ghost predicate Means(d: Data, log: seq<Entry>) {
    && (forall key, value :: KeyMeans(d, log, key, value))
    && (forall id, role :: RoleMeans(d, log, id, role))
    && (forall id, info :: NodeMeans(d, log, id, info))
    && (forall id, m :: MembershipMeans(d, log, id, m))
    && (d.lastMembership == INITIAL.lastMembership <==> forall i :: 0 <= i < |log| ==> !log[i].payload.Change?)
    && d.lastApplied == (if log == [] then None else Some(log[|log| - 1].logId))
  }

  lemma KeyStep(d: Data, log: seq<Entry>, e: Entry, key: string, value: string)
    requires KeyMeans(d, log, key, value)
    ensures KeyMeans(ApplyEntry(d, e).0, log + [e], key, value)
  {
    hide LastBy;
    LastByNext(log, e, SetsKey(key, value), TouchesKey(key));
  }

  lemma RoleStep(d: Data, log: seq<Entry>, e: Entry, id: nat, role: NodeRole)
    requires RoleMeans(d, log, id, role)
    ensures RoleMeans(ApplyEntry(d, e).0, log + [e], id, role)
  {
    hide LastBy;
    LastByNext(log, e, GivesRole(id, role), TouchesRole(id));
  }

  lemma NodeStep(d: Data, log: seq<Entry>, e: Entry, id: nat, info: NodeInfo)
    requires NodeMeans(d, log, id, info)
    ensures NodeMeans(ApplyEntry(d, e).0, log + [e], id, info)
  {
    hide LastBy;
    LastByNext(log, e, Registers(id, info), TouchesNode(id));
  }

  lemma MembershipStep(d: Data, log: seq<Entry>, e: Entry, id: LogId, m: Membership)
    requires MembershipMeans(d, log, id, m)
    ensures MembershipMeans(ApplyEntry(d, e).0, log + [e], id, m)
  {
    hide LastBy;
    LastByNext(log, e, Changes(id, m), TouchesMembership());
  }

  lemma InitialStep(d: Data, log: seq<Entry>, e: Entry)
    requires d.lastMembership == INITIAL.lastMembership <==> forall i :: 0 <= i < |log| ==> !log[i].payload.Change?
    ensures ApplyEntry(d, e).0.lastMembership == INITIAL.lastMembership <==>
            forall i :: 0 <= i < |log + [e]| ==> !(log + [e])[i].payload.Change?
  {
    var log' := log + [e];
    assert log'[|log|] == e && forall i :: 0 <= i < |log| ==> log'[i] == log[i];
  }

  lemma MeansStep(d: Data, log: seq<Entry>, e: Entry)
    requires Means(d, log)
    ensures Means(ApplyEntry(d, e).0, log + [e])
  {
    hide KeyMeans, RoleMeans, NodeMeans, MembershipMeans;
    var d', log' := ApplyEntry(d, e).0, log + [e];
    forall key, value
      ensures KeyMeans(d', log', key, value)
    {
      KeyStep(d, log, e, key, value);
    }
    forall id, role
      ensures RoleMeans(d', log', id, role)
    {
      RoleStep(d, log, e, id, role);
    }
    forall id, info
      ensures NodeMeans(d', log', id, info)
    {
      NodeStep(d, log, e, id, info);
    }
    forall id, m
      ensures MembershipMeans(d', log', id, m)
    {
      MembershipStep(d, log, e, id, m);
    }
    InitialStep(d, log, e);
  }

  lemma MeansNothing()
    ensures Means(INITIAL, [])
  {
    forall key, value
      ensures KeyMeans(INITIAL, [], key, value)
    {
      LastByNothing(SetsKey(key, value), TouchesKey(key));
    }
    forall id, role
      ensures RoleMeans(INITIAL, [], id, role)
    {
      LastByNothing(GivesRole(id, role), TouchesRole(id));
    }
  }

  // Every log: the state after it is what it means.
  lemma {:induction false} LogMeans(log: seq<Entry>)
    ensures Means(ApplyAll(INITIAL, log).0, log)
    decreases |log|
  {
    hide Means;
    if log == [] {
      MeansNothing();
    } else {
      var init := log[..|log| - 1];
      LogMeans(init);
      MeansStep(ApplyAll(INITIAL, init).0, init, log[|log| - 1]);
      assert log == init + [log[|log| - 1]];
    }
  }

  // Every run: after batches, snapshots, crashes and reopenings in any order, a running
  // node's state is what the entries up to its position mean.
  lemma RunMeans(c: DataCodec, log: seq<Entry>, ns: seq<Node>, ops: seq<Op>)
    requires Invertible(c) && Increasing(log) && IsRun(c, log, ns, ops) && ns[|ops|].up
    ensures PositionAfter(ops) <= |log| && Means(ns[|ops|].data, log[..PositionAfter(ops)])
  {
    hide Means;
    RunStands(c, log, ns, ops);
    LogMeans(log[..PositionAfter(ops)]);
  }

  // ---- Responses.

  lemma {:induction false} ResponseAt(log: seq<Entry>, i: nat)
    requires i < |log|
    ensures ApplyAll(INITIAL, log).1[i] == ApplyEntry(StateAt(log, i), log[i]).1
    decreases |log|
  {
    var n := |log| - 1;
    if i < n {
      ResponseAt(log[..n], i);
      assert log[..n][..i] == log[..i];
    }
  }

  // A deletion answers with the value that the entries before it gave the key, or with
  // nothing; every other entry answers success.
  lemma Responses(log: seq<Entry>, i: nat)
    requires i < |log|
    ensures var r := ApplyAll(INITIAL, log).1[i];
            if log[i].payload.Normal? && log[i].payload.command.DeleteState? then
              var key := log[i].payload.command.key;
              && r.Value?
              && forall value :: r.previous == Some(value) <==> LastBy(log[..i], SetsKey(key, value), TouchesKey(key))
            else r == Success
  {
    hide LastBy, ApplyAll;
    ResponseAt(log, i);
    LogMeans(log[..i]);
    if log[i].payload.Normal? && log[i].payload.command.DeleteState? {
      var key := log[i].payload.command.key;
      forall value
        ensures ApplyAll(INITIAL, log).1[i].previous == Some(value) <==>
                LastBy(log[..i], SetsKey(key, value), TouchesKey(key))
      {
        assert KeyMeans(StateAt(log, i), log[..i], key, value);
      }
    }
  }

  // ---- The file and snapshots.

  // The bytes are the magic, the checksum of the rest, and a payload of the state.
  ghost predicate IsFileOf(c: DataCodec, b: seq<byte>, d: Data) {
    exists payload :: b == STATE_MAGIC + Be32(c.crc(payload)) + payload && c.decode(payload) == Some(d)
  }

  lemma FileFields(c: DataCodec, payload: seq<byte>)
    ensures var b := STATE_MAGIC + Be32(c.crc(payload)) + payload;
            |b| >= 8 && b[..4] == STATE_MAGIC && FromBe32(b[4..8]) == c.crc(payload) && b[8..] == payload
  {
    var b := STATE_MAGIC + Be32(c.crc(payload)) + payload;
    assert b[4..8] == Be32(c.crc(payload));
    WordRoundTrip(c.crc(payload));
  }

  // A file of four bytes or more opens exactly as the state it was written for; anything
  // else in it is reported and not opened.
  lemma OpensIff(c: DataCodec, b: seq<byte>, d: Data)
    requires |b| >= 4
    ensures OpenFile(c, Some(b)) == Opened(d, b) <==> IsFileOf(c, b, d)
    ensures OpenFile(c, Some(b)).Opened? ==> OpenFile(c, Some(b)).file == b
  {
    if OpenFile(c, Some(b)) == Opened(d, b) {
      var payload := b[8..];
      BytesRoundTrip(b[4..8]);
      assert b == b[..4] + b[4..8] + b[8..];
      assert b == STATE_MAGIC + Be32(c.crc(payload)) + payload;
    }
    if IsFileOf(c, b, d) {
      var payload :| b == STATE_MAGIC + Be32(c.crc(payload)) + payload && c.decode(payload) == Some(d);
      FileFields(c, payload);
    }
  }

  // A torn or missing file starts afresh; of the others the first bad field is reported.
  lemma OpenFails(c: DataCodec, file: Option<seq<byte>>)
    ensures OpenFile(c, file).Failed? ==> file.Some? && |file.value| >= 4
    ensures file == None || |file.value| < 4 ==> OpenFile(c, file).Opened? && Means(OpenFile(c, file).data, [])
    ensures file.Some? && |file.value| >= 4 ==>
              var b, o := file.value, OpenFile(c, file);
              && (o == Failed(CorruptedMagic) <==> !(STATE_MAGIC <= b))
              && (o == Failed(ShortHeader) <==> STATE_MAGIC <= b && |b| < 8)
              && (o == Failed(ChecksumMismatch) <==> STATE_MAGIC <= b && |b| >= 8 && b[4..8] != Be32(c.crc(b[8..])))
              && (o == Failed(Undecodable) <==>
                  STATE_MAGIC <= b && |b| >= 8 && b[4..8] == Be32(c.crc(b[8..])) && c.decode(b[8..]) == None)
  {
    hide Means;
    MeansNothing();
    if file.Some? && |file.value| >= 8 {
      BytesRoundTrip(file.value[4..8]);
      WordRoundTrip(c.crc(file.value[8..]));
    }
  }

  // An installed snapshot stands where its metadata says, whatever position its payload
  // carries, and has everything else from the payload.
  lemma InstalledPosition(c: DataCodec, log: seq<Entry>, n: nat, d: Data)
    requires Invertible(c) && Increasing(log) && n <= |log|
    ensures var s := Snapshot(SnapshotOf(c, StateAt(log, n)).meta, c.encode(d));
            && Installed(c, s).Some?
            && ReplayPoint(log, Installed(c, s).value.lastApplied) == n
            && Installed(c, s).value.lastMembership == StateAt(log, n).lastMembership
            && Installed(c, s).value.kvs == d.kvs && Installed(c, s).value.nodes == d.nodes
            && Installed(c, s).value.roles == d.roles
  {
    hide ApplyAll;
    ReplayPointIsExact(log, n);
  }
}
