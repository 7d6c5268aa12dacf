# pgvisor in Dafny

pgvisor runs PostgreSQL in a cluster: a Raft log and state machine of its own, sidecars that
elect and fence leaders, a proxy that pools connections by transaction and replays queries
across a failover, an audit log, and backups. This project models the parts of it whose
correctness spans several operations, and proves what they promise over every input, every
interleaving or every run.

| files | part of the system |
|---|---|
| `Bytes`, `RaftTypes`, `RecordLog`, `WalFormat`, `Wal`, `WalRefinement`, `LogStore`, `RangeReads` | write-ahead log and Raft log store |
| `StateMachine`, `StateMeaning` | replicated state machine and snapshots |
| `Quorums`, `Orchestrator`, `LeaseProtocol`, `LeaseEvents`, `LeaseTightness` | quorum lease and role automaton |
| `Election`, `ElectionRounds`, `ElectionSafety`, `SplitBrain` | the sidecars' election monitor |
| `Frames`, `Responses`, `DataRow`, `Pool`, `IdleConnections`, `RoundRobin`, `Session`, `Failover`, `Pinning`, `Strings`, `Statements`, `Routing` | proxy: wire frames, pool, sessions, transactions, read/write splitting |
| `Audit`, `AuditBatches`, `AuditDurability`, `AuditIds`, `Sorting` | audit log |
| `Retention`, `BackupLock`, `SqlGuard` | backups, backup lock, SQL console |

`dafny verify dfyconfig.toml` checks everything.

How it is built:

- Code that updates fields is a class whose methods state their whole new state by a function
  (or relation) of the old one; the theorems are lemmas about those functions.
- What those functions mean is stated a second time without them: by the positions of a log, by the
  events of a run, by the answers of peers or by the bytes of a script.
- A system of several actors, and the life of a process through crashes, is a set of events with
  a guard and an effect; theorems quantify over all finite runs of events.
- Serializers, checksums, text encodings, case mapping and serialized sizes are foreign code. They
  are function-valued parameters. All that is ever assumed of them is that decoding undoes
  encoding, that upper-casing leaves the empty string empty, that a semicolon is not white space
  (`SqlGuard.VerdictIs`, `SqlGuard.EmptyIff`), and, for examples of texts, that blanks are white space
  and capital letters are not; nothing is assumed of the checksum.
- Clocks, tokens, peers' answers, backends' bytes and the outcome of acquires are parameters.
- The file system is assumed to make a rename atomic and to keep what was synced. An append may be
  cut at any byte.

Assumptions of the distributed theorems:

- Lease: a leader renews on acknowledgements of a majority that are at most a delay old, checks its
  lease at least once per period, and a voter waits the election timeout since it last acknowledged
  or voted, moves to a later term when it votes, and does not acknowledge an earlier term again.
  All of these durations are parameters, and the theorem says exactly which values are safe.
- Raft's contract with its log store: entries are appended without a gap and above the purge point,
  truncation is above the purge point, the purge point does not move back.
- Election: which nodes can reach each other, and which processes are alive, is fixed during a run
  of the safety theorem; everything else may interleave, down to single status requests.

Where the documentation and the code disagree, the model follows the code:

- ARCHITECTURE.md:81 concludes from 1200 ms < 1500 ms that split brain is impossible. That
  is not enough: the time between lease checks and the age of acknowledgements count too
  (`LeaseTightness.SafeIff`).
- The comment at crates/pgvisor-core/src/storage/wal.rs:250 says that purging is strictly before the
  index; the code is inclusive.
- ARCHITECTURE.md:71-72 reads as if the magic stood once per file; the code writes it in every record.
- crates/pgvisor-core/src/protocol/tracker.rs:101 wants everything inside a transaction to stay on its
  connection. When that connection is lost before it has answered, the query is replayed on another
  one, outside the transaction (`Pinning.LostSilently`).
- ARCHITECTURE.md:110 sends writes strictly to the leader. A read that also opens a transaction
  on a standby pins the session there, and the writes behind it follow (`Routing.StrayRun`).

Other things that hold only under a condition, each with the exact condition proved: an unbounded
range read (`LogStore.RunReadsAll`), a last log id at the purge point (`LogStore.ReportedAtPurgeIff`),
one final ready message per query (`Session.OneReadyLastIff`), connections of one's own login
(`Pool.AlwaysMatchesIff`), comments outside of string literals (`SqlGuard.LiteralsIff`), audit ids that never come again (`AuditIds.NeverReusedIff`), one
connection per transaction (`Pinning.OneConnectionIff`), a tracker in step with the held connection
(`Pinning.StrandedIff`), column counts (`DataRow.RowRoundTripIff`), mutating words in accepted SQL
(`SqlGuard.PassesIff`), intersecting election quorums
(`Election.QuorumsIntersectIff`), a lasting leader after split brain (`SplitBrain.LastingIff`), fair
round robin across the wrap of the counter (`RoundRobin.AlwaysBalancedIff`), new audit ids after a reload
(`AuditDurability.NextIdIsNewIff`), a complete WAL for every kept snapshot (`Retention.WalKeptIff`).

## Model

| member | source | states |
|---|---|---|
| LogStore.RunReads | crates/pgvisor-core/src/storage/engine.rs:104-135 | After every run of appends, truncations, purges, votes, crashes at any byte of an append, and reopenings, a range read above the purge point returns exactly the entries a plain in-memory log is due, although reopening brings purged records back into the index |
| RangeReads.RunReadsRange | crates/pgvisor-core/src/storage/engine.rs:104-135 | After every run, a range with any included, excluded or missing bounds that starts above the purge point returns exactly the plain log's entries whose index satisfies the bounds, in order, or nothing if the range starts below the first entry |
| RangeReads.RangeIsExact | crates/pgvisor-core/src/storage/engine.rs:104-135 | The same from what single reads and the last log id show |
| RangeReads.SelectedIff | crates/pgvisor-core/src/storage/engine.rs:104-135 | An entry is among those selected if and only if it is in the log and its index satisfies both inequalities |
| LogStore.WalRecordsIsFormat | crates/pgvisor-core/src/storage/wal.rs:24-30 | The log's own record layout is one of the formats for which the run theorems hold |
| LogStore.RunRefines | crates/pgvisor-core/src/storage/wal.rs:40-257 | Along every such run the byte file, its index and the metadata file implement a plain log of entries, vote and purge point |
| LogStore.StepRefines | crates/pgvisor-core/src/storage/engine.rs:165-225 | Each single operation, crash or reopening keeps that refinement |
| LogStore.MetadataSurvives | crates/pgvisor-core/src/storage/engine.rs:63-73 | Every acknowledged vote and purge point is on disk at all times and in memory while the store runs, and a store that is down can always be opened |
| LogStore.ReadsAreExact | crates/pgvisor-core/src/storage/wal.rs:214-228 | A range read starting above the purge point equals the window of the plain log, or nothing if the range starts below its first entry |
| LogStore.RunReadsAll | crates/pgvisor-core/src/storage/engine.rs:110-127 | After every run, reading the unbounded range returns the whole log if and only if the log is empty or starts right behind the purge point (at index 0 if nothing was purged) |
| LogStore.UnboundedReadIsExact | crates/pgvisor-core/src/storage/engine.rs:110-127 | The same from what single reads and the last log id show |
| LogStore.LateStart | crates/pgvisor-core/src/storage/engine.rs:110-127 | A run whose log starts at a later index, where the unbounded read returns nothing |
| LogStore.RunReports | crates/pgvisor-core/src/storage/engine.rs:151-157 | Along every run the reported last log id is the last entry's; on an empty log it is that of the last purged record, or absent if a truncation emptied log and index and neither an append nor a reopening came since |
| LogStore.ReportedAtPurgeIff | crates/pgvisor-core/src/storage/engine.rs:151-157 | It is at or above the purge point if and only if the log has entries, or the last purged record has the purge point's index and was not forgotten so |
| LogStore.ReportedBelowPurge | crates/pgvisor-core/src/storage/engine.rs:217-225 | A run whose empty log reports an id below the purge point |
| LogStore.LastLogId | crates/pgvisor-core/src/storage/engine.rs:151-157 | From the refinement alone: on an empty log the reported id is absent or belongs to a record at or below the purge point |
| LogStore.StepReopen | crates/pgvisor-core/src/storage/engine.rs:38-61 | Reopening after any crash succeeds, keeps the plain log, and shows every purged record in the index again |
| LogStore.LogStorage.Open | crates/pgvisor-core/src/storage/engine.rs:38-61 | Opens exactly when the log file opens and the metadata file, if any, is text; a missing or unparsable one counts as empty |
| LogStore.LogStorage.SaveVote | crates/pgvisor-core/src/storage/engine.rs:165-172 | The vote changes in memory and on disk together, nothing else changes |
| LogStore.LogStorage.Append | crates/pgvisor-core/src/storage/engine.rs:179-207 | Whole new state of an append |
| LogStore.LogStorage.Truncate | crates/pgvisor-core/src/storage/engine.rs:209-215 | Whole new state of a truncation |
| LogStore.LogStorage.Purge | crates/pgvisor-core/src/storage/engine.rs:217-225 | Whole new state of a purge: index, memory and metadata file |
| LogStore.LogStorage.TryGetLogEntries | crates/pgvisor-core/src/storage/engine.rs:104-135 | Returns the read by its bounds, which RangeReads.RunReadsRange ties to the entries of the plain log |
| RecordLog.TornWriteRecovery | crates/pgvisor-core/src/storage/wal.rs:60-137 | For any old log, any batch and any number of its bytes on disk, recovery finds exactly the old entries and the fully written new ones, where they were written, and the file cut behind them is precisely their bytes |
| RecordLog.WholeRecordsIsLargest | crates/pgvisor-core/src/storage/wal.rs:156-193 | The number of survivors of a torn append is the largest number of entries whose bytes all lie before the cut |
| RecordLog.ScanIsMaximal | crates/pgvisor-core/src/storage/wal.rs:60-137 | On arbitrary bytes, every way of tiling a beginning of the file with valid records is a beginning of what the scan finds |
| RecordLog.ScanTiles | crates/pgvisor-core/src/storage/wal.rs:60-137 | What the scan finds on arbitrary bytes lies end to end from offset 0, inside the file |
| RecordLog.ScanFailsIff | crates/pgvisor-core/src/storage/wal.rs:122 | Opening fails if and only if whole records are followed by a frame whose checksum is right and whose payload does not decode |
| RecordLog.ReopenChangesNothing | crates/pgvisor-core/src/storage/wal.rs:60-137 | Scanning the cut file finds the same records again |
| RecordLog.ScanWhole | crates/pgvisor-core/src/storage/wal.rs:60-137 | An undamaged log scans to its entries at their offsets |
| WalFormat.WalRecordsLawful | crates/pgvisor-core/src/storage/wal.rs:24-30 | The record layout reads back, detects every cut, and is self-delimiting in both directions, given only that the serializer inverts |
| WalFormat.RecordIffFrame | crates/pgvisor-core/src/storage/wal.rs:60-124 | Bytes are taken for a record of an entry if and only if they are magic, exact length, right checksum and a payload that decodes to that entry |
| WalFormat.ParsedIsFrame | crates/pgvisor-core/src/storage/wal.rs:77-122 | The scan goes on or gives up only at such a frame; everywhere else it cuts the file |
| WalFormat.ParseTornFrame | crates/pgvisor-core/src/storage/wal.rs:60-105 | A frame cut at any byte is never taken for a record |
| Wal.Recover | crates/pgvisor-core/src/storage/wal.rs:53-137 | The scanning loop computes the recovered file, index and last log id of the declarative scan, or fails when it does |
| Wal.ReadRecord | crates/pgvisor-core/src/storage/wal.rs:61-122 | One step of the scan: header, magic, length, payload, checksum and decoding |
| Wal.Log.Open | crates/pgvisor-core/src/storage/wal.rs:40-153 | Opens a log in exactly the recovered state |
| Wal.Log.WriteRecord | crates/pgvisor-core/src/storage/wal.rs:164-175 | Writing field by field appends one frame |
| Wal.Log.Append | crates/pgvisor-core/src/storage/wal.rs:156-193 | File, index and last log id after appending any batch |
| Wal.Log.ReadEntry | crates/pgvisor-core/src/storage/wal.rs:196-211 | Reads through the index; tells a missing entry from a broken one |
| Wal.Log.ReadRange | crates/pgvisor-core/src/storage/wal.rs:214-228 | Reads up to the first missing index; fails if a read fails |
| Wal.Log.TruncateSince | crates/pgvisor-core/src/storage/wal.rs:231-248 | Cuts the file at the first indexed record from the given index on, drops the index from there, and takes the last id from what is left in the index |
| Wal.Log.PurgeUpto | crates/pgvisor-core/src/storage/wal.rs:251-257 | Drops index entries up to and including the given index, and nothing from the file |
| Wal.AppendTwice | crates/pgvisor-core/src/storage/wal.rs:156-193 | Appending two batches is appending their concatenation |
| WalRefinement.AppendHolds | crates/pgvisor-core/src/storage/wal.rs:156-193 | Appending entries with larger indices appends them to the records the log holds |
| WalRefinement.TruncateHolds | crates/pgvisor-core/src/storage/wal.rs:231-248 | Truncation keeps exactly the records below the index; the last id is absent precisely if the index went empty |
| WalRefinement.PurgeHolds | crates/pgvisor-core/src/storage/wal.rs:251-257 | Purging hides exactly the records up to the index and keeps all of them in the file |
| WalRefinement.OpenHolds | crates/pgvisor-core/src/storage/wal.rs:40-153 | Opening shows all records again |
| WalRefinement.TornRecoverable | crates/pgvisor-core/src/storage/wal.rs:156-193 | A log whose append was cut anywhere can be reopened to its old records and the whole new ones |
| WalRefinement.ReadHolds | crates/pgvisor-core/src/storage/wal.rs:196-211 | Every record the index shows is read back |
| WalRefinement.ReadMissing | crates/pgvisor-core/src/storage/wal.rs:197-200 | Every other index reads as missing |
| StateMachine.RunStands | crates/pgvisor-core/src/storage/engine.rs:275-351 | After every run of batches, snapshots installed from other nodes, crashes (also between the two writes of an install) and reopenings, the node's state and file are those of a machine that never crashed, and every further operation succeeds |
| StateMeaning.RunMeans | crates/pgvisor-core/src/storage/engine.rs:275-351 | After every such run a running node's state is what the entries up to its position mean |
| StateMeaning.LogMeans | crates/pgvisor-core/src/storage/state_machine.rs:131-151 | For every log: a key has a value if and only if some entry sets it to that and no later one sets or deletes it; likewise roles, registered nodes and the membership, by log positions; the last applied id is the last entry's |
| StateMeaning.Responses | crates/pgvisor-core/src/storage/state_machine.rs:131-151 | A deletion answers with the value that the entries before it gave the key, or with none; every other entry answers success |
| StateMeaning.OpensIff | crates/pgvisor-core/src/storage/state_machine.rs:47-108 | A file of four bytes or more opens as a state if and only if it is the magic, the checksum of the rest and a payload that decodes to that state |
| StateMeaning.OpenFails | crates/pgvisor-core/src/storage/state_machine.rs:47-108 | For each error, exactly which files are refused with it; a missing or shorter file starts afresh |
| StateMeaning.InstalledPosition | crates/pgvisor-core/src/storage/engine.rs:327-351 | An installed snapshot stands at the log position of its metadata whatever position its payload carries |
| StateMachine.ReplayEndsRight | crates/pgvisor-core/src/storage/state_machine.rs:47-168 | Replaying from the recovered point ends in the state of the whole log, with the responses of a crash-free machine |
| StateMachine.StepStands | crates/pgvisor-core/src/storage/engine.rs:275-351 | Each operation keeps the node where the crash-free machine stands |
| StateMachine.BatchesDoNotShow | crates/pgvisor-core/src/storage/engine.rs:275-309 | Where a batch ends shows neither in the state nor in the responses |
| StateMachine.ReplayPointIsExact | crates/pgvisor-core/src/storage/engine.rs:268-273 | The entries above the last applied id are exactly those not yet in the state |
| StateMachine.ApplyGoesOn | crates/pgvisor-core/src/storage/engine.rs:275-309 | Applying the next entries to the state after n entries gives the crash-free state and responses |
| StateMachine.SnapshotTransfers | crates/pgvisor-core/src/storage/engine.rs:250-263 | An installed snapshot is the whole state of the node that took it |
| StateMachine.PersistThenOpen | crates/pgvisor-core/src/storage/state_machine.rs:47-128 | Opening the persisted file gives the persisted state |
| StateMachine.Machine.Open | crates/pgvisor-core/src/storage/state_machine.rs:47-108 | Every case of opening: fresh start, bad magic, short header, bad checksum, undecodable payload, success |
| StateMachine.Machine.PersistToDisk | crates/pgvisor-core/src/storage/state_machine.rs:111-128 | The file afterwards encodes the state |
| StateMachine.Machine.Execute | crates/pgvisor-core/src/storage/state_machine.rs:131-151 | Effect and response of each command |
| StateMachine.Machine.Apply | crates/pgvisor-core/src/storage/engine.rs:275-309 | State and one response per entry of a batch, and the state is on disk |
| StateMachine.Machine.GetCurrentSnapshot | crates/pgvisor-core/src/storage/engine.rs:353-380 | A snapshot of the current state, none before anything was applied |
| StateMachine.Machine.InstallSnapshot | crates/pgvisor-core/src/storage/engine.rs:327-351 | Takes the snapshot's state with the metadata's position; an undecodable one changes nothing |
| LeaseTightness.SafeIff | ARCHITECTURE.md:78-81 | In a timed cluster of at least two nodes no run has two leaders if and only if lease duration, check period and acknowledgement age together are below the election timeout |
| LeaseTightness.DocumentedConstants | ARCHITECTURE.md:79-81 | With 1200 ms and 1500 ms that is the case exactly if check period and acknowledgement age together stay below 300 ms |
| LeaseTightness.TwoLeaders | ARCHITECTURE.md:81 | Otherwise a run with two leaders is constructed |
| LeaseProtocol.LeaseSafety | crates/pgvisor-core/src/raft/orchestrator.rs:21-120 | If the bound holds, at every point of every run at most one node leads |
| LeaseEvents.CheckFencesIff | crates/pgvisor-core/src/raft/orchestrator.rs:103-120 | In every run a lease check fences its node if and only if the node leads and its last won election or acknowledged majority is more than the lease duration ago, read off the events; otherwise it changes nothing |
| LeaseEvents.LeadsIff | crates/pgvisor-core/src/raft/orchestrator.rs:72-130 | In every run a node leads if and only if it won an election and since then no other leader was announced to it, it did not recover, and no check found its support that old |
| LeaseEvents.FencedIff | crates/pgvisor-core/src/raft/orchestrator.rs:72-130 | It is fenced if and only if it led when another leader was announced or a check found its support that old, and nothing has freed it since |
| LeaseEvents.ExpiredIff | crates/pgvisor-core/src/raft/orchestrator.rs:21-29 | A leader's lease has run out if and only if its last fresh support is more than the lease duration ago |
| LeaseProtocol.RunKeepsInv | crates/pgvisor-core/src/raft/orchestrator.rs:72-130 | In every run each leader's lease rests on a majority's recent support in a term it won, and was checked in time |
| LeaseProtocol.EventKeepsInv | crates/pgvisor-core/src/raft/orchestrator.rs:72-130 | Votes, acknowledgements, wins, renewals, checks, losses, recoveries and the passing of time keep that invariant |
| LeaseProtocol.LaterLeaseWaits | ARCHITECTURE.md:79-81 | Two leaders of different terms are possible only if the three durations reach the election timeout |
| LeaseProtocol.OneLeaderPerTerm | ARCHITECTURE.md:79 | Two nodes never win the same term |
| Orchestrator.RemainingTimeIsExact | crates/pgvisor-core/src/raft/orchestrator.rs:27-39 | A valid lease stays valid for exactly its remaining time, which is never negative, and 0 for a lease that is over |
| Orchestrator.FailoverOrchestrator.OnLeaderElected | crates/pgvisor-core/src/raft/orchestrator.rs:72-100 | New role, lease and action for every old role; promotion and fencing are reported exactly when they happen |
| Orchestrator.FailoverOrchestrator.CheckQuorumLease | crates/pgvisor-core/src/raft/orchestrator.rs:103-113 | Afterwards a leader has a valid lease |
| Orchestrator.FailoverOrchestrator.OnQuorumAcknowledged | crates/pgvisor-core/src/raft/orchestrator.rs:116-120 | Only a leader's lease is renewed |
| ElectionSafety.ElectionIsSafe | crates/pgvisor-sidecar/src/election.rs:165-247 | Over every interleaving of polling, acting and guarding with a fixed partition, for every component that does not start with two running leaders: a promoted node is its lowest alive node, the component reaches quorum and had no leader; running leaders never share it; if quorums intersect at most one node of all such components is promoted at any points of the run |
| ElectionSafety.RunKeepsInv | crates/pgvisor-sidecar/src/election.rs:127-247 | In such components every half-finished polling round has seen exactly the alive peers it asked and every leader among them that was there from the start |
| ElectionSafety.RoundIsComplete | crates/pgvisor-sidecar/src/election.rs:165-184 | A finished round has seen all of its component |
| ElectionSafety.LeadersAreApart | crates/pgvisor-sidecar/src/election.rs:127-163 | A component that does not start with two running leaders never has two |
| ElectionSafety.OneEligible | crates/pgvisor-sidecar/src/election.rs:199-203 | With intersecting quorums only one node of the whole cluster is eligible |
| ElectionSafety.EvenClusterSplits | crates/pgvisor-sidecar/src/election.rs:199 | Two nodes that list only each other and cannot reach each other are both promoted |
| Election.QuorumsIntersectIff | crates/pgvisor-sidecar/src/election.rs:199 | Any two quorums share a node if and only if every node lists itself or the cluster is odd |
| Election.HalvesAreQuorums | crates/pgvisor-sidecar/src/election.rs:199 | Otherwise both halves of the cluster are quorums |
| Election.Monitor.StandbyRound | crates/pgvisor-sidecar/src/election.rs:165-247 | Role and miss counter after a standby's round: promotion exactly after five misses, with a quorum alive, by the lowest id |
| ElectionRounds.PromotedIff | crates/pgvisor-sidecar/src/election.rs:165-247 | Over any sequence of rounds, a standby is promoted in one if and only if it and the four before it were polled and saw no alive leader, it sees alive at least half of the listed peers, rounded down, plus one, the node is the lowest of those, and the promotion succeeds |
| ElectionRounds.CounterMeans | crates/pgvisor-sidecar/src/election.rs:186-190 | A standby's counter is the number of rounds since an alive leader was last seen or the node paused |
| ElectionRounds.TallyMeans | crates/pgvisor-sidecar/src/election.rs:166-184 | A round counts as alive the node itself and every id answered as running or restoring, and finds a leader if and only if some such answer is a leader's, in whatever order the peers answer |
| ElectionRounds.LeaderKeepsStandby | crates/pgvisor-sidecar/src/election.rs:186-188 | A standby to which an alive leader answers stays one and forgets its misses |
| ElectionRounds.RoundInOneGo | crates/pgvisor-sidecar/src/election.rs:165-247 | The steps of a round taken in one go, beginning, one request per peer and acting, leave the role and counter that the round computes |
| Election.Monitor.FencedRound | crates/pgvisor-sidecar/src/election.rs:52-125 | A fenced node rejoins the first other peer that answers as running leader; it is a standby without misses if and only if there is one and the resynchronization works |
| Election.Monitor.PausedRound | crates/pgvisor-sidecar/src/election.rs:38-50 | A node that restores or is stopped forgets its misses |
| ElectionRounds.RejoinInOneGo | crates/pgvisor-sidecar/src/election.rs:52-125 | The two steps of a rejoin leave what that round computes |
| ElectionRounds.SeesIff | crates/pgvisor-sidecar/src/election.rs:127-137 | A node sees another leader if and only if some peer answers as running leader |
| Election.Monitor.LeaderRound | crates/pgvisor-sidecar/src/election.rs:127-163 | A leader fences itself exactly if some other peer answers as running leader |
| Quorums.Lowest | crates/pgvisor-sidecar/src/election.rs:183-201 | The least id of a set |
| Election.GuardIsSeeThenFence | crates/pgvisor-sidecar/src/election.rs:127-163 | A guard round in one step is seeing and fencing with nothing in between |
| SplitBrain.SplitBrainHeals | crates/pgvisor-sidecar/src/election.rs:52-163 | With full reachability and one-step guards, over every run the set of running leaders gains no member and never becomes empty |
| SplitBrain.EventHeals | crates/pgvisor-sidecar/src/election.rs:127-188 | Each event leaves the set of leaders alone or removes exactly one, by its own fencing |
| SplitBrain.GuardLowersByOne | crates/pgvisor-sidecar/src/election.rs:127-163 | A guard round that sees another leader lowers the number of leaders by one and leaves one; the sole leader sees nobody |
| SplitBrain.ActHeals | crates/pgvisor-sidecar/src/election.rs:186-188 | While somebody leads every finished standby round has found a leader |
| SplitBrain.LastingIff | crates/pgvisor-sidecar/src/election.rs:137-147 | If seeing and fencing are separate steps, some leader is left on every continuation if and only if there is exactly one and it has seen no other: two leaders can fence each other |
| SplitBrain.AllCanGo | crates/pgvisor-sidecar/src/election.rs:137-147 | Otherwise a continuation that fences every leader is constructed |
| Frames.ChunkingDoesNotShow | crates/pgvisor-proxy/src/session.rs:546-556 | Any chunking of a byte stream yields the frames of the whole stream, and frames and remainder concatenate to the stream |
| Frames.SplitInTwo | crates/pgvisor-proxy/src/session.rs:546-556 | Splitting what has arrived and then the remainder with what comes next is splitting all of it |
| Frames.SplitLosesNothing | crates/pgvisor-proxy/src/session.rs:546-556 | Frames and remainder are the bytes that came in |
| Frames.ExtractBackendFrame | crates/pgvisor-proxy/src/session.rs:546-556 | A frame comes off the buffer exactly when it is complete, and otherwise the buffer is left alone |
| Frames.DrainFrames | crates/pgvisor-proxy/src/session.rs:507-526 | Extraction repeated until nothing is complete, or a length field of -1 comes, computes the frames of the buffer |
| Frames.RawRoundTrip | crates/pgvisor-core/src/protocol/message.rs:501-505 | An encoded raw message is one frame and decodes to itself whatever follows it |
| Frames.EmptyFrameIff | crates/pgvisor-proxy/src/session.rs:551-555 | A length field of -1, and only that, makes an empty frame, which leaves the buffer as it was |
| Frames.SizeIs | crates/pgvisor-proxy/src/session.rs:546-556 | A frame is its tag and the bytes its length counts; a length field below -1 is not complete in any buffer of fewer than 2^63 bytes |
| Responses.OneMoreChunk | crates/pgvisor-proxy/src/session.rs:448-526 | What a chunk adds to the answer depends only on what is buffered; once the answer has ended the chunks behind it do not matter |
| Responses.EmptyFirstIff | crates/pgvisor-proxy/src/session.rs:507-526 | The bytes come to a length field of -1 before any ready frame if and only if no frame in front of it is a ready frame |
| Responses.NothingIff | crates/pgvisor-proxy/src/session.rs:459-461 | Nothing comes of the bytes received if and only if they make no whole frame |
| Session.FailoverRelay | crates/pgvisor-proxy/src/session.rs:402-541 | For every script of backends and every byte they send: each backend the query was written to but the last sends no whole frame; the query finishes exactly if the last one's answer ends with a ready tag, and hangs exactly if it comes to a length field of -1 with another tag; what the client gets is that one's whole frames in order up to there |
| Session.DeliveriesComeLast | crates/pgvisor-proxy/src/session.rs:459-486 | Once the client has been sent anything the query is not written to a backend again |
| Session.OneReadyLastIff | crates/pgvisor-proxy/src/session.rs:402-541 | For every script the client gets exactly one ready message, and it comes last, if and only if the session does not end and no backend reached comes to a length field of -1 before its first ready frame |
| Failover.OutcomeIs | crates/pgvisor-proxy/src/session.rs:373-541 | For every script, the held connection and then each acquire: the first target that neither is passed over by refusing as the first one nor goes away without a whole frame decides the outcome, and the query was written to exactly the targets up to it that take it |
| Failover.SessionEndsIff | crates/pgvisor-proxy/src/session.rs:417-486 | The session ends if and only if a target other than the first refuses the query behind targets that refused or went away |
| Failover.FailureOnlyIff | crates/pgvisor-proxy/src/session.rs:427-485 | The client is sent an error and a ready message and nothing else if and only if the deciding target is a timeout or there is none |
| Failover.OneReadyOnScript | crates/pgvisor-proxy/src/session.rs:402-541 | Exactly one ready message, and last, in terms of the script alone |
| Session.EmptyAnswers | crates/pgvisor-proxy/src/session.rs:507-526 | The bytes of a ready tag and a length of -1 finish the query as idle with nothing sent to the client; with any other tag the query never ends |
| Session.ClientSession.HandleQuery | crates/pgvisor-proxy/src/session.rs:373-541 | What a query does, whatever bytes come: the backends it is written to and the messages the client is sent, in order, the new tracker, the connection held and the connection released |
| Session.ClientSession.RelayOrReplay | crates/pgvisor-proxy/src/session.rs:444-531 | The relay and replay loop, with everything that it writes to backends and to the client |
| Session.ClientSession.Resubmit | crates/pgvisor-proxy/src/session.rs:461-486 | What a failover acquire followed by a write can lead to |
| Session.ClientSession.RelayResponse | crates/pgvisor-proxy/src/session.rs:444-531 | Relaying one backend sends the client its frames up to the end of its answer, whatever its chunks |
| Session.ClientSession.ForwardFrames | crates/pgvisor-proxy/src/session.rs:507-526 | Forwarding the complete frames of one buffer up to a ready frame or a length field of -1 |
| Pinning.Pinned | crates/pgvisor-proxy/src/session.rs:507-538 | In every run a held connection means an open transaction; without losses the converse holds |
| Pinning.FinishedIff | crates/pgvisor-proxy/src/session.rs:402-541 | A query finishes if and only if the answer of some backend it reaches ends with a ready tag; that is the last one, and the query ends on its connection with its status |
| Pinning.StrandedIff | crates/pgvisor-proxy/src/session.rs:459-504 | After a query the tracker has a transaction but no connection is held if and only if a transaction was open and no backend reached answers with a ready tag |
| Pinning.StaysIff | crates/pgvisor-proxy/src/session.rs:402-541 | A query with a held connection finishes on it if and only if that backend takes it and answers with a ready tag |
| Pinning.ElsewhereIff | crates/pgvisor-proxy/src/session.rs:457-472 | It finishes on another connection if and only if the held backend refuses it or goes away without a whole frame, and some backend reached answers with a ready tag |
| Pinning.LostSilently | crates/pgvisor-proxy/src/session.rs:457-472 | A run in which the connection of an open transaction is lost and the next query finishes on another one, outside the transaction |
| Pinning.Stranded | crates/pgvisor-proxy/src/session.rs:473-487 | A run that ends with a tracker in a transaction, a client told that it is idle, and no connection |
| Pinning.HealthyFinishes | crates/pgvisor-proxy/src/session.rs:533-538 | Without losses a query finishes on the held connection, which returns to the pool exactly when the transaction is over |
| Pinning.OneConnectionIff | crates/pgvisor-proxy/src/session.rs:402-405 | All queries of a transaction run on the connection that it was opened on if and only if for each of them the held backend takes it and answers with a ready tag |
| Routing.LeaderRoutingIff | ARCHITECTURE.md:108-110 | In every run, every query that needs the leader reaches leader connections only, if and only if no query goes out on a held standby connection |
| Routing.NeverHeldIff | crates/pgvisor-core/src/protocol/tracker.rs:100-112 | A standby connection is held at some point of a run if and only if the last backend that some query routed to standbys reached was a standby and answered that a transaction is open |
| Routing.HoldsStandbyIff | crates/pgvisor-proxy/src/session.rs:507-538 | After a query a standby connection is held if and only if the last backend reached is a standby and answers with a status other than idle |
| Routing.NoStraysNoStandby | ARCHITECTURE.md:110 | Without such a query everything that needs the leader gets a leader connection |
| Routing.LeaderQueryIff | crates/pgvisor-proxy/src/session.rs:271-405 | One query that needs the leader reaches leader connections only if and only if it is not sent on a held standby connection |
| Routing.StrayRun | crates/pgvisor-core/src/protocol/tracker.rs:65-112 | A run in which the text "SELECT 1; BEGIN" goes to a standby and takes the INSERT behind it there |
| Statements.SelectIsRead | crates/pgvisor-core/src/protocol/tracker.rs:65-97 | A text that begins with SELECT and has no underscore counts as a read whatever statements stand behind it |
| Statements.NeedsLeaderIff | crates/pgvisor-core/src/protocol/tracker.rs:65-112 | A text needs the leader if and only if a transaction is open, its first word without semicolons is none of SELECT, SHOW and EXPLAIN in any case, or it is SELECT and the text names one of the leader's functions |
| Statements.PartsOf | crates/pgvisor-core/src/protocol/tracker.rs:65-71 | Every text has the parts that this speaks of |
| Pool.RunKeepsInv | crates/pgvisor-proxy/src/pool.rs:182-386 | Over every interleaving of topology changes, drains, acquires, dials, releases and losses: idle connections fit the current topology, no queue exceeds the cap, no connection is idle twice or idle while in use |
| Pool.EventKeepsInv | crates/pgvisor-proxy/src/pool.rs:217-386 | Each event keeps that invariant |
| Pool.AcquireMoves | crates/pgvisor-proxy/src/pool.rs:259-296 | An acquire moves its connection from one idle slot to one session |
| Pool.GiveBackMoves | crates/pgvisor-proxy/src/pool.rs:366-386 | A release moves its connection to one idle slot or drops it |
| Pool.ReuseGoesWhereDialWould | crates/pgvisor-proxy/src/pool.rs:259-296 | A reused connection points at the address that a dial would have gone to |
| IdleConnections.TakesIff | crates/pgvisor-proxy/src/pool.rs:259-292 | An acquire is handed the longest waiting connection of its target whenever one waits, dials the target when none does, and is turned away if and only if nobody is registered |
| IdleConnections.GivenBackWaitsIff | crates/pgvisor-proxy/src/pool.rs:366-386 | A connection given back waits in the pool if and only if it fits the topology and its queue has room, and all others wait as before |
| IdleConnections.TopologyKeepsIff | crates/pgvisor-proxy/src/pool.rs:217-236 | A topology change keeps exactly the idle connections that fit the new topology |
| IdleConnections.DrainedDials | crates/pgvisor-proxy/src/pool.rs:239-245 | In every run, from a drain to the next connection given back no acquire reuses a connection |
| IdleConnections.Announced | crates/pgvisor-proxy/src/pool.rs:234-243 | Topology changes and drains change the version that waiting sessions watch |
| Pool.AcquireForLeader | crates/pgvisor-proxy/src/pool.rs:253-307 | Along every run an acquire for the leader yields a leader connection that no session uses, and no acquire yields one in use |
| Pool.AlwaysMatchesIff | crates/pgvisor-proxy/src/pool.rs:253-307 | In every run of sessions with given logins each session gets a connection opened for its own user and database, if and only if no idle connection is kept or there is one login |
| Pool.OthersConnection | crates/pgvisor-proxy/src/pool.rs:253-307 | A run for any two logins in which the second session reuses the first one's connection |
| RoundRobin.RoundRobinBalance | crates/pgvisor-proxy/src/pool.rs:270-281 | Of any m standby acquires in a row each of n different addresses is reused or dialled m/n times, rounded down or up, if the counter does not wrap round or n divides 2^64 |
| RoundRobin.PickedIs | crates/pgvisor-proxy/src/pool.rs:270-281 | Each standby acquire in a row leads to the address at the next list position, whether it reuses or dials |
| RoundRobin.FreshStart | crates/pgvisor-proxy/src/pool.rs:232-233 | After a topology change they go through the list from its beginning |
| RoundRobin.AlwaysBalancedIff | crates/pgvisor-proxy/src/pool.rs:272-273 | That holds for every counter value and every m if and only if n divides 2^64 |
| RoundRobin.UnfairWrap | crates/pgvisor-proxy/src/pool.rs:272-273 | For any other n, a counter from which the first standby is asked twice within a round |
| Pool.ConnectionPool.UpdateTopology | crates/pgvisor-proxy/src/pool.rs:217-236 | A changed leader drops the idle leader connections, departed standbys lose their queues, the counter restarts, the version goes up |
| Pool.ConnectionPool.DrainAll | crates/pgvisor-proxy/src/pool.rs:239-245 | All idle connections go, the version goes up |
| Pool.ConnectionPool.PickFor | crates/pgvisor-proxy/src/pool.rs:259-292 | What an acquire finds under the lock for each role, and the new pool |
| Pool.ConnectionPool.Release | crates/pgvisor-proxy/src/pool.rs:366-386 | Which queue a released connection enters, or that it is dropped |
| DataRow.RowRoundTripIff | crates/pgvisor-core/src/protocol/message.rs:486-533 | Decoding an encoded row with the 16-bit column count of its header returns its optional strings if and only if it has fewer than 2^15 columns |
| DataRow.TruncatedRow | crates/pgvisor-core/src/protocol/message.rs:511-533 | A block cut anywhere decodes to exactly the columns that lie in it whole |
| DataRow.NegativeLength | crates/pgvisor-core/src/protocol/message.rs:511-533 | A length field below -1 counts as a column and gives none |
| DataRow.EncodeDataRow | crates/pgvisor-core/src/protocol/message.rs:486-500 | The encoding loop writes the columns one after the other |
| DataRow.DecodeDataRowValues | crates/pgvisor-core/src/protocol/message.rs:511-533 | The decoding loop over a shrinking slice reads the columns of the block, and fails on a negative count |
| AuditIds.NeverReusedIff | crates/pgvisor-core/src/audit.rs:132-289 | A run never hands out an id twice if and only if every restart that is followed by a hand-out finds that nothing was handed out before, or that an event with the largest id handed out is stored |
| AuditIds.RestartReusesIff | crates/pgvisor-core/src/audit.rs:262-275 | The next id after a restart is one that was handed out before if and only if something was handed out and no event with the largest such id is stored |
| AuditIds.RestartAboveIff | crates/pgvisor-core/src/audit.rs:262-275 | The next id after a restart is above all that were handed out if and only if nothing was, or an event with the largest is stored |
| AuditIds.IdsIncrease | crates/pgvisor-core/src/audit.rs:140 | Between restarts ids strictly increase |
| AuditIds.NoGap | crates/pgvisor-core/src/audit.rs:132-289 | Every id below the next one has been handed out |
| AuditIds.IdComesAgain | crates/pgvisor-core/src/audit.rs:140 | A run with a crash between hand-out and write, in which two events get id 1 |
| AuditDurability.DurableIff | crates/pgvisor-core/src/audit.rs:132-195 | In every run of appends, persist tasks in any order, writes that fail or only report a failure, rotations, crashes and restarts an event is stored if and only if its persist task has run and a write came through then or later before the next crash; no id is stored twice, and the next id is not among the stored ids |
| AuditDurability.AllWritten | crates/pgvisor-core/src/audit.rs:159-192 | If storage refuses nothing these are exactly the events whose persist task has run |
| AuditBatches.RunCloses | crates/pgvisor-core/src/audit.rs:159-192 | In every run a batch file is given up only with a hundred events or 64 KiB |
| AuditBatches.RunHasRoom | crates/pgvisor-core/src/audit.rs:159-192 | In a run in which storage reports no failure no file ever has more than a hundred events |
| AuditBatches.ConfirmedIsSmall | crates/pgvisor-core/src/audit.rs:181-184 | Right after a write that storage confirms the open batch has fewer than a hundred events and 64 KiB |
| AuditDurability.RestartsExactly | crates/pgvisor-core/src/audit.rs:198-289 | Whenever the log restarts its ring is exactly the last of those events, as many as fit, in id order |
| AuditDurability.RunKeepsInv | crates/pgvisor-core/src/audit.rs:132-289 | The open batch's file holds a beginning of it, no later file exists, and all ids that are out or refused are distinct, not stored and below the next one |
| AuditDurability.ReloadIsExact | crates/pgvisor-core/src/audit.rs:198-289 | A reload yields exactly the last stored events in id order |
| AuditDurability.NextIdIsNewIff | crates/pgvisor-core/src/audit.rs:268-275 | After a reload the next id is above every stored one if and only if the capacity is positive or nothing is stored |
| Audit.RingIsHistorysEnd | crates/pgvisor-core/src/audit.rs:151-157 | The ring is the end of the history of events, and appending keeps it so |
| Audit.AuditLog.Allocate | crates/pgvisor-core/src/audit.rs:132-150 | A new id for each event |
| Audit.AuditLog.Push | crates/pgvisor-core/src/audit.rs:151-157 | A full ring loses its oldest event |
| Audit.AuditLog.Persist | crates/pgvisor-core/src/audit.rs:159-192 | The batch file is rewritten with the event and the batch is closed at 100 events or 64 KiB; after a reported failure, whether or not the write was done, the event stays in the open batch |
| Audit.AuditLog.LoadFromStorage | crates/pgvisor-core/src/audit.rs:198-289 | Ring, next id and open batch after a reload of any set of batch files |
| Audit.ReadBatches | crates/pgvisor-core/src/audit.rs:220-257 | Reading the files in order gathers all events, their largest id and the last batch |
| Audit.GatheredLists | crates/pgvisor-core/src/audit.rs:259-260 | Sorted and deduplicated, they list one event of every stored id |
| Retention.BackupManager.PruneRetention | crates/pgvisor-core/src/backup/manager.rs:369-440 | Pruning removes exactly the oldest snapshots of the time-sorted list, and the WAL files below the oldest kept start |
| Retention.PrunedExactly | crates/pgvisor-core/src/backup/manager.rs:380-408 | A snapshot goes if and only if it is not the newest and is too old or beyond the count |
| Retention.PruneIsIdempotent | crates/pgvisor-core/src/backup/manager.rs:369-440 | At the same time with the same limits a second pruning deletes nothing |
| Retention.PrunedList | crates/pgvisor-core/src/backup/manager.rs:343-364 | Deleting by id and listing again is the listing without its first snapshots |
| Retention.ListedInOrder | crates/pgvisor-core/src/backup/manager.rs:362 | The listing is in order of creation and has exactly the stored snapshots |
| Retention.ToDelete | crates/pgvisor-core/src/backup/manager.rs:380-408 | The set of ids that the age and count rules collect, minus the newest, is that of a prefix of the listing |
| Retention.FindBestIsBest | crates/pgvisor-dashboard/src/handlers/backup.rs:117-143 | The chosen snapshot is the latest not after the target; there is none exactly if all are later |
| Retention.ChoiceUnchangedIff | crates/pgvisor-dashboard/src/handlers/backup.rs:117-143 | Dropping the oldest snapshots leaves the choice for a target alone if and only if the target is at or after the oldest kept one, or before all |
| Retention.WalKeptIff | crates/pgvisor-core/src/backup/manager.rs:424-437 | Every kept snapshot keeps all its WAL files, whatever files there are, if and only if none starts below the oldest kept one |
| Retention.MonotoneStartsKeepWal | crates/pgvisor-core/src/backup/manager.rs:424-437 | With start names that do not go down over time no kept snapshot loses WAL |
| BackupLock.AcquiresAreApart | crates/pgvisor-sidecar/src/control/handlers.rs:739-771 | Between two successful acquires lies a release of the first token, or fifteen minutes less the longest time that an acquire waits between reading the clock and taking the lock |
| BackupLock.WaitShortens | crates/pgvisor-sidecar/src/control/handlers.rs:739-740 | A run without any release whose two successful acquires are exactly that far apart |
| BackupLock.LateReleaseIsHarmless | crates/pgvisor-sidecar/src/control/handlers.rs:782-805 | Releasing an old token after another acquire changes nothing |
| BackupLock.HeldUntil | crates/pgvisor-sidecar/src/control/handlers.rs:726-775 | Whoever took the lock holds it until its release or until an acquire has read a time past its end, whatever the clock does |
| BackupLock.SucceedsIff | crates/pgvisor-sidecar/src/control/handlers.rs:726-775 | An acquire succeeds if and only if it is made to a leader and no grant is in force whose fifteen minutes were not over when it read the clock; the reply says not leader, until when the lock is held, or what was granted |
| BackupLock.ReleaseFrees | crates/pgvisor-sidecar/src/control/handlers.rs:782-805 | Releasing the last grant's token frees the lock for the next acquire, whatever the clock says |
| BackupLock.LockIsLastGranted | crates/pgvisor-sidecar/src/control/handlers.rs:726-805 | The lock in force is the last one granted |
| BackupLock.Sidecar.AcquireBackupLock | crates/pgvisor-sidecar/src/control/handlers.rs:726-775 | Refused on a non-leader and while an unexpired lock stands, otherwise granted for fifteen minutes |
| BackupLock.Sidecar.ReleaseBackupLock | crates/pgvisor-sidecar/src/control/handlers.rs:782-805 | Only the token that holds the lock clears it |
| SqlGuard.AcceptedIsFixed | crates/pgvisor-dashboard/src/security.rs:111-174 | A statement that the read-only check returns is accepted again, unchanged |
| SqlGuard.PassesIff | crates/pgvisor-dashboard/src/security.rs:119-174 | A statement passes if and only if it has no semicolon, an allowed first word, no mutating word followed by a blank, and no INTO followed by a blank if SELECT occurs |
| SqlGuard.VerdictIs | crates/pgvisor-dashboard/src/security.rs:111-174 | For every text the verdict on its core, cut free of comments, outer blanks and trailing semicolons: several statements if a semicolon is left, accepted as the core if it passes, and otherwise a mutation |
| SqlGuard.EmptyIff | crates/pgvisor-dashboard/src/security.rs:111-117 | A text is an empty query if and only if nothing but white space is left of it without comments |
| SqlGuard.CutOf | crates/pgvisor-dashboard/src/security.rs:111-135 | Every other text has such a core |
| SqlGuard.AcceptedWords | crates/pgvisor-dashboard/src/security.rs:137-171 | In accepted text every mutating word is followed by something other than a blank |
| SqlGuard.WordSurvives | crates/pgvisor-dashboard/src/security.rs:137-171 | A text in which such a word stands in front of a line break and is accepted |
| SqlGuard.AcceptedIsClean | crates/pgvisor-dashboard/src/security.rs:111-174 | It has no comment opener, no semicolon and no outer white space |
| SqlGuard.StripIsIdempotent | crates/pgvisor-dashboard/src/security.rs:73-108 | Stripped text has no comment opener, text is left alone if and only if it has none, and stripping twice is stripping once |
| SqlGuard.CommentBecomesBlank | crates/pgvisor-dashboard/src/security.rs:73-108 | The first comment becomes one blank and the text behind it is stripped in turn |
| SqlGuard.OpenCommentSwallows | crates/pgvisor-dashboard/src/security.rs:73-108 | A comment that never ends takes the rest of the text with it |
| SqlGuard.LiteralsIff | crates/pgvisor-dashboard/src/security.rs:73-108 | Stripping agrees with a scanner that leaves string literals alone if and only if no comment opener lies inside a literal |
| SqlGuard.StripComments | crates/pgvisor-dashboard/src/security.rs:73-108 | The scanner with two flags and an index computes the stripped text |
| SqlGuard.Validate | crates/pgvisor-dashboard/src/security.rs:111-174 | The chain of tests over the keyword list: empty, several statements, mutation, accepted |

## Left out

- Real file, socket, TLS, HTTP, object-store and process calls; OpenRaft, bincode, serde and pgwire internals.
- An I/O error inside an append, or between changing metadata in memory and persisting it, with the process living on; a missing directory sync; a metadata file that goes bad between runs, after which the acknowledged vote is gone.
- Overflow of 64-bit log indices, terms, event ids and file offsets; an entry of 4 GiB or more is written as the code writes it, and no theorem is claimed for logs that contain one.
- The wrapper that appends through a callback, `first_log_id`, paths and counters of the log: easy members.
- Snapshot ids, and a snapshot in the course of being received in pieces.
- Manual promote, demote, restore and repoint requests to a sidecar, and the supervisor's commands.
- Peers that match by part of their name: peers are node ids, and a node knows which peer is itself.
- A standby whose database process is fenced, which counts itself alive although its peers do not.
- ElectionSafety.ElectionIsSafe: the partition and the set of alive processes are fixed, so fenced nodes that rejoin are not in it, and neither is a component that starts with two running leaders; both are in the split-brain theorems, which assume full reachability instead.
- SplitBrain.SplitBrainHeals: leaders act on what they see in one step; what separate steps can do is stated by SplitBrain.LastingIff.
- Liveness: no theorem says that an election, a retry or a rejoin happens in the end.
- Overflow checks of a debug build, in which a length field of -1 stops the session; lengths are computed as in a release build.
- Errors when writing to the client, the release at the client's end of file, authentication, extended-query messages, audit entries for statements, metrics.
- The retry loop of an acquire with its timer: an acquire yields a connection or a timeout.
- Frames.RawRoundTrip: for payloads whose length fits a signed 32-bit field, as the wire format demands.
- DataRow.RowRoundTripIff: for values of fewer than 2^31 bytes, so that no length field reads as NULL or as negative.
- AuditDurability.DurableIff: capacity is positive, reloading ends before appends begin, and batch numbers stay below 10^8, where the order of file names is the order of numbers.
- Audit.ReadBatches: every batch file can be read; files that cannot be read, and events written one per file by older versions, are not modelled.
- Audit.AuditLog.LoadFromStorage: likewise.
- Audit search, filters and statistics; event fields beyond id and detail.
- Retention.BackupManager.PruneRetention: snapshot ids are unique, as storage keys are, and deletions succeed.
- The wording of error messages, which of several errors is reported to whom, DDL validation and the mutation mode of the SQL console.
- Backup upload, restore and scheduling; the dashboard's pages, users and tokens; configuration generation; the documentation site and the demo.
