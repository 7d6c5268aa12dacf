// The replicated log's vocabulary: log ids, votes, commands and entries.
module RaftTypes {
  import opened Bytes

  datatype LogId = LogId(term: nat, leader: nat, index: nat)

  datatype Vote = Vote(term: nat, node: nat, committed: bool)

  datatype NodeRole = Leader | Standby | Fenced

  datatype NodeInfo = NodeInfo(rpcAddr: string, pgAddr: string)

  datatype ClusterCommand =
    | RegisterNode(id: nat, info: NodeInfo)
    | UpdateNodeRole(id: nat, role: NodeRole)
    | SetState(key: string, value: string)
    | DeleteState(key: string)

  datatype ClusterResponse =
    | Success
    | Value(previous: Option<string>)

  // Who takes part in the cluster, and the voter sets in force (two during a joint change).
  datatype Membership = Membership(configs: seq<set<nat>>, nodes: map<nat, NodeInfo>)

  datatype StoredMembership = StoredMembership(logId: Option<LogId>, membership: Membership)

  datatype EntryPayload =
    | Normal(command: ClusterCommand)
    | Change(membership: Membership)
    | Blank

  datatype Entry = Entry(logId: LogId, payload: EntryPayload)
}
