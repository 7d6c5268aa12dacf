// The quorum lease and the role automaton of one node.
module Orchestrator {
  import opened RaftTypes

  // Time since an earlier instant; zero if that instant has not come yet.
  function Elapsed(now: real, since: real): real {
    if since <= now then now - since else 0.0
  }

  datatype QuorumLease = QuorumLease(duration: real, lastQuorumAck: real) {
    predicate IsValid(now: real) {
      Elapsed(now, lastQuorumAck) <= duration
    }

    function RemainingTime(now: real): real {
      var elapsed := Elapsed(now, lastQuorumAck);
      if elapsed >= duration then 0.0 else duration - elapsed
    }
  }

  // A lease that is valid now stays valid for exactly its remaining time, which is never
  // negative, and zero once the lease is over.
  lemma RemainingTimeIsExact(l: QuorumLease, now: real, t: real)
    ensures l.RemainingTime(now) >= 0.0 && (!l.IsValid(now) ==> l.RemainingTime(now) == 0.0)
    ensures l.IsValid(now) && l.lastQuorumAck <= now <= t ==> (l.IsValid(t) <==> t - now <= l.RemainingTime(now))
  {
  }

  datatype Action = Noop | PromoteToLeader | DemoteToStandby(primary: nat) | FenceImmediately

  // A node's role and lease.
  datatype Status = Status(role: NodeRole, lease: QuorumLease)

  function Elected(id: nat, s: Status, leader: nat, now: real): (Status, Action) {
    if leader == id then
      if s.role == Leader then (s, Noop)
      else (Status(Leader, s.lease.(lastQuorumAck := now)), PromoteToLeader)
    else if s.role == Leader then (s.(role := Fenced), FenceImmediately)
    else (s.(role := Standby), DemoteToStandby(leader))
  }

  function Checked(s: Status, now: real): (Status, Action) {
    if s.role == Leader && !s.lease.IsValid(now) then (s.(role := Fenced), FenceImmediately) else (s, Noop)
  }

  function Acknowledged(s: Status, now: real): Status {
    if s.role == Leader then s.(lease := s.lease.(lastQuorumAck := now)) else s
  }

  class FailoverOrchestrator {
    const nodeId: nat
    var currentRole: NodeRole
    var lease: QuorumLease

    ghost function View(): Status
      reads this
    {
      Status(currentRole, lease)
    }

    constructor (nodeId: nat, leaseDuration: real, now: real)
      ensures this.nodeId == nodeId && View() == Status(Standby, QuorumLease(leaseDuration, now))
    {
      this.nodeId, currentRole, lease := nodeId, Standby, QuorumLease(leaseDuration, now);
    }

    method OnLeaderElected(leader: nat, now: real) returns (action: Action)
      modifies this
      ensures (View(), action) == Elected(nodeId, old(View()), leader, now)
      ensures action == PromoteToLeader <==> old(currentRole) != Leader && currentRole == Leader
      ensures action == FenceImmediately <==> old(currentRole) == Leader && currentRole == Fenced
      ensures action.DemoteToStandby? ==> action.primary == leader != nodeId && currentRole == Standby
    {
      if leader == nodeId {
        if currentRole != Leader {
          currentRole := Leader;
          lease := lease.(lastQuorumAck := now);
          return PromoteToLeader;
        }
      } else {
        if currentRole == Leader {
          currentRole := Fenced;
          return FenceImmediately;
        } else {
          currentRole := Standby;
          return DemoteToStandby(leader);
        }
      }
      return Noop;
    }

    method CheckQuorumLease(now: real) returns (action: Action)
      modifies this
      ensures (View(), action) == Checked(old(View()), now)
      ensures currentRole == Leader ==> lease.IsValid(now)
    {
      if currentRole == Leader && !lease.IsValid(now) {
        currentRole := Fenced;
        return FenceImmediately;
      }
      return Noop;
    }

    method OnQuorumAcknowledged(now: real)
      modifies this
      ensures View() == Acknowledged(old(View()), now)
    {
      if currentRole == Leader {
        lease := lease.(lastQuorumAck := now);
      }
    }

    method RecoverToStandby(primary: nat) returns (action: Action)
      modifies this
      ensures View() == old(View()).(role := Standby) && action == DemoteToStandby(primary)
    {
      currentRole := Standby;
      return DemoteToStandby(primary);
    }
  }
}
