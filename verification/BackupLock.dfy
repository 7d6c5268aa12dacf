// The cluster-wide backup lock that the leader's sidecar hands out.
module BackupLock {
  import opened Bytes

  // Fifteen minutes, in seconds.
  const TTL: int := 15 * 60

  datatype LockInfo = LockInfo(token: string, acquiredAt: int, expiresAt: int)

  datatype Reply = NotLeader | Conflict(expiresAt: int) | Granted(token: string, acquiredAt: int, expiresAt: int)

  // An expired lock does not stand in the way.
  function Acquired(lock: Option<LockInfo>, isLeader: bool, now: int, token: string): (Option<LockInfo>, Reply) {
    if !isLeader then (lock, NotLeader) else
    if lock.Some? && now < lock.value.expiresAt then (lock, Conflict(lock.value.expiresAt)) else
    (Some(LockInfo(token, now, now + TTL)), Granted(token, now, now + TTL))
  }

  // Only the token that holds the lock releases it.
  function Released(lock: Option<LockInfo>, token: string): Option<LockInfo> {
    if lock.Some? && lock.value.token == token then None else lock
  }

  class Sidecar {
    var isLeader: bool
    var backupLock: Option<LockInfo>

    method AcquireBackupLock(now: int, token: string) returns (reply: Reply)
      modifies this`backupLock
      ensures (backupLock, reply) == Acquired(old(backupLock), isLeader, now, token)
      ensures reply.Granted? ==> backupLock == Some(LockInfo(token, now, now + TTL))
      ensures !reply.Granted? ==> backupLock == old(backupLock)
    {
      if !isLeader {
        return NotLeader;
      }
      if backupLock.Some? {
        if now < backupLock.value.expiresAt {
          return Conflict(backupLock.value.expiresAt);
        }
        backupLock := None;
      }
      var expiresAt := now + TTL;
      backupLock := Some(LockInfo(token, now, expiresAt));
      return Granted(token, now, expiresAt);
    }

    method ReleaseBackupLock(token: string)
      modifies this`backupLock
      ensures backupLock == Released(old(backupLock), token)
    {
      if backupLock.Some? && backupLock.value.token == token {
        backupLock := None;
      }
    }
  }

  // ---- Runs of requests.

  // An acquire reads the clock, waits for the lock's guard, and takes effect `at` a later
  // time; a request's place in the run is the order in which requests take effect.
  datatype Request = Acquire(isLeader: bool, read: int, at: int, token: string) | Release(token: string)

  function Next(lock: Option<LockInfo>, r: Request): Option<LockInfo> {
    match r
    case Acquire(isLeader, read, _, token) => Acquired(lock, isLeader, read, token).0
    case Release(token) => Released(lock, token)
  }

  ghost predicate IsRun(ls: seq<Option<LockInfo>>, rs: seq<Request>) {
    && |ls| == |rs| + 1 && ls[0] == None
    && forall i :: 0 <= i < |rs| ==> ls[i + 1] == Next(ls[i], rs[i])
  }

  // Request i took the lock.
  predicate Succeeds(ls: seq<Option<LockInfo>>, rs: seq<Request>, i: nat)
    requires i < |rs| <= |ls|
  {
    rs[i].Acquire? && Acquired(ls[i], rs[i].isLeader, rs[i].read, rs[i].token).1.Granted?
  }

  // The clock does not go back, and nobody waits longer than `wait` for the guard.
  ghost predicate Timely(rs: seq<Request>, wait: int) {
    && (forall i :: 0 <= i < |rs| && rs[i].Acquire? ==> rs[i].read <= rs[i].at <= rs[i].read + wait)
    && (forall i, j :: 0 <= i < j < |rs| && rs[i].Acquire? && rs[j].Acquire? ==> rs[i].at <= rs[j].at)
  }

  // Tokens are used for one acquire only.
  ghost predicate FreshTokens(rs: seq<Request>) {
    forall i, j :: 0 <= i < j < |rs| && rs[i].Acquire? && rs[j].Acquire? ==> rs[i].token != rs[j].token
  }

  ghost predicate ReleasedBetween(rs: seq<Request>, i: nat, j: nat)
    requires i < j <= |rs| && rs[i].Acquire?
  {
    exists m :: i < m < j && rs[m] == Release(rs[i].token)
  }

  // Whoever took the lock holds it until it is released or somebody has read a time past
  // its end, whatever the clock does.
  lemma {:induction false} HeldUntil(ls: seq<Option<LockInfo>>, rs: seq<Request>, i: nat, j: nat)
    requires IsRun(ls, rs) && i < j <= |rs| && Succeeds(ls, rs, i)
    ensures || ReleasedBetween(rs, i, j)
            || ls[j] == Some(LockInfo(rs[i].token, rs[i].read, rs[i].read + TTL))
            || exists k :: i < k < j && rs[k].Acquire? && rs[k].read >= rs[i].read + TTL
    decreases j
  {
    if i + 1 < j {
      HeldUntil(ls, rs, i, j - 1);
      assert ls[j] == Next(ls[j - 1], rs[j - 1]);
      if ReleasedBetween(rs, i, j - 1) {
        var m :| i < m < j - 1 && rs[m] == Release(rs[i].token);
        assert i < m < j;
      }
    }
  }

  // Mutual exclusion: between two successful acquires lies a release of the first token,
  // or the second takes effect a full TTL after the first read the clock: that is at least
  // the TTL less the longest wait after the first took effect.
  lemma AcquiresAreApart(ls: seq<Option<LockInfo>>, rs: seq<Request>, i: nat, j: nat, wait: int)
    requires IsRun(ls, rs) && Timely(rs, wait) && i < j < |rs| && Succeeds(ls, rs, i) && Succeeds(ls, rs, j)
    ensures ReleasedBetween(rs, i, j) || rs[j].at >= rs[i].read + TTL
    ensures ReleasedBetween(rs, i, j) || rs[j].at - rs[i].at >= TTL - wait
  {
    HeldUntil(ls, rs, i, j);
  }

  // No more can be said: some run has two successful acquires exactly that far apart, with
  // no release at all.
  lemma WaitShortens(wait: int) returns (ls: seq<Option<LockInfo>>, rs: seq<Request>)
    requires 0 <= wait <= TTL
    ensures IsRun(ls, rs) && Timely(rs, wait) && |rs| == 2 && Succeeds(ls, rs, 0) && Succeeds(ls, rs, 1)
    ensures rs[0].Acquire? && rs[1].Acquire? && rs[1].at - rs[0].at == TTL - wait
  {
    rs := [Acquire(true, 0, wait, "a"), Acquire(true, TTL, TTL, "b")];
    ls := [None, Some(LockInfo("a", 0, TTL)), Some(LockInfo("b", TTL, TTL + TTL))];
  }

  // The lock in force is always the last one granted.
  lemma {:induction false} LockIsLastGranted(ls: seq<Option<LockInfo>>, rs: seq<Request>, j: nat) returns (k: nat)
    requires IsRun(ls, rs) && j <= |rs| && ls[j].Some?
    ensures k < j && Succeeds(ls, rs, k) && ls[j] == Some(LockInfo(rs[k].token, rs[k].read, rs[k].read + TTL))
    ensures forall m :: k < m < j ==> !Succeeds(ls, rs, m)
    decreases j
  {
    assert j > 0;
    assert ls[j] == Next(ls[j - 1], rs[j - 1]);
    if Succeeds(ls, rs, j - 1) {
      k := j - 1;
    } else {
      k := LockIsLastGranted(ls, rs, j - 1);
    }
  }

  // A late release never clears a newer lock: once another acquire has succeeded after
  // request i, releasing i's token changes nothing.
  lemma LateReleaseIsHarmless(ls: seq<Option<LockInfo>>, rs: seq<Request>, i: nat, k: nat, m: nat)
    requires IsRun(ls, rs) && FreshTokens(rs) && i < k < m < |rs|
    requires Succeeds(ls, rs, i) && Succeeds(ls, rs, k) && rs[m] == Release(rs[i].token)
    ensures ls[m + 1] == ls[m]
  {
    assert ls[m + 1] == Next(ls[m], rs[m]);
    if ls[m].Some? {
      var last := LockIsLastGranted(ls, rs, m);
      assert k <= last;
    }
  }

  // The grant of request i is in force before request j: nobody has got the lock since,
  // and its token has not been released.
  ghost predicate InForce(ls: seq<Option<LockInfo>>, rs: seq<Request>, j: nat, i: nat)
    requires j <= |rs| <= |ls|
  {
    && i < j && Succeeds(ls, rs, i) && !ReleasedBetween(rs, i, j)
    && forall k: nat :: i < k < j ==> !Succeeds(ls, rs, k)
  }

  lemma {:induction false} InForceHolds(ls: seq<Option<LockInfo>>, rs: seq<Request>, j: nat, i: nat)
    requires IsRun(ls, rs) && j <= |rs| && InForce(ls, rs, j, i)
    ensures ls[j] == Some(LockInfo(rs[i].token, rs[i].read, rs[i].read + TTL))
    decreases j
  {
    assert ls[j] == Next(ls[j - 1], rs[j - 1]);
    if i + 1 < j {
      NotReleasedBefore(rs, i, j);
      assert !Succeeds(ls, rs, j - 1);
      InForceHolds(ls, rs, j - 1, i);
    }
  }

  lemma NotReleasedBefore(rs: seq<Request>, i: nat, j: nat)
    requires i + 1 < j <= |rs| && rs[i].Acquire? && !ReleasedBetween(rs, i, j)
    ensures !ReleasedBetween(rs, i, j - 1) && rs[j - 1] != Release(rs[i].token)
  {
    assert forall m :: i < m < j ==> rs[m] != Release(rs[i].token);
  }

  // A lock is there only while some grant is in force.
  lemma {:induction false} HeldMeansInForce(ls: seq<Option<LockInfo>>, rs: seq<Request>, j: nat) returns (i: nat)
    requires IsRun(ls, rs) && j <= |rs| && ls[j].Some?
    ensures InForce(ls, rs, j, i)
    decreases j
  {
    assert j > 0;
    assert ls[j] == Next(ls[j - 1], rs[j - 1]);
    if Succeeds(ls, rs, j - 1) {
      i := j - 1;
    } else {
      i := HeldMeansInForce(ls, rs, j - 1);
      InForceHolds(ls, rs, j - 1, i);
      assert rs[j - 1] != Release(rs[i].token);
    }
  }

  // An acquire gets the lock exactly if it is made to a leader and no grant is in force
  // whose time was not over when the acquire read the clock; a refusal tells when that
  // grant ends.
  lemma SucceedsIff(ls: seq<Option<LockInfo>>, rs: seq<Request>, j: nat)
    requires IsRun(ls, rs) && j < |rs| && rs[j].Acquire?
    ensures Succeeds(ls, rs, j) <==>
            rs[j].isLeader && forall i: nat :: InForce(ls, rs, j, i) ==> rs[j].read >= rs[i].read + TTL
    ensures var reply := Acquired(ls[j], rs[j].isLeader, rs[j].read, rs[j].token).1;
            && (Succeeds(ls, rs, j) ==> reply == Granted(rs[j].token, rs[j].read, rs[j].read + TTL))
            && (!rs[j].isLeader ==> reply == NotLeader)
            && (rs[j].isLeader && !Succeeds(ls, rs, j) ==>
                  exists i: nat :: InForce(ls, rs, j, i) && reply == Conflict(rs[i].read + TTL))
  {
    forall i: nat | InForce(ls, rs, j, i)
      ensures ls[j] == Some(LockInfo(rs[i].token, rs[i].read, rs[i].read + TTL))
    {
      InForceHolds(ls, rs, j, i);
    }
    if ls[j].Some? {
      var i := HeldMeansInForce(ls, rs, j);
    }
  }

  // So the release of the last grant's token frees the lock at once, for an acquire with
  // any clock reading.
  lemma ReleaseFrees(ls: seq<Option<LockInfo>>, rs: seq<Request>, i: nat, m: nat)
    requires IsRun(ls, rs) && i < m && m + 1 < |rs| && Succeeds(ls, rs, i) && rs[m] == Release(rs[i].token)
    requires forall k :: i < k < m ==> !Succeeds(ls, rs, k)
    requires rs[m + 1].Acquire? && rs[m + 1].isLeader
    ensures ls[m + 1] == None && Succeeds(ls, rs, m + 1)
  {
    assert ls[m + 1] == Next(ls[m], rs[m]);
    if ls[m].Some? {
      var k := LockIsLastGranted(ls, rs, m);
      assert k == i;
    }
  }
}
