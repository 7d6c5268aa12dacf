// Backup retention: which snapshots and WAL files pruning deletes, and which snapshot
// point-in-time recovery starts from.
module Retention {
  import opened Bytes
  import opened Sorting

  // Times in seconds.
  datatype Snapshot = Snapshot(id: string, createdAt: int, startWal: string)

  const DAY: int := 86400

  function CreatedAt(s: Snapshot): int {
    s.createdAt
  }

  // String order, as the WAL file names are compared.
  predicate LexLess(a: string, b: string) {
    b != [] && (a == [] || a[0] < b[0] || (a[0] == b[0] && LexLess(a[1..], b[1..])))
  }

  lemma {:induction false} LexTransitive(a: string, b: string, c: string)
    requires LexLess(a, b) && !LexLess(c, b)
    ensures LexLess(a, c)
    decreases |a|
  {
    if c != [] && a != [] && a[0] == b[0] == c[0] {
      LexTransitive(a[1..], b[1..], c[1..]);
    }
  }

  lemma {:induction false} LexIrreflexive(a: string)
    ensures !LexLess(a, a)
  {
    if a != [] {
      LexIrreflexive(a[1..]);
    }
  }

  // All snapshots in order of creation; a stable sort of whatever order storage lists.
  function Listed(stored: seq<Snapshot>): (r: seq<Snapshot>)
    ensures |r| == |stored|
  {
    SortBy(stored, CreatedAt)
  }

  ghost predicate InTimeOrder(s: seq<Snapshot>) {
    forall i, j :: 0 <= i < j < |s| ==> s[i].createdAt <= s[j].createdAt
  }

  lemma ListedInOrder(stored: seq<Snapshot>)
    ensures InTimeOrder(Listed(stored)) && forall x :: x in Listed(stored) <==> x in stored
  {
    var key := CreatedAt;
    SortSorts(stored, key);
    var t := Listed(stored);
    forall i, j | 0 <= i < j < |t|
      ensures t[i].createdAt <= t[j].createdAt
    {
      assert key(t[i]) <= key(t[j]);
    }
  }

  ghost predicate UniqueIds(s: seq<Snapshot>) {
    forall i, j :: 0 <= i < |s| && 0 <= j < |s| && s[i].id == s[j].id ==> i == j
  }

  // ---- How many go.

  // How many leading snapshots were created before the cutoff.
  function OlderThan(s: seq<Snapshot>, cutoff: int): (n: nat)
    ensures n <= |s|
    ensures forall i :: 0 <= i < n ==> s[i].createdAt < cutoff
    ensures n < |s| ==> s[n].createdAt >= cutoff
  {
    if s == [] || s[0].createdAt >= cutoff then 0 else 1 + OlderThan(s[1..], cutoff)
  }

  lemma OlderExactly(s: seq<Snapshot>, cutoff: int)
    requires InTimeOrder(s)
    ensures forall i :: 0 <= i < |s| ==> (i < OlderThan(s, cutoff) <==> s[i].createdAt < cutoff)
  {
    var n := OlderThan(s, cutoff);
    forall i | n <= i < |s|
      ensures s[i].createdAt >= cutoff
    {
      assert i == n || s[n].createdAt <= s[i].createdAt;
    }
  }

  function ByAge(s: seq<Snapshot>, retentionDays: Option<nat>, now: int): nat
    requires s != []
  {
    if retentionDays.Some? && retentionDays.value > 0
    then OlderThan(s[..|s| - 1], now - retentionDays.value * DAY) else 0
  }

  function ByCount(s: seq<Snapshot>, keepCount: Option<nat>): nat {
    if keepCount.Some? && 0 < keepCount.value < |s| then |s| - keepCount.value else 0
  }

  // The number of oldest snapshots that pruning deletes.
  function PruneCount(s: seq<Snapshot>, keepCount: Option<nat>, retentionDays: Option<nat>, now: int): (d: nat)
    ensures d <= |s| && (s != [] ==> d < |s|)
  {
    if |s| <= 1 then 0 else
    var a, c := ByAge(s, retentionDays, now), ByCount(s, keepCount);
    if a <= c then c else a
  }

  // WAL files below the name are obsolete.
  function KeepFrom(wals: set<string>, name: string): set<string> {
    set w | w in wals && !LexLess(w, name)
  }

  class BackupManager {
    var stored: seq<Snapshot>
    var wals: set<string>

    // Prunes snapshots by age and count, and then the WAL files nobody needs any more.
    method PruneRetention(keepCount: Option<nat>, retentionDays: Option<nat>, now: int) returns (deleted: nat)
      requires UniqueIds(Listed(stored))
      modifies this
      ensures var s := Listed(old(stored));
              var d := PruneCount(s, keepCount, retentionDays, now);
              && deleted == d
              && Listed(stored) == s[d..]
              && wals == (if d == 0 then old(wals) else KeepFrom(old(wals), s[d].startWal))
    {
      hide SortBy, Filter, PruneCount;
      var snapshots := Listed(stored);
      ListedInOrder(stored);
      var toDelete := ToDelete(snapshots, keepCount, retentionDays, now);
      ghost var d := PruneCount(snapshots, keepCount, retentionDays, now);
      IdCount(snapshots, d);
      deleted := |toDelete|;
      if toDelete == {} {
        assert snapshots[0..] == snapshots;
        return;
      }
      PrunedList(stored, toDelete, d);
      stored := Filter(stored, Survivor(toDelete));
      snapshots := Filter(snapshots, Survivor(toDelete));
      wals := KeepFrom(wals, snapshots[0].startWal);
    }
  }

  // The ids to delete: too old, or too many; but never the newest.
  method ToDelete(snapshots: seq<Snapshot>, keepCount: Option<nat>, retentionDays: Option<nat>, now: int)
    returns (toDelete: set<string>)
    requires UniqueIds(snapshots) && InTimeOrder(snapshots)
    ensures toDelete == Ids(snapshots[..PruneCount(snapshots, keepCount, retentionDays, now)])
  {
    hide Ids, OlderThan;
    var n := |snapshots|;
    NoIds(snapshots);
    toDelete := {};
    if n <= 1 {
      return;
    }
    ghost var a := ByAge(snapshots, retentionDays, now);
    if retentionDays.Some? && retentionDays.value > 0 {
      toDelete := OldIds(snapshots[..n - 1], now - retentionDays.value * DAY);
      assert snapshots[..n - 1][..a] == snapshots[..a];
    }
    ghost var c := ByCount(snapshots, keepCount);
    if keepCount.Some? && keepCount.value > 0 && n > keepCount.value {
      var surplus := FirstIds(snapshots, n - keepCount.value);
      toDelete := toDelete + surplus;
    }
    UnionOfPrefixes(snapshots, a, c);
    IdsOfFirst(snapshots, PruneCount(snapshots, keepCount, retentionDays, now), n - 1);
    toDelete := toDelete - {snapshots[n - 1].id};
  }

  method FirstIds(s: seq<Snapshot>, k: nat) returns (ids: set<string>)
    requires k <= |s|
    ensures ids == Ids(s[..k])
  {
    ids := {};
    for i := 0 to k
      invariant ids == Ids(s[..i])
    {
      assert s[..i + 1][..i] == s[..i];
      ids := ids + {s[i].id};
    }
  }

  lemma NoIds(s: seq<Snapshot>)
    ensures Ids(s[..0]) == {}
  {
  }

  function Ids(s: seq<Snapshot>): set<string> {
    if s == [] then {} else Ids(s[..|s| - 1]) + {s[|s| - 1].id}
  }

  // With unique ids, the ids of the first d snapshots are those of no other snapshot.
  lemma {:induction false} IdsOfFirst(s: seq<Snapshot>, d: nat, i: nat)
    requires UniqueIds(s) && d <= |s| && i < |s|
    ensures s[i].id in Ids(s[..d]) <==> i < d
    decreases d
  {
    if d > 0 {
      assert s[..d][..d - 1] == s[..d - 1];
      IdsOfFirst(s, d - 1, i);
    }
  }

  method OldIds(s: seq<Snapshot>, cutoff: int) returns (ids: set<string>)
    requires InTimeOrder(s)
    ensures ids == Ids(s[..OlderThan(s, cutoff)])
  {
    ids := {};
    ghost var n := OlderThan(s, cutoff);
    OlderExactly(s, cutoff);
    for i := 0 to |s|
      invariant ids == Ids(s[..if i <= n then i else n])
    {
      if s[i].createdAt < cutoff {
        assert s[..i + 1][..i] == s[..i];
        ids := ids + {s[i].id};
      }
    }
  }

  // The test that a snapshot survives the deletion of some ids.
  function Survivor(deleted: set<string>): Snapshot -> bool {
    (s: Snapshot) => s.id !in deleted
  }

  lemma {:induction false} LargerPrefix(s: seq<Snapshot>, a: nat, c: nat)
    requires a <= c <= |s|
    ensures Ids(s[..a]) <= Ids(s[..c])
    decreases c
  {
    if a < c {
      assert s[..c][..c - 1] == s[..c - 1];
      LargerPrefix(s, a, c - 1);
    }
  }

  lemma UnionOfPrefixes(s: seq<Snapshot>, a: nat, c: nat)
    requires a <= |s| && c <= |s|
    ensures Ids(s[..a]) + Ids(s[..c]) == Ids(s[..if a <= c then c else a])
  {
    if a <= c {
      LargerPrefix(s, a, c);
    } else {
      LargerPrefix(s, c, a);
    }
  }

  lemma {:induction false} IdCount(s: seq<Snapshot>, d: nat)
    requires UniqueIds(s) && d <= |s|
    ensures |Ids(s[..d])| == d
  {
    if d > 0 {
      IdCount(s, d - 1);
      assert s[..d][..d - 1] == s[..d - 1];
      IdsOfFirst(s, d - 1, d - 1);
    }
  }

  // Deleting the ids of the first d listed snapshots leaves the listing without them.
  lemma PrunedList(stored: seq<Snapshot>, deleted: set<string>, d: nat)
    requires UniqueIds(Listed(stored)) && d <= |stored| && deleted == Ids(Listed(stored)[..d])
    ensures Filter(Listed(stored), Survivor(deleted)) == Listed(stored)[d..]
    ensures Listed(Filter(stored, Survivor(deleted))) == Listed(stored)[d..]
  {
    hide SortBy, Filter;
    var s, p := Listed(stored), Survivor(deleted);
    forall i | 0 <= i < |s|
      ensures p(s[i]) <==> d <= i
    {
      IdsOfFirst(s, d, i);
    }
    FilterSuffix(s, d, p);
    FilterSort(stored, CreatedAt, p);
  }

  // ---- Pruning twice.

  // Pruning is idempotent: at the same time and with the same limits nothing more goes.
  lemma PruneIsIdempotent(s: seq<Snapshot>, keepCount: Option<nat>, retentionDays: Option<nat>, now: int)
    requires InTimeOrder(s)
    ensures var d := PruneCount(s, keepCount, retentionDays, now);
            PruneCount(s[d..], keepCount, retentionDays, now) == 0
  {
    var d := PruneCount(s, keepCount, retentionDays, now);
    var kept := s[d..];
    if |kept| > 1 {
      var older := s[..|s| - 1];
      assert kept[0] == older[d];
      if retentionDays.Some? && retentionDays.value > 0 {
        var cutoff := now - retentionDays.value * DAY;
        var n := OlderThan(older, cutoff);
        assert older[n].createdAt <= older[d].createdAt;
        assert kept[..|kept| - 1][0] == kept[0];
      }
    }
  }

  // Nothing young or within the count goes, and nothing old stays but the newest.
  lemma PrunedExactly(s: seq<Snapshot>, keepCount: Option<nat>, retentionDays: Option<nat>, now: int, i: nat)
    requires InTimeOrder(s) && i < |s|
    ensures i < PruneCount(s, keepCount, retentionDays, now) <==>
            && i < |s| - 1
            && ((retentionDays.Some? && retentionDays.value > 0
                 && s[i].createdAt < now - retentionDays.value * DAY)
                || (keepCount.Some? && 0 < keepCount.value && i + keepCount.value < |s|))
  {
    if |s| > 1 && i < |s| - 1 {
      var older := s[..|s| - 1];
      assert older[i] == s[i];
      if retentionDays.Some? && retentionDays.value > 0 {
        var n := OlderThan(older, now - retentionDays.value * DAY);
        assert n <= i ==> older[n].createdAt <= older[i].createdAt;
      }
    }
  }

  // ---- Point-in-time recovery.

  function NotAfter(target: int): Snapshot -> bool {
    (s: Snapshot) => s.createdAt <= target
  }

  // The latest snapshot at or before the target time; None stands for the error.
  function FindBest(backups: seq<Snapshot>, target: int): Option<Snapshot> {
    var eligible := SortBy(Filter(backups, NotAfter(target)), CreatedAt);
    if eligible == [] then None else Some(eligible[|eligible| - 1])
  }

  // It is one of the backups, not after the target, and none of those is later; there is
  // one exactly if some backup is not after the target.
  lemma FindBestIsBest(backups: seq<Snapshot>, target: int)
    ensures match FindBest(backups, target)
            case Some(b) => b in backups && b.createdAt <= target
                            && forall x :: x in backups && x.createdAt <= target ==> x.createdAt <= b.createdAt
            case None => forall x :: x in backups ==> x.createdAt > target
  {
    var kept := Filter(backups, NotAfter(target));
    ListedInOrder(kept);
    var t := SortBy(kept, CreatedAt);
    assert t == Listed(kept);
    if t != [] {
      forall x | x in kept
        ensures x.createdAt <= t[|t| - 1].createdAt
      {
        var i :| 0 <= i < |t| && t[i] == x;
        assert i == |t| - 1 || t[i].createdAt <= t[|t| - 1].createdAt;
      }
      assert t[|t| - 1] in kept;
    } else {
      assert forall x :: x !in kept;
    }
  }

  // On a listing in time order it is simply the last one not after the target.
  lemma BestInListing(s: seq<Snapshot>, target: int)
    requires InTimeOrder(s)
    ensures var n := OlderThan(s, target + 1);
            FindBest(s, target) == if n == 0 then None else Some(s[n - 1])
  {
    hide SortBy, Filter;
    var n := OlderThan(s, target + 1);
    var p := NotAfter(target);
    forall i | 0 <= i < |s|
      ensures p(s[i]) <==> i < n
    {
      assert n <= i ==> i == n || s[n].createdAt <= s[i].createdAt;
    }
    FilterPrefix(s, n, p);
    ListedAsIs(s[..n]);
  }

  // A list in time order is listed as it is.
  lemma ListedAsIs(s: seq<Snapshot>)
    requires InTimeOrder(s)
    ensures SortBy(s, CreatedAt) == s
  {
    var key := CreatedAt;
    assert SortedBy(s, key);
    SortSorted(s, key);
  }

  // Dropping the d oldest snapshots changes the choice exactly for the targets that
  // only dropped ones could serve.
  lemma ChoiceUnchangedIff(s: seq<Snapshot>, d: nat, target: int)
    requires InTimeOrder(s) && d < |s|
    ensures FindBest(s[d..], target) == FindBest(s, target) <==>
            target >= s[d].createdAt || target < s[0].createdAt
  {
    hide FindBest, OlderThan;
    BestInListing(s, target);
    BestInListing(s[d..], target);
    var n, m := OlderThan(s, target + 1), OlderThan(s[d..], target + 1);
    if target >= s[d].createdAt {
      OlderBehind(s, d, target + 1);
    }
    assert n == 0 <==> target < s[0].createdAt;
    assert m == 0 <==> target < s[d].createdAt;
  }

  lemma {:induction false} OlderBehind(s: seq<Snapshot>, d: nat, cutoff: int)
    requires InTimeOrder(s) && d < |s| && s[d].createdAt < cutoff
    ensures OlderThan(s, cutoff) == d + OlderThan(s[d..], cutoff)
    decreases d
  {
    if d == 0 {
      assert s[0..] == s;
    } else {
      assert s[0].createdAt <= s[d].createdAt;
      OlderBehind(s[1..], d - 1, cutoff);
      assert s[1..][d - 1..] == s[d..];
    }
  }

  // ---- WAL files.

  // The snapshot has every WAL file from its start name on.
  ghost predicate WalComplete(before: set<string>, after: set<string>, s: Snapshot) {
    forall w :: w in before && !LexLess(w, s.startWal) ==> w in after
  }

  // Every retained snapshot keeps its WAL, whatever files there are, exactly if no
  // retained snapshot starts below the oldest retained one.
  lemma WalKeptIff(kept: seq<Snapshot>)
    requires kept != []
    ensures (forall wals: set<string>, i :: 0 <= i < |kept| ==>
               WalComplete(wals, KeepFrom(wals, kept[0].startWal), kept[i]))
            <==> forall i :: 0 <= i < |kept| ==> !LexLess(kept[i].startWal, kept[0].startWal)
  {
    if forall i :: 0 <= i < |kept| ==> !LexLess(kept[i].startWal, kept[0].startWal) {
      forall wals: set<string>, i | 0 <= i < |kept|
        ensures WalComplete(wals, KeepFrom(wals, kept[0].startWal), kept[i])
      {
        forall w | w in wals && !LexLess(w, kept[i].startWal)
          ensures w in KeepFrom(wals, kept[0].startWal)
        {
          if LexLess(w, kept[0].startWal) {
            LexTransitive(w, kept[0].startWal, kept[i].startWal);
          }
        }
      }
    } else {
      var i :| 0 <= i < |kept| && LexLess(kept[i].startWal, kept[0].startWal);
      var wals := {kept[i].startWal};
      LexIrreflexive(kept[i].startWal);
      assert !WalComplete(wals, KeepFrom(wals, kept[0].startWal), kept[i]);
    }
  }

  // So if start names do not go down over time, every retained snapshot keeps its WAL.
  lemma MonotoneStartsKeepWal(s: seq<Snapshot>, d: nat, wals: set<string>, i: nat)
    requires d <= i < |s|
    requires forall j, k :: 0 <= j < k < |s| ==> !LexLess(s[k].startWal, s[j].startWal)
    ensures WalComplete(wals, KeepFrom(wals, s[d].startWal), s[i])
  {
    LexIrreflexive(s[d].startWal);
    var kept := s[d..];
    forall j | 0 <= j < |kept|
      ensures !LexLess(kept[j].startWal, kept[0].startWal)
    {
      assert kept[j] == s[d + j];
    }
    WalKeptIff(kept);
    assert kept[i - d] == s[i];
  }
}
