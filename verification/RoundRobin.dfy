// Round robin: how standby acquires in a row spread over the standbys.
module RoundRobin {
  import opened Bytes
  import opened Pool

  // ---- The addresses that acquires go to.

  // Where an acquire leads: the address of the connection it reuses, or that it dials.
  function AddrOf(pick: Pick): Option<string> {
    match pick
    case Reuse(c) => Some(c.addr)
    case Dial(addr) => Some(addr)
    case Unavailable => None
  }

  // Where m standby acquires in a row lead.
  function Picked(v: PoolView, m: nat): (r: seq<Option<string>>)
    ensures |r| == m
    decreases m
  {
    if m == 0 then [] else
    var (v', pick) := Take(v, StandbyRole);
    [AddrOf(pick)] + Picked(v', m - 1)
  }

  function Count(picks: seq<Option<string>>, addr: string): nat {
    if picks == [] then 0 else (if picks[0] == Some(addr) then 1 else 0) + Count(picks[1..], addr)
  }

  ghost predicate Distinct(addrs: seq<string>) {
    forall i, j :: 0 <= i < j < |addrs| ==> addrs[i] != addrs[j]
  }

  lemma PickGoes(v: PoolView)
    requires Routed(v) && v.standbyAddrs != []
    ensures var (v', pick) := Take(v, StandbyRole);
            && AddrOf(pick) == Some(v.standbyAddrs[v.rrIndex % |v.standbyAddrs|])
            && v' == TakeStandby(v).0 && Routed(v') && v'.standbyAddrs == v.standbyAddrs
  {
  }

  // A pool that follows the topology leads each acquire to the next list position.
  lemma {:induction false} PickedIs(v: PoolView, m: nat, k: nat)
    requires Routed(v) && v.standbyAddrs != [] && k < m
    ensures |Positions(v, m)| == m && Positions(v, m)[k] < |v.standbyAddrs|
    ensures Picked(v, m)[k] == Some(v.standbyAddrs[Positions(v, m)[k]])
    decreases m
  {
    hide Routed, TakeStandby, Take;
    PickGoes(v);
    if k > 0 {
      PickedIs(Take(v, StandbyRole).0, m - 1, k - 1);
    } else if m > 1 {
      PickedIs(Take(v, StandbyRole).0, m - 1, 0);
    }
  }

  lemma {:induction false} CountIsHits(v: PoolView, m: nat, p: nat)
    requires Routed(v) && Distinct(v.standbyAddrs) && p < |v.standbyAddrs|
    ensures Count(Picked(v, m), v.standbyAddrs[p]) == Hits(Positions(v, m), p)
    decreases m
  {
    hide Routed, TakeStandby, Take;
    if m > 0 {
      PickGoes(v);
      var v' := Take(v, StandbyRole).0;
      CountIsHits(v', m - 1, p);
      assert Picked(v, m)[1..] == Picked(v', m - 1) && Positions(v, m)[1..] == Positions(v', m - 1);
      var q := v.rrIndex % |v.standbyAddrs|;
      assert v.standbyAddrs[q] == v.standbyAddrs[p] <==> q == p;
    }
  }

  // ---- List positions.

  // The list positions that m standby acquires in a row ask for.
  function Positions(v: PoolView, m: nat): seq<nat>
    requires v.standbyAddrs != []
    decreases m
  {
    if m == 0 then [] else [v.rrIndex % |v.standbyAddrs|] + Positions(TakeStandby(v).0, m - 1)
  }

  function Hits(ps: seq<nat>, p: nat): nat {
    if ps == [] then 0 else (if ps[0] == p then 1 else 0) + Hits(ps[1..], p)
  }

  // How many numbers below x have remainder p: one per full block, and maybe one more.
  function CountBelow(x: nat, p: nat, n: nat): nat
    requires p < n
  {
    x / n + if p < x % n then 1 else 0
  }

  // Division by its defining property.
  lemma DivIs(x: nat, q: nat, r: nat, n: nat)
    requires n > 0 && r < n && x == q * n + r
    ensures x / n == q && x % n == r
  {
    var d := x / n - q;
    assert d * n == r - x % n;
    NoSmallMultiple(d, n);
  }

  lemma NoSmallMultiple(d: int, n: int)
    requires 0 < n && -n < d * n < n
    ensures d == 0
  {
    assert d >= 1 ==> d * n >= n;
    assert d <= -1 ==> d * n <= -n;
  }

  // Quotient and remainder of a sum.
  lemma SumDivMod(a: nat, m: nat, n: nat)
    requires n > 0
    ensures var r := a % n + m % n;
            if r < n then (a + m) / n == a / n + m / n && (a + m) % n == r
            else (a + m) / n == a / n + m / n + 1 && (a + m) % n == r - n
  {
    var q, t, r := a / n, m / n, a % n + m % n;
    SumOf(a, m, q, t, a % n, m % n, n);
    if r < n {
      DivIs(a + m, q + t, r, n);
    } else {
      Distribute(q + t, 1, n);
      DivIs(a + m, q + t + 1, r - n, n);
    }
  }

  lemma SumOf(a: nat, m: nat, q: nat, t: nat, ra: nat, rm: nat, n: nat)
    requires a == q * n + ra && m == t * n + rm
    ensures a + m == (q + t) * n + (ra + rm)
  {
    Distribute(q, t, n);
  }

  lemma Distribute(a: nat, b: nat, n: nat)
    ensures (a + b) * n == a * n + b * n
  {
  }

  lemma CountStep(x: nat, p: nat, n: nat)
    requires p < n
    ensures CountBelow(x + 1, p, n) == CountBelow(x, p, n) + if x % n == p then 1 else 0
  {
    SumDivMod(x, 1, n);
    if n > 1 {
      DivIs(1, 0, 1, n);
    }
  }

  lemma CountWindow(x: nat, m: nat, p: nat, n: nat)
    requires p < n
    ensures m / n <= CountBelow(x + m, p, n) - CountBelow(x, p, n) <= m / n + (if m % n == 0 then 0 else 1)
  {
    SumDivMod(x, m, n);
  }

  lemma NextPosition(v: PoolView)
    requires v.standbyAddrs != []
    ensures TakeStandby(v).0.standbyAddrs == v.standbyAddrs && TakeStandby(v).0.rrIndex == Bump(v.rrIndex)
  {
  }

  // Numbers with the same remainder keep it, counting on; so does a counter that wraps
  // round at a multiple of n.
  lemma NextRemainder(x: nat, y: nat, n: nat)
    requires n > 0 && x % n == y % n && y < USIZE && (USIZE % n == 0 || y + 1 < USIZE)
    ensures (x + 1) % n == Bump(y) % n
  {
    SumDivMod(x, 1, n);
    SumDivMod(y, 1, n);
  }

  // The counter never wraps round during m acquires, or does so without a jump.
  predicate Smooth(v: PoolView, m: nat)
    requires v.standbyAddrs != []
  {
    v.rrIndex < USIZE && (v.rrIndex + m <= USIZE || USIZE % |v.standbyAddrs| == 0)
  }

  // The hits are those of a counter without bound that starts at x.
  lemma {:induction false} HitsAreCounts(v: PoolView, m: nat, p: nat, x: nat)
    requires v.standbyAddrs != [] && p < |v.standbyAddrs| && Smooth(v, m)
    requires x % |v.standbyAddrs| == v.rrIndex % |v.standbyAddrs|
    ensures var n := |v.standbyAddrs|;
            Hits(Positions(v, m), p) == CountBelow(x + m, p, n) - CountBelow(x, p, n)
    decreases m
  {
    hide CountBelow, TakeStandby;
    var n := |v.standbyAddrs|;
    if m > 0 {
      NextPosition(v);
      CountStep(x, p, n);
      if m > 1 {
        NextRemainder(x, v.rrIndex, n);
        HitsAreCounts(TakeStandby(v).0, m - 1, p, x + 1);
      }
      assert Positions(v, m)[1..] == Positions(TakeStandby(v).0, m - 1);
    }
  }

  // Of m acquires in a row, the standby at list position p gets its share: m/n, rounded
  // down or up.
  predicate Balanced(v: PoolView, m: nat, p: nat)
    requires p < |v.standbyAddrs|
  {
    var n, hits := |v.standbyAddrs|, Count(Picked(v, m), v.standbyAddrs[p]);
    m / n <= hits <= m / n + (if m % n == 0 then 0 else 1)
  }

  // Round-robin balance over a fixed list of standbys.
  lemma RoundRobinBalance(v: PoolView, m: nat, p: nat)
    requires Routed(v) && Distinct(v.standbyAddrs) && p < |v.standbyAddrs| && Smooth(v, m)
    ensures Balanced(v, m, p)
  {
    hide Routed, Picked, Positions, CountBelow;
    CountIsHits(v, m, p);
    HitsAreCounts(v, m, p, v.rrIndex);
    CountWindow(v.rrIndex, m, p, |v.standbyAddrs|);
  }

  lemma {:induction false} PositionAt(v: PoolView, m: nat, k: nat)
    requires v.standbyAddrs != [] && k < m && v.rrIndex + m <= USIZE
    ensures |Positions(v, m)| == m && Positions(v, m)[k] == (v.rrIndex + k) % |v.standbyAddrs|
    decreases m
  {
    hide TakeStandby;
    NextPosition(v);
    if k > 0 {
      PositionAt(TakeStandby(v).0, m - 1, k - 1);
    } else if m > 1 {
      PositionAt(TakeStandby(v).0, m - 1, 0);
    }
  }

  // After a topology change acquires go through the list from its beginning.
  lemma FreshStart(v: PoolView, leader: Option<string>, standbys: seq<string>, m: nat, k: nat)
    requires Routed(v) && standbys != [] && k < m <= USIZE
    ensures Picked(WithTopology(v, leader, standbys), m)[k] == Some(standbys[k % |standbys|])
  {
    var v' := WithTopology(v, leader, standbys);
    PickedIs(v', m, k);
    PositionAt(v', m, k);
  }

  // The acquire behind the counter's end asks for the list's first position again.
  lemma {:induction false} WrapHit(v: PoolView, k: nat)
    requires v.standbyAddrs != [] && 0 < k <= USIZE && v.rrIndex == USIZE - k
    ensures Hits(Positions(v, k + 1), 0) == Hits(Positions(v, k), 0) + 1
    decreases k
  {
    hide TakeStandby;
    NextPosition(v);
    var v' := TakeStandby(v).0;
    assert Positions(v, k + 1)[1..] == Positions(v', k) && Positions(v, k)[1..] == Positions(v', k - 1);
    if k == 1 {
      assert Positions(v', 1) == [0];
      assert Hits([0], 0) == 1;
    } else {
      WrapHit(v', k - 1);
    }
  }

  // The unfinished block below x starts at a multiple of n, with one number of remainder 0.
  lemma LastBlock(x: nat, n: nat)
    requires n > 0 && x % n != 0
    ensures x - x % n >= 0 && CountBelow(x, 0, n) == CountBelow(x - x % n, 0, n) + 1
  {
    DivIs(x - x % n, x / n, 0, n);
  }

  // n different addresses.
  function Names(n: nat): (r: seq<string>)
    ensures |r| == n && Distinct(r)
  {
    seq(n, i requires 0 <= i => seq(i, _ => 'x'))
  }

  // With a counter about to wrap round in the middle of the list, the first standby is
  // asked twice within one round.
  lemma UnfairWrap(n: nat) returns (v: PoolView, m: nat)
    requires n > 0 && USIZE % n != 0
    ensures |v.standbyAddrs| == n && Distinct(v.standbyAddrs) && Routed(v) && v.rrIndex < USIZE && !Balanced(v, m, 0)
  {
    hide CountBelow, Positions, Hits, Picked, Names;
    var r := USIZE % n;
    v := PoolView(None, Names(n), USIZE - r, [], map[], 0, 0);
    m := r + 1;
    LastBlock(USIZE, n);
    HitsAreCounts(v, r, 0, USIZE - r);
    WrapHit(v, r);
    CountIsHits(v, m, 0);
    if m < n {
      DivIs(m, 0, m, n);
    } else {
      DivIs(m, 1, 0, n);
    }
  }

  // Every standby gets its share in every window, wherever the 64-bit counter stands,
  // exactly if the number of standbys divides 2^64.
  lemma AlwaysBalancedIff(n: nat)
    requires n > 0
    ensures (forall v: PoolView, m: nat, p: nat :: Listing(v, n) && p < n ==> Balanced(v, m, p)) <==> USIZE % n == 0
  {
    hide Balanced;
    if USIZE % n == 0 {
      forall v: PoolView, m: nat, p: nat | Listing(v, n) && p < n
        ensures Balanced(v, m, p)
      {
        RoundRobinBalance(v, m, p);
      }
    } else {
      var v, m := UnfairWrap(n);
      assert Listing(v, n);
    }
  }

  // A pool that follows a topology of n different standbys.
  ghost predicate Listing(v: PoolView, n: nat) {
    |v.standbyAddrs| == n && Distinct(v.standbyAddrs) && Routed(v) && v.rrIndex < USIZE
  }
}
