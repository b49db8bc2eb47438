/**
 Which consumer a subscription serves next (internal/broker/delivery.go), as functions of the
 consumers' permits and priorities in list order.
 */
module Selection {
  import opened Basics
  import opened Tables

  /** The round-robin scan from position rr on, after i consumers were passed over. */
  function ScanFrom(permits: seq<int>, rr: nat, i: nat): (k: Option<nat>)
    ensures k.Some? ==> k.value < |permits| && permits[k.value] > 0
    decreases |permits| - i
  {
    if i >= |permits| then None
    else
      var idx := (rr + i) % |permits|;
      if permits[idx] > 0 then Some(idx) else ScanFrom(permits, rr, i + 1)
  }

  function NextShared(permits: seq<int>, rr: nat): Option<nat> {
    ScanFrom(permits, rr, 0)
  }

  /** Where the scan starts after serving consumer k of n. */
  function After(k: nat, n: nat): nat
    requires n > 0
  {
    (k + 1) % n
  }

  ghost predicate IsPrimary(priorities: seq<int>, k: nat) {
    k < |priorities|
    && (forall j | 0 <= j < |priorities| :: priorities[j] <= priorities[k])
    && (forall j | 0 <= j < k :: priorities[j] < priorities[k])
  }

  /** The first consumer of maximal priority. */
  function Primary(priorities: seq<int>): (k: nat)
    requires priorities != []
    ensures IsPrimary(priorities, k)
  {
    if |priorities| == 1 then 0
    else
      var last := |priorities| - 1;
      var k := Primary(priorities[..last]);
      if priorities[last] > priorities[k] then last else k
  }

  lemma PrimaryUnique(priorities: seq<int>, k: nat)
    requires IsPrimary(priorities, k)
    ensures Primary(priorities) == k
  {
    var j := Primary(priorities);
    assert priorities[j] <= priorities[k] && priorities[k] <= priorities[j];
  }

  /** selectConsumerWithPermits: the consumer to serve, by list position. */
  function Pick(kind: SubType, permits: seq<int>, priorities: seq<int>, rr: nat): (k: Option<nat>)
    requires |permits| == |priorities|
    ensures k.Some? ==> k.value < |permits| && permits[k.value] > 0
  {
    if permits == [] then None
    else match kind
      case Shared => NextShared(permits, rr)
      case Exclusive => if permits[0] > 0 then Some(0) else None
      case Failover => var k := Primary(priorities); if permits[k] > 0 then Some(k) else None
  }

  /** The consumer of highest priority among those that have permits. */
  ghost predicate BestPermitted(permits: seq<int>, priorities: seq<int>, k: nat)
    requires |permits| == |priorities|
  {
    k < |permits| && permits[k] > 0 && forall j | 0 <= j < |permits| && permits[j] > 0 :: priorities[j] <= priorities[k]
  }

  ghost predicate NobodyPermitted(permits: seq<int>) {
    forall j | 0 <= j < |permits| :: permits[j] <= 0
  }

  /** The documented rule: the highest-priority permitted consumer is served, and nobody only if nobody is permitted. */
  ghost predicate AsDocumented(permits: seq<int>, priorities: seq<int>, picked: Option<nat>)
    requires |permits| == |priorities|
  {
    match picked
    case Some(k) => BestPermitted(permits, priorities, k)
    case None => NobodyPermitted(permits)
  }

  /**
   Failover follows that rule exactly when the first consumer of highest priority has permits, or
   nobody has; otherwise delivery waits for that consumer while others could be served.
   */
  lemma FailoverWaitsForPrimary(permits: seq<int>, priorities: seq<int>, rr: nat)
    requires |permits| == |priorities| > 0
    ensures AsDocumented(permits, priorities, Pick(Failover, permits, priorities, rr))
       <==> permits[Primary(priorities)] > 0 || NobodyPermitted(permits)
  {
  }

  /** A primary without permits holds up a backup that has one. */
  lemma FailoverCanWait()
    ensures !AsDocumented([0, 1], [5, 1], Pick(Failover, [0, 1], [5, 1], 0))
  {
    PrimaryUnique([5, 1], 0);
    assert [0, 1][1] > 0;
  }

  function Sum(xs: seq<int>): int {
    if xs == [] then 0 else xs[0] + Sum(xs[1..])
  }

  /** How many messages the subscription's consumers may take before someone grants more. */
  function Capacity(kind: SubType, permits: seq<int>, priorities: seq<int>): int
    requires |permits| == |priorities|
  {
    if permits == [] then 0
    else match kind
      case Shared => Sum(permits)
      case Exclusive => permits[0]
      case Failover => permits[Primary(priorities)]
  }

  lemma {:induction false} SumUpdate(xs: seq<int>, k: nat, v: int)
    requires k < |xs|
    ensures Sum(xs[k := v]) == Sum(xs) - xs[k] + v
  {
    if k == 0 {
      assert xs[k := v][1..] == xs[1..];
    } else {
      assert xs[k := v][1..] == xs[1..][k - 1 := v];
      SumUpdate(xs[1..], k - 1, v);
    }
  }

  lemma {:induction false} SumPositive(xs: seq<int>)
    requires forall x | x in xs :: x >= 0
    ensures Sum(xs) >= 0
    ensures Sum(xs) == 0 <==> forall i | 0 <= i < |xs| :: xs[i] == 0
  {
    if xs == [] {
    } else {
      assert xs[0] in xs;
      forall x | x in xs[1..] ensures x >= 0 { assert x in xs; }
      SumPositive(xs[1..]);
      if forall i | 0 <= i < |xs[1..]| :: xs[1..][i] == 0 {
        assert forall i | 1 <= i < |xs| :: xs[i] == xs[1..][i - 1];
      }
    }
  }

  // ---------- the round-robin scan ----------

  lemma MulDrop(x: nat, q: nat, n: nat)
    requires n > 0
    ensures (n * q + x) % n == x % n
    decreases q
  {
    if q == 0 {
    } else {
      MulDrop(x, q - 1, n);
      var y := n * (q - 1) + x;
      assert n * q + x == y + n;
      assert (y + n) % n == y % n by { AddOnce(y, n); }
    }
  }

  lemma AddOnce(y: nat, n: nat)
    requires n > 0
    ensures (y + n) % n == y % n
  {
    var q, r := y / n, y % n;
    assert y == n * q + r;
    assert y + n == n * (q + 1) + r;
    DivisionUnique(y + n, q + 1, r, n);
  }

  lemma ModShift(a: nat, b: nat, n: nat)
    requires n > 0
    ensures (a % n + b) % n == (a + b) % n
  {
    var q, r := a / n, a % n;
    assert a == n * q + r;
    MulDrop(r + b, q, n);
  }

  /** The scan passes over nobody with permits: it stops at the first such position, and fails only if there is none. */
  lemma {:induction false} ScanStopsFirst(permits: seq<int>, rr: nat, i: nat, d: nat) returns (j: nat)
    requires i <= d < |permits| && permits[(rr + d) % |permits|] > 0
    ensures i <= j <= d && ScanFrom(permits, rr, i) == Some((rr + j) % |permits|)
    decreases d - i
  {
    if permits[(rr + i) % |permits|] > 0 {
      j := i;
    } else {
      j := ScanStopsFirst(permits, rr, i + 1, d);
    }
  }

  /** Cyclic distance from the scan position to consumer k. */
  function Distance(rr: nat, k: nat, n: nat): (d: nat)
    requires k < n
    ensures d < n
  {
    var r := rr % n;
    if k >= r then k - r else k + n - r
  }

  lemma DistanceReaches(rr: nat, k: nat, n: nat)
    requires k < n
    ensures (rr + Distance(rr, k, n)) % n == k
  {
    var r := rr % n;
    ModShift(rr, Distance(rr, k, n), n);
    if k >= r {
      DivisionUnique(k, 0, k, n);
    } else {
      DivisionUnique(k + n, 1, k, n);
    }
  }

  lemma DistanceIs(rr: nat, d: nat, n: nat)
    requires d < n
    ensures Distance(rr, (rr + d) % n, n) == d
  {
    var r := rr % n;
    ModShift(rr, d, n);
    if r + d < n { DivisionUnique(r + d, 0, r + d, n); } else { DivisionUnique(r + d, 1, r + d - n, n); }
  }

  /** Selection fails exactly when nobody has permits, wherever rr points, even past the end of a shortened list. */
  lemma NextSharedFails(permits: seq<int>, rr: nat)
    ensures NextShared(permits, rr).None? <==> forall k | 0 <= k < |permits| :: permits[k] <= 0
  {
    if k :| 0 <= k < |permits| && permits[k] > 0 {
      DistanceReaches(rr, k, |permits|);
      var _ := ScanStopsFirst(permits, rr, 0, Distance(rr, k, |permits|));
    }
  }

  lemma DistanceFalls(rr: nat, j: nat, d: nat, k: nat, n: nat)
    requires j < d < n && (rr + d) % n == k
    ensures Distance(After((rr + j) % n, n), k, n) == d - j - 1
  {
    var x, e := rr + j, d - j - 1;
    var next := After(x % n, n);
    assert next == (x + 1) % n by { ModShift(x, 1, n); }
    assert (next + e) % n == k by {
      ModShift(x + 1, e, n);
      assert x + 1 + e == rr + d;
    }
    DistanceIs(next, e, n);
  }

  /** A selection either serves a waiting consumer or brings the scan strictly closer to it. */
  lemma SelectionApproaches(permits: seq<int>, rr: nat, k: nat)
    requires k < |permits| && permits[k] > 0
    ensures var n := |permits|;
            var p := NextShared(permits, rr);
      p.Some? && (p.value != k ==> Distance(After(p.value, n), k, n) < Distance(rr, k, n))
  {
    var n := |permits|;
    var d := Distance(rr, k, n);
    DistanceReaches(rr, k, n);
    var j := ScanStopsFirst(permits, rr, 0, d);
    if j < d { DistanceFalls(rr, j, d, k, n); }
  }

  /** The consumers served by successive selections, permits changing arbitrarily in between. */
  function Served(rounds: seq<seq<int>>, rr: nat): seq<Option<nat>> {
    if rounds == [] then []
    else
      var p := NextShared(rounds[0], rr);
      [p] + Served(rounds[1..], if p.Some? then After(p.value, |rounds[0]|) else rr)
  }

  /** Bounded waiting: with n consumers in the list, one that keeps permits is served within n selections. */
  lemma {:induction false} ServedWithinARound(rounds: seq<seq<int>>, rr: nat, k: nat, n: nat)
    requires k < n && |rounds| > Distance(rr, k, n)
    requires forall r | r in rounds :: |r| == n && r[k] > 0
    ensures exists t :: 0 <= t <= Distance(rr, k, n) && t < |Served(rounds, rr)| && Served(rounds, rr)[t] == Some(k)
    decreases |rounds|
  {
    var permits := rounds[0];
    assert permits in rounds;
    SelectionApproaches(permits, rr, k);
    var p := NextShared(permits, rr);
    var all := Served(rounds, rr);
    if p.value == k {
      assert all[0] == Some(k);
    } else {
      var next := After(p.value, n);
      forall r | r in rounds[1..] ensures |r| == n && r[k] > 0 { assert r in rounds; }
      ServedWithinARound(rounds[1..], next, k, n);
      var t :| 0 <= t <= Distance(next, k, n)
                 && t < |Served(rounds[1..], next)| && Served(rounds[1..], next)[t] == Some(k);
      assert all == [p] + Served(rounds[1..], next);
      assert all[t + 1] == Some(k);
    }
  }

  // ---------- capacity ----------

  /** Somebody is picked exactly when the capacity is positive. */
  lemma PickNeedsCapacity(kind: SubType, permits: seq<int>, priorities: seq<int>, rr: nat)
    requires |permits| == |priorities| && forall x | x in permits :: x >= 0
    ensures Capacity(kind, permits, priorities) >= 0
    ensures Pick(kind, permits, priorities, rr).None? <==> Capacity(kind, permits, priorities) == 0
  {
    if permits != [] {
      assert permits[0] in permits && permits[Primary(priorities)] in permits;
      SumPositive(permits);
      NextSharedFails(permits, rr);
      forall k | 0 <= k < |permits| ensures permits[k] >= 0 { assert permits[k] in permits; }
    }
  }

  /** Serving the picked consumer once uses one unit of capacity. */
  lemma ServingUsesCapacity(kind: SubType, permits: seq<int>, priorities: seq<int>, k: nat, used: nat)
    requires |permits| == |priorities| && k < |permits|
    requires kind == Exclusive ==> k == 0
    requires kind == Failover ==> k == Primary(priorities)
    ensures Capacity(kind, permits[k := permits[k] - used], priorities) == Capacity(kind, permits, priorities) - used
  {
    SumUpdate(permits, k, permits[k] - used);
  }
}
