/**
 Claiming in order: the cursor and the pending rows together behave like one sorted list of
 available ids that claims take from the front and requeues put back.
 */
module Claims {
  import opened Basics
  import opened TopicNames
  import opened Tables
  import opened Ledger
  import NoLoss

  /** The simple form: what the next claims will hand out, in order. */
  function Queue(db: Db, s: Sub): seq<int>
    requires s in db.cursors
  {
    Sorted(Available(db, s))
  }

  lemma FrontAndTail(q: seq<int>, k: nat, x: int)
    requires Ascending(q) && k <= |q|
    ensures x in q[k..] <==> x in q && x !in q[..k]
  {
    assert q == q[..k] + q[k..];
    if x in q[k..] {
      var j :| 0 <= j < |q| - k && q[k..][j] == x;
      assert q[k + j] == x;
      forall i | 0 <= i < k ensures q[..k][i] != x { assert q[i] < q[k + j]; }
    }
  }

  lemma TailOfSorted(q: seq<int>, k: nat, rest: set<int>)
    requires Ascending(q) && k <= |q|
    requires forall x :: x in rest <==> x in q && x !in q[..k]
    ensures Sorted(rest) == q[k..]
  {
    forall x ensures x in Sorted(rest) <==> x in q[k..] { FrontAndTail(q, k, x); }
    AscendingUnique(Sorted(rest), q[k..]);
  }

  /** What claiming leaves available: the rest of the selection. */
  lemma AvailableAfterClaim(db: Db, s: Sub, consumer: int, ids: seq<int>, now: int)
    requires s in db.cursors && forall id | id in ids :: id in Available(db, s)
    requires forall id | id in Available(db, s) && ids != [] && id <= ids[|ids| - 1] :: id in ids
    requires Ascending(ids)
    ensures var d := ClaimRows(db, s, consumer, ids, now);
      s in d.cursors && forall id :: id in Available(d, s) <==> id in Available(db, s) && id !in ids
  {
    if ids != [] {
      var last := ids[|ids| - 1];
      assert last in ids && last in Available(db, s);
      forall id | id in ids ensures id <= last {
        var k :| 0 <= k < |ids| && ids[k] == id;
      }
    }
  }

  lemma OthersAfterClaim(db: Db, s: Sub, consumer: int, ids: seq<int>, now: int, r: Sub)
    requires r in db.cursors && r != s
    ensures var d := ClaimRows(db, s, consumer, ids, now);
      r in d.cursors && Available(d, r) == Available(db, r)
  {
    var d := ClaimRows(db, s, consumer, ids, now);
    forall id ensures Slot(r, id) in d.pending <==> Slot(r, id) in db.pending {}
  }

  lemma TouchChangesNoQueue(db: Db, s: Sub, now: int)
    requires s in db.subs && s in db.cursors
    ensures EnsureCursor(TouchSub(db, s, now), s) == TouchSub(db, s, now)
    ensures forall r | r in db.cursors :: Available(TouchSub(db, s, now), r) == Available(db, r)
  {
  }

  /** A claim takes exactly the front of the queue, in order, whatever consumer asks. */
  lemma ClaimTakesFront(db: Db, s: Sub, consumer: int, limit: int, now: int)
    requires s in db.subs && s in db.cursors
    ensures var (d, ids) := ClaimBatch(db, s, consumer, limit, now);
            var q := Queue(db, s);
            var k := if 0 <= limit <= |q| then limit else |q|;
      s in d.subs && s in d.cursors && ids == q[..k] && Queue(d, s) == q[k..]
  {
    TouchChangesNoQueue(db, s, now);
    var e := TouchSub(db, s, now);
    var ids := Selected(e, s, limit);
    NoLoss.SelectedAvailable(e, s, limit);
    NoLoss.SelectedIsPrefix(e, s, limit);
    AvailableAfterClaim(e, s, consumer, ids, now);
    var q := Queue(db, s);
    var k := if 0 <= limit <= |q| then limit else |q|;
    var d := ClaimRows(e, s, consumer, ids, now);
    assert ids == q[..k];
    TailOfSorted(q, k, Available(d, s));
  }

  /** Every other subscription's queue is untouched, and the claimed rows are the consumer's. */
  lemma ClaimIsLocal(db: Db, s: Sub, consumer: int, limit: int, now: int)
    requires s in db.subs && s in db.cursors
    ensures var (d, ids) := ClaimBatch(db, s, consumer, limit, now);
      && (forall id | id in ids :: Slot(s, id) in d.pending && d.pending[Slot(s, id)] == Holder(consumer, now))
      && (forall r | r in db.cursors && r != s :: r in d.cursors && Queue(d, r) == Queue(db, r))
  {
    TouchChangesNoQueue(db, s, now);
    var e := TouchSub(db, s, now);
    NoLoss.SelectedAvailable(e, s, limit);
    var ids := Selected(e, s, limit);
    forall r | r in db.cursors && r != s
      ensures r in ClaimRows(e, s, consumer, ids, now).cursors
      ensures Queue(ClaimRows(e, s, consumer, ids, now), r) == Queue(db, r)
    {
      OthersAfterClaim(e, s, consumer, ids, now, r);
    }
  }

  /** One claim of a series: who asks, for how many, and when. */
  datatype Ask = Ask(consumer: int, limit: nat, now: int)

  function ClaimSeries(db: Db, s: Sub, asks: seq<Ask>): (Db, seq<int>)
    decreases |asks|
  {
    if asks == [] || s !in db.subs then (db, [])
    else
      var (d, ids) := ClaimBatch(db, s, asks[0].consumer, asks[0].limit, asks[0].now);
      var (e, more) := ClaimSeries(d, s, asks[1..]);
      (e, ids + more)
  }

  function Total(asks: seq<Ask>): nat {
    if asks == [] then 0 else asks[0].limit + Total(asks[1..])
  }

  lemma TakeTwice(q: seq<int>, a: nat, b: nat)
    ensures var k := Min(a, |q|); q[..k] + q[k..][..Min(b, |q[k..]|)] == q[..Min(a + b, |q|)]
  {
  }

  /** A series of claims hands out the first Total ids of the queue: chunk sizes and consumers do not matter. */
  lemma {:induction false} SeriesTakesFront(db: Db, s: Sub, asks: seq<Ask>)
    requires s in db.subs && s in db.cursors
    ensures ClaimSeries(db, s, asks).1 == Queue(db, s)[..Min(Total(asks), |Queue(db, s)|)]
    decreases |asks|
  {
    hide ClaimBatch, Queue;
    if asks == [] {
    } else {
      var a := asks[0];
      ClaimTakesFront(db, s, a.consumer, a.limit, a.now);
      var d := ClaimBatch(db, s, a.consumer, a.limit, a.now).0;
      SeriesTakesFront(d, s, asks[1..]);
      TakeTwice(Queue(db, s), a.limit, Total(asks[1..]));
    }
  }

  /** An acknowledgement removes exactly the asking consumer's own rows that it names, and moves no cursor. */
  lemma AckRemovesExactly(db: Db, op: Op, k: Slot)
    requires op.AckIds? || op.AckUpTo?
    ensures k in Apply(db, op).pending <==>
      k in db.pending && !(k.sub == SubOf(db, op.topic, op.name) && db.pending[k].consumer == op.consumer
                           && if op.AckIds? then k.id in op.ids else k.id <= op.maxId)
    ensures Apply(db, op) == db.(pending := Apply(db, op).pending)
  {
  }

  // ---------- over a run ----------

  function Trace(db: Db, ops: seq<Op>): (t: seq<Db>)
    ensures |t| == |ops| + 1 && t[0] == db
    decreases |ops|
  {
    if ops == [] then [db] else [db] + Trace(Apply(db, ops[0]), ops[1..])
  }

  lemma {:induction false} TraceSteps(db: Db, ops: seq<Op>, k: nat)
    requires k < |ops| && NoLoss.Reachable(db)
    ensures Trace(db, ops)[k + 1] == Apply(Trace(db, ops)[k], ops[k])
    ensures NoLoss.Reachable(Trace(db, ops)[k]) && NoLoss.Reachable(Trace(db, ops)[k + 1])
    decreases k
  {
    NoLoss.ReachableStep(db, ops[0]);
    if k == 0 {
    } else {
      TraceSteps(Apply(db, ops[0]), ops[1..], k - 1);
    }
  }

  /** The ids an operation hands out for a subscription. */
  function Claimed(db: Db, op: Op, s: Sub): seq<int> {
    if op.Claim? && SubOf(db, op.topic, op.name) == s && s in db.subs
    then ClaimBatch(db, s, op.consumer, op.limit, op.now).1
    else []
  }

  ghost predicate Passed(db: Db, s: Sub, id: int) {
    s in db.cursors && db.cursors[s] > id
  }

  lemma ClaimPasses(db: Db, op: Op, s: Sub, id: int)
    requires db.cursors.Keys == db.subs.Keys && id in Claimed(db, op, s)
    ensures s in db.cursors && id in Available(db, s) && !Passed(db, s, id) && Passed(Apply(db, op), s, id)
  {
    ClaimAdvances(db, s, op.consumer, op.limit, op.now);
    TouchChangesNoQueue(db, s, op.now);
    NoLoss.SelectedAvailable(TouchSub(db, s, op.now), s, op.limit);
  }

  lemma {:induction false} Crossing(t: seq<Db>, i: nat, j: nat, s: Sub, id: int)
    requires i <= j < |t| && Passed(t[i], s, id) && !Passed(t[j], s, id)
    ensures exists k :: i <= k < j && Passed(t[k], s, id) && !Passed(t[k + 1], s, id)
    decreases j - i
  {
    if Passed(t[i + 1], s, id) {
      Crossing(t, i + 1, j, s, id);
    } else {
      assert i <= i < j && Passed(t[i], s, id) && !Passed(t[i + 1], s, id);
    }
  }

  /**
   Between two claims of one id for a subscription, some step moved its cursor from past the id
   back to it or before.
   */
  lemma ReclaimNeedsRewind(db: Db, ops: seq<Op>, i: nat, j: nat, s: Sub, id: int)
    requires NoLoss.Reachable(db) && i < j < |ops|
    requires id in Claimed(Trace(db, ops)[i], ops[i], s) && id in Claimed(Trace(db, ops)[j], ops[j], s)
    ensures exists k :: i < k < j && Passed(Trace(db, ops)[k], s, id) && !Passed(Trace(db, ops)[k + 1], s, id)
  {
    var t := Trace(db, ops);
    TraceSteps(db, ops, i);
    TraceSteps(db, ops, j);
    NoLoss.CursorsMatchSubs(t[i]);
    NoLoss.CursorsMatchSubs(t[j]);
    ClaimPasses(t[i], ops[i], s, id);
    ClaimPasses(t[j], ops[j], s, id);
    Crossing(t, i + 1, j, s, id);
  }

  /** Some held row of the subscription, at or before the id, is freed. */
  ghost predicate Freed(db: Db, d: Db, s: Sub, id: int) {
    exists k :: k <= id && Slot(s, k) in db.pending && Slot(s, k) !in d.pending
  }

  lemma FreedByExpiry(db: Db, cutoff: int, s: Sub, id: int)
    requires Passed(db, s, id) && !Passed(ExpirePending(db, cutoff), s, id)
    ensures Freed(db, ExpirePending(db, cutoff), s, id)
  {
    var late := ExpiredIds(db.pending, s, cutoff);
    var k := Least(late);
    assert k <= id && Slot(s, k) in db.pending && Slot(s, k) !in ExpirePending(db, cutoff).pending;
  }

  lemma SubscribeKeepsCursors(db: Db, op: Op, s: Sub)
    requires db.cursors.Keys == db.subs.Keys && op.Subscribe? && s in db.cursors
    ensures s in Apply(db, op).cursors && Apply(db, op).cursors[s] == db.cursors[s]
  {
    NoLoss.SubscribeCases(db, Book(map[], map[], map[]), op);
  }

  lemma OthersDoNotRewind(db: Db, op: Op, s: Sub, id: int)
    requires Passed(db, s, id)
    requires op.Insert? || op.AckIds? || op.AckUpTo? || op.Touch? || op.DropConsumed? || op.DropOrphaned?
          || op.DropEmptyTopics? || op.Restart?
    ensures Passed(Apply(db, op), s, id)
  {
  }

  lemma RequeueFrees(db: Db, op: Op, s: Sub, id: int)
    requires NoLoss.Reachable(db) && Passed(db, s, id) && !Passed(Apply(db, op), s, id)
    requires op.Drop? || op.Redeliver? || op.Expire?
    ensures Freed(db, Apply(db, op), s, id)
  {
    match op
    case Drop(n, name, consumer) =>
      var r := SubOf(db, n, name);
      NoLoss.ReachableDrop(db, r, consumer);
      FreedByRequeue(db, r, HeldBy(db.pending, r, consumer), s, id);
    case Redeliver(n, name, consumer, ids) =>
      var r := SubOf(db, n, name);
      FreedByRequeue(db, r, RedeliveredIds(db.pending, r, consumer, ids), s, id);
    case Expire(cutoff) => FreedByExpiry(db, cutoff, s, id);
  }

  /**
   Only three things rewind: freeing a held row at or before the id, a seek to it or before, and
   dropping the subscription.
   */
  lemma RewindHasCause(db: Db, op: Op, s: Sub, id: int)
    requires NoLoss.Reachable(db) && Passed(db, s, id) && !Passed(Apply(db, op), s, id)
    ensures
      || ((op.Drop? || op.Redeliver? || op.Expire?) && Freed(db, Apply(db, op), s, id))
      || (op.Seek? && SubOf(db, op.topic, op.name) == s && Max(op.next, 1) <= id)
      || (op.DropStale? && s in StaleSubs(db, op.ns, op.cutoff))
  {
    NoLoss.CursorsMatchSubs(db);
    match op
    case Drop(_, _, _) | Redeliver(_, _, _, _) | Expire(_) => RequeueFrees(db, op, s, id);
    case Claim(n, name, consumer, limit, now) =>
      if SubOf(db, n, name) == s && s in db.subs { ClaimAdvances(db, s, consumer, limit, now); }
    case Subscribe(_, _, _, _, _, _) => SubscribeKeepsCursors(db, op, s);
    case RepairRows(ns) => NoLoss.ReachableRepair(db, ns);
    case Seek(_, _, _) =>
    case DropStale(_, _) =>
    case _ => OthersDoNotRewind(db, op, s, id);
  }

  lemma FreedByRequeue(db: Db, r: Sub, gone: set<int>, s: Sub, id: int)
    requires Passed(db, s, id) && !Passed(Requeue(db, r, gone), s, id)
    requires forall k | k in gone :: Slot(r, k) in db.pending
    ensures Freed(db, Requeue(db, r, gone), s, id)
  {
    var k := Least(gone);
    assert r == s && k <= id && Slot(s, k) in db.pending && Slot(s, k) !in Requeue(db, r, gone).pending;
  }

  lemma ClaimAdvances(db: Db, s: Sub, consumer: int, limit: int, now: int)
    requires s in db.subs && s in db.cursors
    ensures var (d, ids) := ClaimBatch(db, s, consumer, limit, now);
      && Ascending(ids) && s in d.cursors && db.cursors[s] <= d.cursors[s]
      && (forall id | id in ids :: db.cursors[s] <= id < d.cursors[s])
  {
    TouchChangesNoQueue(db, s, now);
    var e := TouchSub(db, s, now);
    var ids := Selected(e, s, limit);
    NoLoss.SelectedAvailable(e, s, limit);
    if ids != [] {
      var last := ids[|ids| - 1];
      assert last in ids;
      forall id | id in ids ensures db.cursors[s] <= id <= last {
        var k :| 0 <= k < |ids| && ids[k] == id;
      }
    }
  }

  /** No step of the run moves the subscription's cursor back. */
  ghost predicate Forward(db: Db, ops: seq<Op>, s: Sub)
    decreases |ops|
  {
    s in db.cursors &&
    (ops != [] ==>
      var d := Apply(db, ops[0]);
      s in d.cursors && db.cursors[s] <= d.cursors[s] && Forward(d, ops[1..], s))
  }

  function AllClaimed(db: Db, ops: seq<Op>, s: Sub): seq<int>
    decreases |ops|
  {
    if ops == [] then [] else Claimed(db, ops[0], s) + AllClaimed(Apply(db, ops[0]), ops[1..], s)
  }

  /** Between rewinds the ids claimed by all consumers together are strictly increasing. */
  lemma {:induction false} ClaimsIncrease(db: Db, ops: seq<Op>, s: Sub)
    requires NoLoss.Reachable(db) && Forward(db, ops, s)
    ensures Ascending(AllClaimed(db, ops, s))
    ensures forall id | id in AllClaimed(db, ops, s) :: db.cursors[s] <= id
    decreases |ops|
  {
    if ops == [] {
    } else {
      var d := Apply(db, ops[0]);
      NoLoss.ReachableStep(db, ops[0]);
      ClaimsIncrease(d, ops[1..], s);
      var a, b := Claimed(db, ops[0], s), AllClaimed(d, ops[1..], s);
      if a != [] {
        ClaimAdvances(db, s, ops[0].consumer, ops[0].limit, ops[0].now);
        Joined(a, b, d.cursors[s]);
      } else {
        assert a + b == b;
      }
    }
  }

  lemma Joined(a: seq<int>, b: seq<int>, m: int)
    requires Ascending(a) && Ascending(b)
    requires (forall x | x in a :: x < m) && (forall x | x in b :: m <= x)
    ensures Ascending(a + b)
  {
    var q := a + b;
    forall i, j | 0 <= i < j < |q| ensures q[i] < q[j] {
      if i < |a| { assert q[i] in a; }
      if |a| <= j { assert q[j] in b; }
    }
  }
}
