/** The backlog figure of SubscriptionBacklogStats (internal/storage/stats.go), and how each operation moves it. */
module Backlog {
  import opened Basics
  import opened TopicNames
  import opened Tables
  import opened Ledger
  import NoLoss
  import Claims

  /** What the figure is meant to be: held rows plus unclaimed messages. */
  function Outstanding(db: Db, s: Sub): nat
    requires s in db.cursors
  {
    |HeldIds(db, s)| + |Available(db, s)|
  }

  /** The LEFT JOIN on messages at or past the cursor yields one null-extended row when nothing matches. */
  function JoinedRows(db: Db, s: Sub): seq<Option<int>>
    requires s in db.cursors
  {
    var ids := set id | id in StoredIds(db, s.topic) && id >= db.cursors[s];
    if ids == {} then [None] else Present(Sorted(ids))
  }

  function Present(ids: seq<int>): seq<Option<int>> {
    if ids == [] then [] else [Some(ids[0])] + Present(ids[1..])
  }

  /** SUM(CASE WHEN sp.message_id IS NULL THEN 1 ELSE 0 END): a null-extended row has no pending row either. */
  function CountFree(rows: seq<Option<int>>, s: Sub, pending: map<Slot, Holder>): nat {
    if rows == [] then 0
    else (if rows[0].Some? && Slot(s, rows[0].value) in pending then 0 else 1) + CountFree(rows[1..], s, pending)
  }

  /** The figure the query reports. */
  function Reported(db: Db, s: Sub): nat
    requires s in db.cursors
  {
    |HeldIds(db, s)| + CountFree(JoinedRows(db, s), s, db.pending)
  }

  function FreeOf(ids: seq<int>, s: Sub, pending: map<Slot, Holder>): set<int> {
    set id | id in ids && Slot(s, id) !in pending
  }

  lemma FreeOfCons(ids: seq<int>, s: Sub, pending: map<Slot, Holder>)
    requires ids != [] && Ascending(ids)
    ensures |FreeOf(ids, s, pending)| == |FreeOf(ids[1..], s, pending)| + if Slot(s, ids[0]) in pending then 0 else 1
  {
    var x, tail := ids[0], ids[1..];
    forall j | 0 <= j < |tail| ensures tail[j] != x { assert ids[0] < ids[j + 1]; }
    assert x !in tail;
    forall y ensures y in ids <==> y == x || y in tail { assert ids == [x] + tail; }
    var rest := FreeOf(tail, s, pending);
    if Slot(s, x) in pending {
      assert FreeOf(ids, s, pending) == rest;
    } else {
      assert FreeOf(ids, s, pending) == rest + {x};
    }
  }

  lemma {:induction false} CountsFree(ids: seq<int>, s: Sub, pending: map<Slot, Holder>)
    requires Ascending(ids)
    ensures CountFree(Present(ids), s, pending) == |FreeOf(ids, s, pending)|
  {
    if ids == [] {
      assert FreeOf(ids, s, pending) == {};
    } else {
      CountsFree(ids[1..], s, pending);
      FreeOfCons(ids, s, pending);
      assert Present(ids)[1..] == Present(ids[1..]);
    }
  }

  function StoredAhead(db: Db, s: Sub): set<int>
    requires s in db.cursors
  {
    set id | id in StoredIds(db, s.topic) && id >= db.cursors[s]
  }

  lemma NothingAhead(db: Db, s: Sub)
    requires s in db.cursors && StoredAhead(db, s) == {}
    ensures Available(db, s) == {} && JoinedRows(db, s) == [None]
  {
    forall id ensures id !in Available(db, s) { assert id !in StoredAhead(db, s); }
    SameSet(Available(db, s), {});
  }

  lemma FreeAheadIsAvailable(db: Db, s: Sub)
    requires s in db.cursors
    ensures FreeOf(Sorted(StoredAhead(db, s)), s, db.pending) == Available(db, s)
  {
    SameSet(FreeOf(Sorted(StoredAhead(db, s)), s, db.pending), Available(db, s));
  }

  /** The report is right exactly when some stored message is at or past the cursor; otherwise it is one too high. */
  lemma ReportedIsOutstandingUnlessEmpty(db: Db, s: Sub)
    requires s in db.cursors
    ensures Reported(db, s) == Outstanding(db, s) <==> StoredAhead(db, s) != {}
    ensures StoredAhead(db, s) == {} ==> Reported(db, s) == Outstanding(db, s) + 1
  {
    hide Available;
    if StoredAhead(db, s) == {} {
      NothingAhead(db, s);
      assert CountFree([None], s, db.pending) == 1;
    } else {
      CountsFree(Sorted(StoredAhead(db, s)), s, db.pending);
      FreeAheadIsAvailable(db, s);
    }
  }

  /** A subscription just created on an empty topic has nothing outstanding, and one is reported. */
  lemma EmptyBacklogIsReported(n: TopicName, name: string, now: int)
    ensures var db := ApplyAll(EMPTY, [Subscribe(n, name, false, None, Some(Shared), now)]);
            var s := SubOf(db, n, name);
      s in db.subs && s in db.cursors && Outstanding(db, s) == 0 && Reported(db, s) == 1
  {
    var op := Subscribe(n, name, false, None, Some(Shared), now);
    assert [op][1..] == [];
    var db := Apply(EMPTY, op);
    assert ApplyAll(EMPTY, [op]) == ApplyAll(db, []);
    var s := SubOf(db, n, name);
    SameSet(StoredAhead(db, s), {});
    SameSet(HeldIds(db, s), {});
    NothingAhead(db, s);
    ReportedIsOutstandingUnlessEmpty(db, s);
  }

  // ---------- how operations move the outstanding count ----------

  /** Moving ids between two disjoint sets keeps their total size. */
  lemma MovedSize(a: set<int>, b: set<int>, moved: set<int>)
    requires moved <= a && moved !! b
    ensures |a - moved| + |b + moved| == |a| + |b|
  {
    assert |a - moved| == |a| - |moved|;
  }

  lemma SubsetSize(a: set<int>, b: set<int>)
    requires forall x | x in a :: x in b
    ensures |b - a| == |b| - |a|
  {
    var rest := b - a;
    var all := rest + a;
    forall x ensures x in all <==> x in b {}
    SameSet(all, b);
    assert |all| == |rest| + |a|;
  }

  lemma HeldAfterClaim(db: Db, s: Sub, consumer: int, ids: seq<int>, now: int)
    requires s in db.cursors
    ensures HeldIds(ClaimRows(db, s, consumer, ids, now), s) == HeldIds(db, s) + set id | id in ids
  {
    var taken := set id | id in ids;
    var held := HeldIds(ClaimRows(db, s, consumer, ids, now), s);
    forall id ensures id in held <==> id in HeldIds(db, s) + taken {}
    SameSet(held, HeldIds(db, s) + taken);
  }

  lemma HeldAfterRemoval(db: Db, s: Sub, ids: set<int>)
    ensures HeldIds(RemoveRows(db, s, ids), s) == HeldIds(db, s) - ids
    ensures HeldIds(Requeue(db, s, ids), s) == HeldIds(db, s) - ids
  {
    SameSet(HeldIds(RemoveRows(db, s, ids), s), HeldIds(db, s) - ids);
    SameSet(HeldIds(Requeue(db, s, ids), s), HeldIds(db, s) - ids);
  }

  /** Claiming moves messages from unclaimed to held. */
  lemma ClaimKeepsOutstanding(db: Db, s: Sub, consumer: int, limit: int, now: int)
    requires s in db.subs && s in db.cursors
    ensures var d := ClaimBatch(db, s, consumer, limit, now).0;
            s in d.cursors && Outstanding(d, s) == Outstanding(db, s)
  {
    Claims.TouchChangesNoQueue(db, s, now);
    var e := TouchSub(db, s, now);
    var ids := Selected(e, s, limit);
    NoLoss.SelectedAvailable(e, s, limit);
    NoLoss.SelectedIsPrefix(e, s, limit);
    Claims.AvailableAfterClaim(e, s, consumer, ids, now);
    var d := ClaimRows(e, s, consumer, ids, now);
    var taken := set id | id in ids;
    HeldAfterClaim(e, s, consumer, ids, now);
    SameSet(Available(d, s), Available(db, s) - taken);
    MovedSize(Available(db, s), HeldIds(db, s), taken);
  }

  lemma AvailableAfterAck(db: Db, s: Sub, ids: set<int>)
    requires s in db.cursors && forall id | id in ids :: Slot(s, id) in db.pending
    ensures Available(RemoveRows(db, s, ids), s) == Available(db, s) + ids * StoredAhead(db, s)
    ensures Available(db, s) !! ids
  {
    SameSet(Available(RemoveRows(db, s, ids), s), Available(db, s) + ids * StoredAhead(db, s));
  }

  /**
   An acknowledgement lowers the count by the removed rows that were behind the cursor. A row
   at or past the cursor, left there by another consumer's requeue, becomes claimable again.
   */
  lemma AckLowersOutstanding(db: Db, s: Sub, ids: set<int>)
    requires s in db.cursors && forall id | id in ids :: Slot(s, id) in db.pending
    ensures var back := ids * StoredAhead(db, s);
      && Outstanding(RemoveRows(db, s, ids), s) == Outstanding(db, s) - |ids| + |back|
      && (Outstanding(RemoveRows(db, s, ids), s) == Outstanding(db, s) - |ids| <==> back == {})
      && Available(RemoveRows(db, s, ids), s) == Available(db, s) + back
  {
    var back := ids * StoredAhead(db, s);
    HeldAfterRemoval(db, s, ids);
    SubsetSize(ids, HeldIds(db, s));
    AvailableAfterAck(db, s, ids);
    assert |Available(db, s) + back| == |Available(db, s)| + |back|;
  }

  /** What a requeue rewinds over besides the rows it frees: stored, unheld ids the cursor had passed. */
  function Rewound(db: Db, d: Db, s: Sub): set<int>
    requires s in db.cursors && s in d.cursors
  {
    set id | id in StoredIds(db, s.topic) && Slot(s, id) !in db.pending && d.cursors[s] <= id < db.cursors[s]
  }

  lemma AvailableAfterRequeue(db: Db, s: Sub, gone: set<int>)
    requires s in db.cursors
    requires forall id | id in gone :: Slot(s, id) in db.pending && Stored(db, s.topic, id)
    ensures s in Requeue(db, s, gone).cursors
    ensures Available(Requeue(db, s, gone), s) == Available(db, s) + Rewound(db, Requeue(db, s, gone), s) + gone
    ensures Available(db, s) !! Rewound(db, Requeue(db, s, gone), s)
    ensures Available(db, s) + Rewound(db, Requeue(db, s, gone), s) !! gone
  {
    var d := Requeue(db, s, gone);
    SameSet(Available(d, s), Available(db, s) + Rewound(db, d, s) + gone);
  }

  /** A requeue raises the count by exactly the stored, unheld ids between the new cursor and the old one. */
  lemma RequeueRaisesOutstanding(db: Db, s: Sub, gone: set<int>)
    requires s in db.cursors
    requires forall id | id in gone :: Slot(s, id) in db.pending && Stored(db, s.topic, id)
    ensures var d := Requeue(db, s, gone);
      s in d.cursors && Outstanding(d, s) == Outstanding(db, s) + |Rewound(db, d, s)|
  {
    AvailableAfterRequeue(db, s, gone);
    HeldAfterRemoval(db, s, gone);
    var wider := Available(db, s) + Rewound(db, Requeue(db, s, gone), s);
    assert |wider| == |Available(db, s)| + |Rewound(db, Requeue(db, s, gone), s)|;
    SubsetSize(gone, HeldIds(db, s));
    MovedSize(HeldIds(db, s), wider, gone);
  }

  const LONE: TopicName := TopicName("t", "n", "x")

  /** Two messages, claimed by consumers 8 and 9; then 8 leaves. */
  const REWINDING: seq<Op> := [
    Insert(LONE, 5, Content([], 0, map[])), Insert(LONE, 6, Content([], 1, map[])),
    Subscribe(LONE, "s", false, None, Some(Shared), 7),
    Claim(LONE, "s", 8, 1, 7), Claim(LONE, "s", 9, 1, 8), Drop(LONE, "s", 8)]

  const REWOUND: Db :=
    Db(2, map[LONE := 1], 3,
       map[1 := Message(1, 5, Content([], 0, map[])), 2 := Message(1, 6, Content([], 1, map[]))],
       map[Sub(1, "s") := SubRow(Shared, 8)], map[Sub(1, "s") := 1], map[Slot(Sub(1, "s"), 2) := Holder(9, 8)])

  function Filled(stamp: int, cursor: int, pending: map<Slot, Holder>): Db {
    REWOUND.(subs := map[Sub(1, "s") := SubRow(Shared, stamp)],
             cursors := map[Sub(1, "s") := cursor],
             pending := pending)
  }

  lemma TwoStored()
    ensures Apply(Apply(Apply(EMPTY, REWINDING[0]), REWINDING[1]), REWINDING[2]) == Filled(7, 1, map[])
  {
  }

  lemma LeastIsFirst(ids: set<int>, least: int)
    requires least in ids && forall id | id in ids :: least <= id
    ensures Sorted(ids) != [] && Sorted(ids)[0] == least
  {
    var q := Sorted(ids);
    assert least in q;
    var first := q[0];
    assert first in q;
    assert first in ids;
    var k :| 0 <= k < |q| && q[k] == least;
  }

  lemma OneSelected(stamp: int, cursor: int, pending: map<Slot, Holder>)
    requires 1 <= cursor <= 2 && forall k | k in pending :: k.id < cursor
    ensures Selected(Filled(stamp, cursor, pending), Sub(1, "s"), 1) == [cursor]
  {
    hide Sorted;
    var d, s := Filled(stamp, cursor, pending), Sub(1, "s");
    assert cursor in Available(d, s);
    LeastIsFirst(Available(d, s), cursor);
  }

  lemma OneClaimed(stamp: int, cursor: int, pending: map<Slot, Holder>, uid: int, now: int)
    requires 1 <= cursor <= 2 && forall k | k in pending :: k.id < cursor
    ensures Apply(Filled(stamp, cursor, pending), Claim(LONE, "s", uid, 1, now))
         == Filled(now, cursor + 1, pending[Slot(Sub(1, "s"), cursor) := Holder(uid, now)])
  {
    hide Selected;
    var s := Sub(1, "s");
    OneSelected(now, cursor, pending);
    assert TouchSub(Filled(stamp, cursor, pending), s, now) == Filled(now, cursor, pending) by {
      assert map[s := SubRow(Shared, stamp)][s := SubRow(Shared, now)] == map[s := SubRow(Shared, now)];
    }
    assert map[s := cursor][s := cursor + 1] == map[s := cursor + 1];
    assert WithRows(pending, Sub(1, "s"), [cursor], Holder(uid, now))
        == pending[Slot(Sub(1, "s"), cursor) := Holder(uid, now)];
  }

  lemma FirstDropped()
    ensures var held := map[Slot(Sub(1, "s"), 1) := Holder(8, 7), Slot(Sub(1, "s"), 2) := Holder(9, 8)];
      Apply(Filled(8, 3, held), Drop(LONE, "s", 8)) == REWOUND
  {
    var held := map[Slot(Sub(1, "s"), 1) := Holder(8, 7), Slot(Sub(1, "s"), 2) := Holder(9, 8)];
    var s := Sub(1, "s");
    SameSet(HeldBy(held, s, 8), {1});
    assert Without(held, s, {1}) == map[Slot(s, 2) := Holder(9, 8)];
  }

  lemma RewoundArises()
    ensures ApplyAll(EMPTY, REWINDING) == REWOUND
  {
    hide Apply;
    var s, ops := Sub(1, "s"), REWINDING;
    TwoStored();
    OneClaimed(7, 1, map[], 8, 7);
    OneClaimed(7, 2, map[Slot(s, 1) := Holder(8, 7)], 9, 8);
    FirstDropped();
    var d3 := Apply(Apply(Apply(EMPTY, ops[0]), ops[1]), ops[2]);
    ThreeApplied(EMPTY, ops);
    ThreeApplied(d3, ops[3..]);
  }

  lemma ThreeApplied(db: Db, ops: seq<Op>)
    requires |ops| >= 3
    ensures ApplyAll(db, ops) == ApplyAll(Apply(Apply(Apply(db, ops[0]), ops[1]), ops[2]), ops[3..])
  {
    hide Apply;
    assert ops[1..][1..] == ops[2..] && ops[2..][1..] == ops[3..];
    var d := Apply(db, ops[0]);
    assert ApplyAll(d, ops[1..]) == ApplyAll(Apply(d, ops[1]), ops[2..]);
  }

  /** There, acknowledging the one held row leaves the count as it was. */
  lemma AckCanLeaveOutstanding()
    ensures var s := Sub(1, "s");
            var d := RemoveRows(REWOUND, s, ListedIds(REWOUND.pending, s, 9, [2]));
            Slot(s, 2) in REWOUND.pending && Slot(s, 2) !in d.pending && Outstanding(d, s) == Outstanding(REWOUND, s)
  {
    var s := Sub(1, "s");
    var ids := ListedIds(REWOUND.pending, s, 9, [2]);
    assert ids == {2} by { SameSet(ids, {2}); }
    assert ids * StoredAhead(REWOUND, s) == ids by { SameSet(ids * StoredAhead(REWOUND, s), ids); }
    AckLowersOutstanding(REWOUND, s, ids);
  }
}
