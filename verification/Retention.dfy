/**
 Retention and start positions: what the namespace sweep may remove
 (internal/broker/maintenance.go, internal/storage/cleanup.go), and what setting a position
 promises (internal/storage/storage.go, internal/broker/handlers.go).
 */
module Retention {
  import opened Basics
  import opened TopicNames
  import opened Tables
  import opened Ledger
  import opened Storage
  import NoLoss
  import Claims

  // ---------- removal of messages ----------

  /** Stored messages never change, and only the two retention deletes remove them. */
  lemma MessagesChange(db: Db, op: Op, id: int)
    requires IdsOk(db) && id in db.messages
    ensures id in Apply(db, op).messages ==> Apply(db, op).messages[id] == db.messages[id]
    ensures id !in Apply(db, op).messages ==>
      || (op.DropConsumed? && Consumed(db, op.ns, op.cutoff, id))
      || (op.DropOrphaned? && Orphaned(db, op.ns, op.cutoff, id))
  {
    if op.Subscribe? { NoLoss.SubscribeCases(db, Book(map[], map[], map[]), op); }
  }

  /** Retention spares what a subscription holds or can still claim. */
  lemma RetentionSpares(db: Db, ns: Namespace, cutoff: int, s: Sub, id: int)
    requires PendingOk(db) && db.subs.Keys == db.cursors.Keys
    requires Slot(s, id) in db.pending || Claimable(db, s, id)
    ensures !Consumed(db, ns, cutoff, id) && !Orphaned(db, ns, cutoff, id)
  {
    var k := Slot(s, id);
    assert k in db.pending ==> k.sub in db.subs && Stored(db, k.sub.topic, k.id);
    assert s in db.subs && Stored(db, s.topic, id);
  }

  lemma RemovedIsAcked(db: Db, book: Book, ns: Namespace, cutoff: int, s: Sub, id: int)
    requires PendingOk(db) && Kept(db, book) && s in book.owed && id in book.owed[s]
    requires Consumed(db, ns, cutoff, id) || Orphaned(db, ns, cutoff, id)
    ensures s in book.acked && id in book.acked[s]
  {
    assert Promise(db, book, s);
    assert Safe(db, book, s, id);
    if Slot(s, id) in db.pending || Claimable(db, s, id) { RetentionSpares(db, ns, cutoff, s, id); }
  }

  /** A message goes only when it is old enough and every subscription that is owed it has acked it. */
  lemma RemovalIsSafe(w: World, op: Op, id: int)
    requires NoLoss.Possible(w) && id in w.db.messages && id !in Apply(w.db, op).messages
    ensures (op.DropConsumed? || op.DropOrphaned?) && w.db.messages[id].publishTime < op.cutoff
    ensures forall s | s in w.book.owed && id in w.book.owed[s] :: s in w.book.acked && id in w.book.acked[s]
  {
    NoLoss.PossibleInv(w);
    MessagesChange(w.db, op, id);
    forall s | s in w.book.owed && id in w.book.owed[s] ensures s in w.book.acked && id in w.book.acked[s] {
      RemovedIsAcked(w.db, w.book, op.ns, op.cutoff, s, id);
    }
  }

  /** Somebody holds the message or can still claim it. */
  ghost predicate Wanted(db: Db, topic: int, id: int) {
    exists s: Sub :: s.topic == topic && (Slot(s, id) in db.pending || Claimable(db, s, id))
  }

  ghost predicate Removable(db: Db, ns: Namespace, cutoff: int, id: int)
    requires id in db.messages
  {
    var m := db.messages[id];
    m.publishTime < cutoff && InNamespace(db, m.topic, ns) && !Wanted(db, m.topic, id)
  }

  lemma ConsumedExactly(db: Db, ns: Namespace, cutoff: int, id: int)
    requires PendingOk(db) && db.subs.Keys == db.cursors.Keys && id in db.messages
    ensures (Consumed(db, ns, cutoff, id) || Orphaned(db, ns, cutoff, id)) <==> Removable(db, ns, cutoff, id)
  {
    var m := db.messages[id];
    if Wanted(db, m.topic, id) {
      var s: Sub :| s.topic == m.topic && (Slot(s, id) in db.pending || Claimable(db, s, id));
      RetentionSpares(db, ns, cutoff, s, id);
    } else {
      forall s | s in db.cursors && s.topic == m.topic ensures id < db.cursors[s] {
        assert s.topic == m.topic && !Claimable(db, s, id);
      }
      forall k | k in db.pending && k.sub.topic == m.topic ensures k.id != id {
        assert k == Slot(k.sub, k.id);
      }
    }
  }

  /**
   The two retention deletes together remove exactly the namespace's messages that are old enough
   and that no subscription holds or can claim: nothing else goes, and none of these stays.
   */
  lemma RetentionRemovesExactly(db: Db, ns: Namespace, cutoff: int, id: int)
    requires NoLoss.Reachable(db) && id in db.messages
    ensures id !in Apply(Apply(db, DropConsumed(ns, cutoff)), DropOrphaned(ns, cutoff)).messages
       <==> Removable(db, ns, cutoff, id)
  {
    NoLoss.ReachableConsistent(db);
    ConsumedExactly(db, ns, cutoff, id);
    var d := Apply(db, DropConsumed(ns, cutoff));
    assert d.topics == db.topics && d.subs == db.subs;
  }

  // ---------- the sweep ----------

  /** The transactions of one namespace's sweep, in order; no stale cutoff means no subscription timeout is set. */
  function SweepOps(ns: Namespace, active: seq<SubRef>, now: int,
                    stale: Option<int>, cutoff: int, exclude: set<TopicName>): seq<Op>
  {
    TouchOps(ns, active, now) + PruneOps(ns, stale, cutoff, exclude)
  }

  function PruneOps(ns: Namespace, stale: Option<int>, cutoff: int, exclude: set<TopicName>): seq<Op> {
    (if stale.Some? then [DropStale(ns, stale.value)] else [])
    + [DropConsumed(ns, cutoff), DropOrphaned(ns, cutoff), DropEmptyTopics(ns, exclude)]
  }

  /** A transaction of a sweep that removes messages only before the cutoff. */
  predicate Quiet(op: Op, cutoff: int) {
    op.Touch? || op.DropStale? || op.DropEmptyTopics? || ((op.DropConsumed? || op.DropOrphaned?) && op.cutoff == cutoff)
  }

  lemma {:induction false} TouchOpsQuiet(ns: Namespace, refs: seq<SubRef>, now: int, cutoff: int)
    ensures forall op | op in TouchOps(ns, refs, now) :: op.Touch? && Quiet(op, cutoff)
  {
    if refs == [] {
    } else {
      TouchOpsQuiet(ns, refs[1..], now, cutoff);
    }
  }

  /** Quiet steps change the books only by forgetting dropped subscriptions. */
  lemma {:induction false} QuietBook(w: World, ops: seq<Op>, cutoff: int, s: Sub)
    requires forall op | op in ops :: Quiet(op, cutoff)
    requires s in Run(w, ops).book.owed
    ensures s in w.book.owed && Run(w, ops).book.owed[s] == w.book.owed[s]
    ensures s in w.book.acked ==> s in Run(w, ops).book.acked && Run(w, ops).book.acked[s] == w.book.acked[s]
    decreases |ops|
  {
    if ops == [] {
    } else {
      assert Quiet(ops[0], cutoff);
      QuietBook(Next(w, ops[0]), ops[1..], cutoff, s);
      QuietStepBook(w.db, w.book, ops[0], cutoff, s);
    }
  }

  lemma QuietStepBook(db: Db, book: Book, op: Op, cutoff: int, s: Sub)
    requires Quiet(op, cutoff) && s in Record(db, book, op).owed
    ensures s in book.owed && Record(db, book, op).owed[s] == book.owed[s]
    ensures s in book.acked ==> s in Record(db, book, op).acked && Record(db, book, op).acked[s] == book.acked[s]
  {
  }

  /** What a run of quiet steps removes was old enough, and acked by every surviving subscription that was owed it. */
  lemma {:induction false} QuietRunIsSafe(w: World, ops: seq<Op>, cutoff: int, id: int)
    requires NoLoss.Possible(w) && forall op | op in ops :: Quiet(op, cutoff)
    requires id in w.db.messages && id !in Run(w, ops).db.messages
    ensures w.db.messages[id].publishTime < cutoff
    ensures var b := Run(w, ops).book;
      forall s | s in b.owed && id in b.owed[s] :: s in b.acked && id in b.acked[s]
    decreases |ops|
  {
    if ops == [] {
    } else {
      var v := Next(w, ops[0]);
      assert Quiet(ops[0], cutoff);
      NoLoss.PossibleStep(w, ops[0]);
      if id in v.db.messages {
        FreshIds(w);
        MessagesChange(w.db, ops[0], id);
        QuietRunIsSafe(v, ops[1..], cutoff, id);
      } else {
        RemovalIsSafe(w, ops[0], id);
        var b := Run(w, ops).book;
        forall s | s in b.owed && id in b.owed[s] ensures s in b.acked && id in b.acked[s] {
          QuietBook(w, ops, cutoff, s);
        }
      }
    }
  }

  lemma FreshIds(w: World)
    requires NoLoss.Possible(w)
    ensures IdsOk(w.db)
  {
    NoLoss.PossibleInv(w);
  }

  /** Retention safety of a whole sweep. */
  lemma SweepIsSafe(w: World, ns: Namespace, active: seq<SubRef>, now: int, stale: Option<int>, cutoff: int,
                    exclude: set<TopicName>, id: int)
    requires NoLoss.Possible(w)
    requires id in w.db.messages && id !in Run(w, SweepOps(ns, active, now, stale, cutoff, exclude)).db.messages
    ensures w.db.messages[id].publishTime < cutoff
    ensures var b := Run(w, SweepOps(ns, active, now, stale, cutoff, exclude)).book;
      forall s | s in b.owed && id in b.owed[s] :: s in b.acked && id in b.acked[s]
  {
    TouchOpsQuiet(ns, active, now, cutoff);
    QuietRunIsSafe(w, SweepOps(ns, active, now, stale, cutoff, exclude), cutoff, id);
  }

  lemma {:induction false} ApplyAllAppend(db: Db, a: seq<Op>, b: seq<Op>)
    ensures ApplyAll(db, a + b) == ApplyAll(ApplyAll(db, a), b)
    decreases |a|
  {
    if a == [] {
      assert a + b == b;
    } else {
      assert (a + b)[1..] == a[1..] + b;
      ApplyAllAppend(Apply(db, a[0]), a[1..], b);
    }
  }

  ghost predicate TouchedBy(db: Db, ns: Namespace, refs: seq<SubRef>, s: Sub) {
    exists ref :: ref in refs && Matches(ns, ref) && SubOf(db, ref.topic.name, ref.name) == s
  }

  /** After the touches, every listed subscription that exists carries the new stamp. */
  lemma {:induction false} TouchedAreStamped(db: Db, ns: Namespace, refs: seq<SubRef>, now: int, s: Sub)
    requires s in db.subs
    ensures var d := ApplyAll(db, TouchOps(ns, refs, now));
      && d.topics == db.topics && s in d.subs
      && (db.subs[s].lastConsumerAt == now || TouchedBy(db, ns, refs, s) ==> d.subs[s].lastConsumerAt == now)
    decreases |refs|
  {
    if refs == [] {
    } else {
      TouchOpsStep(ns, refs, now);
      var d := TouchedFirst(db, ns, refs[0], now);
      TouchFirst(db, ns, refs[0], now, s);
      TouchedAreStamped(d, ns, refs[1..], now, s);
      if ref :| ref in refs && Matches(ns, ref) && SubOf(db, ref.topic.name, ref.name) == s {
        if ref != refs[0] {
          assert refs == [refs[0]] + refs[1..];
          assert ref in refs[1..] && SubOf(d, ref.topic.name, ref.name) == s;
        }
      }
    }
  }

  function TouchedFirst(db: Db, ns: Namespace, ref: SubRef, now: int): Db {
    if Matches(ns, ref) then Apply(db, Touch(ref.topic.name, ref.name, now)) else db
  }

  lemma TouchFirst(db: Db, ns: Namespace, ref: SubRef, now: int, s: Sub)
    requires s in db.subs
    ensures var d := TouchedFirst(db, ns, ref, now);
      && d.topics == db.topics && s in d.subs
      && (db.subs[s].lastConsumerAt == now || (Matches(ns, ref) && SubOf(db, ref.topic.name, ref.name) == s)
          ==> d.subs[s].lastConsumerAt == now)
  {
  }

  /**
   A subscription with an attached consumer survives the sweep, the clock not having run back since
   its cutoff was computed.
   */
  lemma AttachedSurvivesSweep(db: Db, ns: Namespace, active: seq<SubRef>, now: int, stale: Option<int>, cutoff: int,
                              exclude: set<TopicName>, ref: SubRef)
    requires ref in active && Matches(ns, ref) && SubOf(db, ref.topic.name, ref.name) in db.subs
    requires stale.Some? ==> stale.value <= now
    ensures SubOf(db, ref.topic.name, ref.name) in ApplyAll(db, SweepOps(ns, active, now, stale, cutoff, exclude)).subs
  {
    var s := SubOf(db, ref.topic.name, ref.name);
    TouchedAreStamped(db, ns, active, now, s);
    var d := ApplyAll(db, TouchOps(ns, active, now));
    ApplyAllAppend(db, TouchOps(ns, active, now), PruneOps(ns, stale, cutoff, exclude));
    PruneKeepsFresh(d, ns, stale, cutoff, exclude, s);
  }

  /** The subscription exists and carries a stamp that is not before the cutoff. */
  ghost predicate Fresh(db: Db, s: Sub, stale: int) {
    s in db.subs && db.subs[s].lastConsumerAt >= stale
  }

  /** An operation whose stamp, or whose own cutoff, does not contradict the cutoff. */
  predicate InStep(op: Op, stale: int) {
    ((op.Subscribe? || op.Claim? || op.Touch?) ==> op.now >= stale) && (op.DropStale? ==> op.cutoff <= stale)
  }

  lemma SubscribeKeepsFresh(db: Db, op: Op, s: Sub, stale: int)
    requires Fresh(db, s, stale) && op.Subscribe? && op.now >= stale
    ensures Fresh(Apply(db, op), s, stale)
  {
    NoLoss.SubscribeCases(db, Book(map[], map[], map[]), op);
    hide Apply, Position, StartOf;
  }

  lemma ClaimKeepsFresh(db: Db, op: Op, s: Sub, stale: int)
    requires Fresh(db, s, stale) && op.Claim? && op.now >= stale
    ensures Fresh(Apply(db, op), s, stale)
  {
    hide Selected, WithRows;
  }

  lemma StepKeepsFresh(db: Db, op: Op, s: Sub, stale: int)
    requires Fresh(db, s, stale) && InStep(op, stale)
    ensures Fresh(Apply(db, op), s, stale)
  {
    if op.Subscribe? {
      SubscribeKeepsFresh(db, op, s, stale);
    } else if op.Claim? {
      ClaimKeepsFresh(db, op, s, stale);
    }
  }

  lemma {:induction false} RunKeepsFresh(db: Db, ops: seq<Op>, s: Sub, stale: int)
    requires Fresh(db, s, stale) && forall op | op in ops :: InStep(op, stale)
    ensures Fresh(ApplyAll(db, ops), s, stale)
    decreases |ops|
  {
    if ops == [] {
    } else {
      hide Apply;
      assert ops[0] in ops;
      StepKeepsFresh(db, ops[0], s, stale);
      RunKeepsFresh(Apply(db, ops[0]), ops[1..], s, stale);
    }
  }

  /**
   A touched subscription survives whatever follows its touch, other actors' operations in between
   and the sweep's own removal included, as long as no clock ran back behind the cutoff.
   */
  lemma TouchedSurvives(db: Db, n: TopicName, name: string, now: int, ops: seq<Op>, stale: int)
    requires SubOf(db, n, name) in db.subs && now >= stale && forall op | op in ops :: InStep(op, stale)
    ensures SubOf(db, n, name) in ApplyAll(Apply(db, Touch(n, name, now)), ops).subs
  {
    RunKeepsFresh(Apply(db, Touch(n, name, now)), ops, SubOf(db, n, name), stale);
  }

  lemma PrunesKeepSubs(db: Db, ns: Namespace, cutoff: int, exclude: set<TopicName>)
    ensures Apply(Apply(Apply(db, DropConsumed(ns, cutoff)), DropOrphaned(ns, cutoff)),
                  DropEmptyTopics(ns, exclude)).subs == db.subs
  {
  }

  lemma PruneKeepsFresh(db: Db, ns: Namespace, stale: Option<int>, cutoff: int, exclude: set<TopicName>, s: Sub)
    requires s in db.subs && (stale.Some? ==> db.subs[s].lastConsumerAt >= stale.value)
    ensures s in ApplyAll(db, PruneOps(ns, stale, cutoff, exclude)).subs
  {
    var rest := [DropConsumed(ns, cutoff), DropOrphaned(ns, cutoff), DropEmptyTopics(ns, exclude)];
    var d := if stale.Some? then Apply(db, DropStale(ns, stale.value)) else db;
    assert s in d.subs;
    PrunesKeepSubs(d, ns, cutoff, exclude);
    hide Apply;
    ThreeSteps(d, rest[0], rest[1], rest[2]);
    if stale.Some? {
      assert PruneOps(ns, stale, cutoff, exclude) == [DropStale(ns, stale.value)] + rest;
      assert ([DropStale(ns, stale.value)] + rest)[1..] == rest;
    } else {
      assert PruneOps(ns, stale, cutoff, exclude) == rest;
    }
  }

  lemma ThreeSteps(db: Db, a: Op, b: Op, c: Op)
    ensures ApplyAll(db, [a, b, c]) == Apply(Apply(Apply(db, a), b), c)
  {
    hide Apply;
    assert [a, b, c][1..] == [b, c] && [b, c][1..] == [c] && [c][1..] == [];
    assert ApplyAll(Apply(Apply(Apply(db, a), b), c), []) == Apply(Apply(Apply(db, a), b), c);
    assert ApplyAll(Apply(Apply(db, a), b), [c]) == Apply(Apply(Apply(db, a), b), c);
    assert ApplyAll(Apply(db, a), [b, c]) == ApplyAll(Apply(Apply(db, a), b), [c]);
  }

  /** Touches and the four prunes one after another are the sweep's transactions. */
  lemma SweepInParts(db: Db, ns: Namespace, active: seq<SubRef>, now: int,
                     stale: Option<int>, cutoff: int, exclude: set<TopicName>)
    ensures var touched := ApplyAll(db, TouchOps(ns, active, now));
            var kept := if stale.Some? then Apply(touched, DropStale(ns, stale.value)) else touched;
      ApplyAll(db, SweepOps(ns, active, now, stale, cutoff, exclude))
        == Apply(Apply(Apply(kept, DropConsumed(ns, cutoff)), DropOrphaned(ns, cutoff)), DropEmptyTopics(ns, exclude))
  {
    hide Apply;
    ApplyAllAppend(db, TouchOps(ns, active, now), PruneOps(ns, stale, cutoff, exclude));
    var touched := ApplyAll(db, TouchOps(ns, active, now));
    var kept := if stale.Some? then Apply(touched, DropStale(ns, stale.value)) else touched;
    var a, b, c := DropConsumed(ns, cutoff), DropOrphaned(ns, cutoff), DropEmptyTopics(ns, exclude);
    ThreeSteps(kept, a, b, c);
    if stale.Some? {
      assert PruneOps(ns, stale, cutoff, exclude)[1..] == [a, b, c];
    } else {
      assert PruneOps(ns, stale, cutoff, exclude) == [a, b, c];
    }
  }

  // ---------- start positions ----------

  /** Only what is owed, hence at or after the position, is ever handed out. */
  lemma OnlyOwedIsClaimed(w: World, op: Op, s: Sub, id: int)
    requires NoLoss.Possible(w) && id in Claims.Claimed(w.db, op, s)
    ensures s in w.book.owed && s in w.book.start && id in w.book.owed[s] && w.book.start[s] <= id
  {
    NoLoss.PossibleInv(w);
    Claims.ClaimPasses(w.db, op, s, id);
    assert Promise(w.db, w.book, s);
    assert Stored(w.db, s.topic, id);
  }

  lemma OwedIsPastStart(w: World, s: Sub, id: int)
    requires NoLoss.Possible(w) && s in w.book.owed && id in w.book.owed[s]
    ensures s in w.book.start && w.book.start[s] <= id
  {
    NoLoss.PossibleInv(w);
    assert Promise(w.db, w.book, s);
  }

  /** The step neither repositions the subscription nor drops it. */
  predicate Keeps(db: Db, op: Op, s: Sub) {
    !(op.Seek? && SubOf(db, op.topic, op.name) == s) && !(op.DropStale? && s in StaleSubs(db, op.ns, op.cutoff))
  }

  ghost predicate KeepsAll(w: World, ops: seq<Op>, s: Sub)
    decreases |ops|
  {
    ops != [] ==> Keeps(w.db, ops[0], s) && KeepsAll(Next(w, ops[0]), ops[1..], s)
  }

  /** The subscription is live, was positioned at start, and its topic still goes by this name. */
  ghost predicate Placed(w: World, s: Sub, n: TopicName, start: int) {
    s in w.db.subs && s in w.book.start && w.book.start[s] == start && n in w.db.topics && w.db.topics[n] == s.topic
  }

  lemma SubscribeKeepsPosition(w: World, op: Op, s: Sub, n: TopicName, start: int)
    requires op.Subscribe? && Placed(w, s, n, start)
    ensures Placed(Next(w, op), s, n, start) && w.db.nextId <= Next(w, op).db.nextId
  {
    NoLoss.SubscribeCases(w.db, w.book, op);
  }

  lemma StepKeepsPosition(w: World, op: Op, s: Sub, n: TopicName, start: int)
    requires Keeps(w.db, op, s) && Placed(w, s, n, start)
    ensures Placed(Next(w, op), s, n, start) && w.db.nextId <= Next(w, op).db.nextId
  {
    if op.Subscribe? { SubscribeKeepsPosition(w, op, s, n, start); }
  }

  lemma {:induction false} RunKeepsPosition(w: World, ops: seq<Op>, s: Sub, n: TopicName, start: int)
    requires NoLoss.Possible(w) && KeepsAll(w, ops, s) && Placed(w, s, n, start)
    ensures NoLoss.Possible(Run(w, ops)) && Placed(Run(w, ops), s, n, start) && w.db.nextId <= Run(w, ops).db.nextId
    decreases |ops|
  {
    if ops == [] {
    } else {
      StepKeepsPosition(w, ops[0], s, n, start);
      NoLoss.PossibleStep(w, ops[0]);
      RunKeepsPosition(Next(w, ops[0]), ops[1..], s, n, start);
    }
  }

  lemma StepKeepsOwed(w: World, op: Op, s: Sub, id: int)
    requires NoLoss.Possible(w) && Keeps(w.db, op, s) && s in w.book.owed && id in w.book.owed[s]
    ensures s in Next(w, op).book.owed && id in Next(w, op).book.owed[s]
    ensures s in w.book.acked && id in w.book.acked[s] ==>
      s in Next(w, op).book.acked && id in Next(w, op).book.acked[s]
  {
    NoLoss.PossibleKeys(w);
    hide Apply, NoLoss.Possible, StoredFrom, LastId, AckedBy;
  }

  /**
   What a subscription is owed it stays owed, and what it has acknowledged stays acknowledged, over
   every run, until it is repositioned by a seek or removed as stale.
   */
  lemma {:induction false} OwedStaysOwed(w: World, ops: seq<Op>, s: Sub, id: int)
    requires NoLoss.Possible(w) && KeepsAll(w, ops, s) && s in w.book.owed && id in w.book.owed[s]
    ensures s in Run(w, ops).book.owed && id in Run(w, ops).book.owed[s]
    ensures s in w.book.acked && id in w.book.acked[s] ==>
      s in Run(w, ops).book.acked && id in Run(w, ops).book.acked[s]
    decreases |ops|
  {
    if ops == [] {
    } else {
      hide Next;
      StepKeepsOwed(w, ops[0], s, id);
      NoLoss.PossibleStep(w, ops[0]);
      OwedStaysOwed(Next(w, ops[0]), ops[1..], s, id);
    }
  }

  /** Placed at or before the next id, a subscription is owed whatever is inserted on its topic next. */
  lemma InsertIsOwed(w: World, s: Sub, n: TopicName, start: int, time: int, content: Content)
    requires NoLoss.Possible(w) && Placed(w, s, n, start) && start <= w.db.nextId
    ensures s in Next(w, Insert(n, time, content)).book.owed
    ensures w.db.nextId in Next(w, Insert(n, time, content)).book.owed[s]
    ensures Stored(Next(w, Insert(n, time, content)).db, s.topic, w.db.nextId)
  {
    NoLoss.PossibleKeys(w);
  }

  lemma LatestPlaces(w: World, op: Op)
    requires NoLoss.Possible(w) && op.Subscribe? && op.latest && op.startId.None?
    requires SubOf(EnsureTopic(w.db, op.topic), op.topic, op.name) !in w.db.subs
    ensures var s := SubOf(EnsureTopic(w.db, op.topic), op.topic, op.name);
            var start := LastId(EnsureTopic(w.db, op.topic), s.topic) + 1;
      && Placed(Next(w, op), s, op.topic, start) && start <= Next(w, op).db.nextId
      && forall id | Stored(w.db, s.topic, id) :: id < start
  {
    FreshIds(w);
    var d := EnsureTopic(w.db, op.topic);
    LatestIsPastAll(d, d.topics[op.topic]);
    forall id | Stored(w.db, d.topics[op.topic], id) ensures id < LastId(d, d.topics[op.topic]) + 1 {
      assert Stored(d, d.topics[op.topic], id);
    }
    NoLoss.SubscribeCases(w.db, w.book, op);
  }

  /**
   A new subscription that starts at the latest position is, until it is repositioned, never owed
   and never handed a message stored before it, and is owed every message inserted on its topic.
   */
  lemma LatestStart(w: World, op: Op, ops: seq<Op>)
    requires NoLoss.Possible(w) && op.Subscribe? && op.latest && op.startId.None?
    requires SubOf(EnsureTopic(w.db, op.topic), op.topic, op.name) !in w.db.subs
    requires KeepsAll(Next(w, op), ops, SubOf(EnsureTopic(w.db, op.topic), op.topic, op.name))
    ensures var s := SubOf(EnsureTopic(w.db, op.topic), op.topic, op.name);
            var v := Run(Next(w, op), ops);
      && (forall id | s in v.book.owed && id in v.book.owed[s] :: !Stored(w.db, s.topic, id))
      && (forall next, id | id in Claims.Claimed(v.db, next, s) :: !Stored(w.db, s.topic, id))
      && (forall time, content :: s in Next(v, Insert(op.topic, time, content)).book.owed
                               && v.db.nextId in Next(v, Insert(op.topic, time, content)).book.owed[s])
  {
    var s := SubOf(EnsureTopic(w.db, op.topic), op.topic, op.name);
    var start := LastId(EnsureTopic(w.db, op.topic), s.topic) + 1;
    LatestPlaces(w, op);
    NoLoss.PossibleStep(w, op);
    RunKeepsPosition(Next(w, op), ops, s, op.topic, start);
    var v := Run(Next(w, op), ops);
    forall id | s in v.book.owed && id in v.book.owed[s] ensures !Stored(w.db, s.topic, id) {
      OwedIsPastStart(v, s, id);
    }
    forall next, id | id in Claims.Claimed(v.db, next, s) ensures !Stored(w.db, s.topic, id) {
      OnlyOwedIsClaimed(v, next, s, id);
    }
    forall time, content
      ensures s in Next(v, Insert(op.topic, time, content)).book.owed
      ensures v.db.nextId in Next(v, Insert(op.topic, time, content)).book.owed[s]
    {
      InsertIsOwed(v, s, op.topic, start, time, content);
    }
  }

  lemma LatestIsPastAll(db: Db, topic: int)
    requires IdsOk(db)
    ensures forall id | Stored(db, topic, id) :: id < LastId(db, topic) + 1
    ensures LastId(db, topic) + 1 <= db.nextId
  {
    var ids := StoredIds(db, topic);
    forall id | Stored(db, topic, id) ensures id <= LastId(db, topic) { assert id in ids; }
    if ids != {} { assert Stored(db, topic, Greatest(ids)); }
  }

  /** The largest signed 64-bit integer, where a seek past the last message puts the cursor. */
  const MAX_ID: int := 0x7fff_ffff_ffff_ffff

  datatype SeekRequest = ToEntry(ledger: nat, entry: int) | ToTime(time: nat) | ToNothing

  /** handleSeek's choice of position; None is the unsupported ledger. */
  function SeekPosition(db: Db, topic: int, req: SeekRequest): Option<int> {
    match req
    case ToEntry(ledger, entry) => if ledger != 0 then None else Some(entry)
    case ToTime(time) =>
      if time == 0 then Some(1)
      else
        var id := FirstAtOrAfter(db, topic, time);
        Some(if id > 0 then id else MAX_ID)
    case ToNothing => Some(1)
  }

  /**
   A seek by time makes every message published at or after it claimable, even when publish
   times do not follow the ids; when there is none, nothing with an id below 2^63 - 1 is.
   */
  lemma SeekByTime(db: Db, s: Sub, time: nat)
    requires IdsOk(db) && s in db.cursors && time > 0
    ensures var p := SeekPosition(db, s.topic, ToTime(time)).value;
            var d := SeekTo(db, s, p);
            var found := exists id :: Stored(db, s.topic, id) && db.messages[id].publishTime >= time;
      && (found ==> forall id | Stored(db, s.topic, id) && db.messages[id].publishTime >= time :: id in Available(d, s))
      && (found ==> Stored(db, s.topic, p) && db.messages[p].publishTime >= time)
      && (!found ==> p == MAX_ID && forall id | id in Available(d, s) :: id >= MAX_ID)
  {
    var ids := PublishedFrom(db, s.topic, time);
    if ids == {} {
      assert forall id :: id !in ids;
    } else {
      assert Least(ids) in ids;
    }
  }
}
