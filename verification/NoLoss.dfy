/** Every operation keeps the invariants of the ledger, so every run does. */
module NoLoss {
  import opened Basics
  import opened TopicNames
  import opened Tables
  import opened Ledger

  // ---------- the tables stay consistent ----------

  lemma TopicConsistent(db: Db, n: TopicName)
    requires Consistent(db)
    ensures Consistent(EnsureTopic(db, n)) && n in EnsureTopic(db, n).topics
    ensures HasTopic(EnsureTopic(db, n), EnsureTopic(db, n).topics[n])
  {
    var d := EnsureTopic(db, n);
    forall t | HasTopic(db, t) ensures HasTopic(d, t) {
      var m :| m in db.topics && db.topics[m] == t;
      assert m in d.topics && d.topics[m] == t;
    }
    assert d.topics[n] == d.topics[n];
  }

  lemma AppendConsistent(db: Db, m: Message)
    requires Consistent(db) && HasTopic(db, m.topic)
    ensures Consistent(AppendMessage(db, m))
  {
    var d := AppendMessage(db, m);
    forall t | HasTopic(db, t) ensures HasTopic(d, t) {
      var n :| n in db.topics && db.topics[n] == t;
      assert n in d.topics && d.topics[n] == t;
    }
    assert db.nextId !in db.messages;
  }

  lemma InsertConsistent(db: Db, n: TopicName, time: int, content: Content)
    requires Consistent(db)
    ensures Consistent(InsertMessage(db, n, time, content))
  {
    TopicConsistent(db, n);
    var d := EnsureTopic(db, n);
    AppendConsistent(d, Message(d.topics[n], time, content));
  }

  lemma AddSubConsistent(db: Db, s: Sub, kind: SubType, start: int, now: int)
    requires Consistent(db) && HasTopic(db, s.topic) && s !in db.subs
    ensures Consistent(AddSub(db, s, kind, start, now))
  {
  }

  lemma TouchConsistent(db: Db, s: Sub, now: int)
    requires Consistent(db) && s in db.subs
    ensures Consistent(TouchSub(db, s, now)) && EnsureCursor(TouchSub(db, s, now), s) == TouchSub(db, s, now)
  {
  }

  /** Deleting pending rows and moving cursors keeps the tables consistent if no kept row's cursor falls below one. */
  lemma RowsConsistent(db: Db, d: Db)
    requires Consistent(db)
    requires d == db.(pending := d.pending, cursors := d.cursors) && d.cursors.Keys == db.cursors.Keys
    requires forall k | k in d.pending :: k in db.pending && k.sub in d.cursors && d.cursors[k.sub] >= 1
    ensures Consistent(d)
  {
    forall k | k in d.pending ensures Stored(d, k.sub.topic, k.id) { assert Stored(db, k.sub.topic, k.id); }
  }

  lemma RemoveConsistent(db: Db, s: Sub, gone: set<int>)
    requires Consistent(db)
    ensures Consistent(RemoveRows(db, s, gone))
  {
    RowsConsistent(db, RemoveRows(db, s, gone));
  }

  lemma RequeueConsistent(db: Db, s: Sub, gone: set<int>)
    requires Consistent(db)
    requires forall id | id in gone :: Slot(s, id) in db.pending
    ensures Consistent(Requeue(db, s, gone))
  {
    if gone != {} { assert Slot(s, Least(gone)) in db.pending; }
    RowsConsistent(db, Requeue(db, s, gone));
  }

  lemma SeekConsistent(db: Db, s: Sub, next: int)
    requires Consistent(db) && s in db.subs
    ensures Consistent(SeekTo(db, s, next))
  {
    RowsConsistent(db, SeekTo(db, s, next));
  }

  lemma LeastHeldIsPositive(db: Db, s: Sub, ids: set<int>)
    requires IdsOk(db) && PendingOk(db) && ids != {} && forall id | id in ids :: Slot(s, id) in db.pending
    ensures Least(ids) >= 1
  {
    assert Slot(s, Least(ids)) in db.pending;
    assert Stored(db, s.topic, Least(ids));
  }

  lemma ExpiryKeepsCursor(db: Db, cutoff: int, s: Sub)
    requires IdsOk(db) && PendingOk(db) && s in db.cursors && db.cursors[s] >= 1
    ensures ExpirePending(db, cutoff).cursors[s] >= 1
  {
    var late := ExpiredIds(db.pending, s, cutoff);
    if late != {} { LeastHeldIsPositive(db, s, late); }
  }

  lemma ExpiryKeepsRow(db: Db, cutoff: int, k: Slot)
    requires Consistent(db) && k in ExpirePending(db, cutoff).pending
    ensures k in db.pending && k.sub in db.cursors && ExpirePending(db, cutoff).cursors[k.sub] >= 1
  {
    hide TopicsOk, SubsOk, ExpiredIds;
    ExpiryKeepsCursor(db, cutoff, k.sub);
  }

  lemma ExpireConsistent(db: Db, cutoff: int)
    requires Consistent(db)
    ensures Consistent(ExpirePending(db, cutoff))
  {
    hide Consistent;
    var d := ExpirePending(db, cutoff);
    forall k | k in d.pending ensures k in db.pending && k.sub in d.cursors && d.cursors[k.sub] >= 1 {
      ExpiryKeepsRow(db, cutoff, k);
    }
    RowsConsistent(db, d);
  }

  lemma DropSubsConsistent(db: Db, gone: set<Sub>)
    requires Consistent(db)
    ensures Consistent(DropSubs(db, gone))
  {
  }

  lemma DropConsumedConsistent(db: Db, ns: Namespace, cutoff: int)
    requires Consistent(db)
    ensures Consistent(PruneConsumed(db, ns, cutoff))
  {
  }

  lemma DropOrphanedConsistent(db: Db, ns: Namespace, cutoff: int)
    requires Consistent(db)
    ensures Consistent(PruneOrphaned(db, ns, cutoff))
  {
  }

  lemma DropEmptyConsistent(db: Db, ns: Namespace, exclude: set<TopicName>)
    requires Consistent(db)
    ensures Consistent(PruneEmpty(db, ns, exclude))
  {
    var d := PruneEmpty(db, ns, exclude);
    forall id | id in db.messages ensures HasTopic(d, db.messages[id].topic) {
      var n :| n in db.topics && db.topics[n] == db.messages[id].topic;
      assert n in d.topics && d.topics[n] == db.messages[id].topic;
    }
    forall s | s in db.subs ensures HasTopic(d, s.topic) {
      var n :| n in db.topics && db.topics[n] == s.topic;
      assert n in d.topics && d.topics[n] == s.topic;
    }
  }

  lemma RepairIsNoOp(db: Db, ns: Namespace)
    requires Consistent(db)
    ensures PruneOrphanRows(db, ns) == db
  {
  }

  /** Every cursor and pending row of the namespace belongs to a subscription. */
  ghost predicate RowsBelong(db: Db, ns: Namespace) {
    (forall s | s in db.cursors && InNamespace(db, s.topic, ns) :: s in db.subs) &&
    (forall k | k in db.pending && InNamespace(db, k.sub.topic, ns) :: k.sub in db.subs)
  }

  /**
   From any tables, even inconsistent ones, one repair makes the namespace's rows belong; where
   they do it changes nothing.
   */
  lemma RepairExactly(db: Db, ns: Namespace)
    ensures RowsBelong(PruneOrphanRows(db, ns), ns)
    ensures RowsBelong(db, ns) <==> PruneOrphanRows(db, ns) == db
    ensures forall s | s in db.subs && s in db.cursors ::
      s in PruneOrphanRows(db, ns).cursors && PruneOrphanRows(db, ns).cursors[s] == db.cursors[s]
    ensures forall k | k in db.pending && k.sub in db.subs ::
      k in PruneOrphanRows(db, ns).pending && PruneOrphanRows(db, ns).pending[k] == db.pending[k]
  {
    var d := PruneOrphanRows(db, ns);
    forall topic ensures InNamespace(d, topic, ns) <==> InNamespace(db, topic, ns) {
      assert d.topics == db.topics;
    }
    if RowsBelong(db, ns) {
      assert d.pending == db.pending && d.cursors == db.cursors;
    }
  }

  lemma SelectedAvailable(db: Db, s: Sub, limit: int)
    requires s in db.cursors
    ensures Ascending(Selected(db, s, limit))
    ensures forall id | id in Selected(db, s, limit) :: id in Available(db, s)
  {
    assert forall id | id in Selected(db, s, limit) :: id in Sorted(Available(db, s));
  }

  lemma ClaimRowsConsistent(db: Db, s: Sub, consumer: int, ids: seq<int>, now: int)
    requires Consistent(db) && s in db.subs
    requires forall id | id in ids :: Stored(db, s.topic, id)
    ensures Consistent(ClaimRows(db, s, consumer, ids, now))
  {
    if ids != [] {
      var last := ids[|ids| - 1];
      assert last in ids;
      assert Stored(db, s.topic, last);
    }
  }

  lemma ClaimConsistent(db: Db, s: Sub, consumer: int, limit: int, now: int)
    requires Consistent(db) && s in db.subs
    ensures Consistent(ClaimBatch(db, s, consumer, limit, now).0)
  {
    var d := TouchSub(db, s, now);
    TouchConsistent(db, s, now);
    assert EnsureCursor(d, s) == d;
    SelectedAvailable(d, s, limit);
    ClaimRowsConsistent(d, s, consumer, Selected(d, s, limit), now);
  }

  // ---------- what is owed stays acknowledged, held or claimable ----------

  lemma TopicPromise(db: Db, book: Book, n: TopicName, s: Sub)
    requires BookKeys(db, book) && s in db.subs && Promise(db, book, s)
    ensures Promise(EnsureTopic(db, n), book, s)
  {
    var d := EnsureTopic(db, n);
    forall id | id in book.owed[s] ensures Safe(d, book, s, id) { assert Safe(db, book, s, id); }
  }

  lemma AppendPromise(db: Db, book: Book, m: Message, s: Sub)
    requires BookKeys(db, book) && s in db.subs && Promise(db, book, s)
    requires IdsOk(db)
    ensures Promise(AppendMessage(db, m), OweNew(book, m.topic, db.nextId), s)
  {
    var d := AppendMessage(db, m);
    var b := OweNew(book, m.topic, db.nextId);
    forall id | id in b.owed[s] ensures Safe(d, b, s, id) {
      if id in book.owed[s] { assert Safe(db, book, s, id); }
    }
  }

  lemma PositionPromise(db: Db, book: Book, s: Sub, start: int)
    requires IdsOk(db) && BookKeys(db, Position(db, book, s, start))
    requires s in db.cursors && db.cursors[s] == start <= Max(start, db.nextId)
    requires forall id :: Slot(s, id) !in db.pending
    ensures Promise(db, Position(db, book, s, start), s)
  {
  }

  /** A step that touches neither a subscription's rows, cursor and book nor the messages keeps its promise. */
  lemma SamePromise(db: Db, book: Book, d: Db, b: Book, s: Sub)
    requires BookKeys(db, book) && s in db.subs && Promise(db, book, s)
    requires BookKeys(d, b) && s in d.subs
    requires d.messages == db.messages && d.nextId == db.nextId && d.cursors[s] == db.cursors[s]
    requires forall id :: Slot(s, id) in d.pending <==> Slot(s, id) in db.pending
    requires b.start[s] == book.start[s] && b.owed[s] == book.owed[s] && b.acked[s] == book.acked[s]
    ensures Promise(d, b, s)
  {
    forall id | id in b.owed[s] ensures Safe(d, b, s, id) { assert Safe(db, book, s, id); }
  }

  lemma ClaimPromise(db: Db, book: Book, s: Sub, consumer: int, ids: seq<int>, now: int)
    requires BookKeys(db, book) && s in db.subs && Promise(db, book, s)
    requires IdsOk(db)
    requires forall id | id in ids :: id in Available(db, s)
    requires forall id | id in Available(db, s) && ids != [] && id <= ids[|ids| - 1] :: id in ids
    ensures BookKeys(ClaimRows(db, s, consumer, ids, now), book)
    ensures Promise(ClaimRows(db, s, consumer, ids, now), book, s)
  {
    var d := ClaimRows(db, s, consumer, ids, now);
    if ids != [] {
      var last := ids[|ids| - 1];
      assert last in ids;
      assert last in Available(db, s);
    }
    forall id | id in book.owed[s] ensures Safe(d, book, s, id) {
      assert Safe(db, book, s, id);
      if id !in book.acked[s] && Slot(s, id) !in db.pending {
        assert id in Available(db, s);
        assert id in ids ==> Slot(s, id) in d.pending;
      }
    }
  }

  lemma AckPromise(db: Db, book: Book, s: Sub, ids: set<int>)
    requires BookKeys(db, book) && s in db.subs && Promise(db, book, s)
    requires forall id | id in ids :: Slot(s, id) in db.pending && Stored(db, s.topic, id)
    ensures Promise(RemoveRows(db, s, ids), Acknowledge(book, s, ids), s)
  {
    var d, b := RemoveRows(db, s, ids), Acknowledge(book, s, ids);
    forall id | id in ids ensures id in book.owed[s] {
      assert Slot(s, id) in db.pending;
      assert Stored(db, s.topic, id);
    }
    forall id | id in b.owed[s] ensures Safe(d, b, s, id) { assert Safe(db, book, s, id); }
  }

  lemma RequeuePromise(db: Db, book: Book, s: Sub, gone: set<int>)
    requires BookKeys(db, book) && s in db.subs && Promise(db, book, s)
    requires forall id | id in gone :: Slot(s, id) in db.pending && Stored(db, s.topic, id)
    ensures Promise(Requeue(db, s, gone), book, s)
  {
    var d := Requeue(db, s, gone);
    forall id | id in book.owed[s] ensures Safe(d, book, s, id) { assert Safe(db, book, s, id); }
  }

  /** Removing messages that are neither held by nor still claimable for any subscription. */
  lemma PrunePromise(db: Db, book: Book, d: Db, s: Sub)
    requires BookKeys(db, book) && s in db.subs && Promise(db, book, s)
    requires d == db.(messages := d.messages)
    requires forall id :: Stored(d, s.topic, id) ==> Stored(db, s.topic, id)
    requires forall id :: Claimable(db, s, id) ==> Stored(d, s.topic, id)
    ensures Promise(d, book, s)
  {
    forall id | id in book.owed[s] ensures Safe(d, book, s, id) { assert Safe(db, book, s, id); }
  }

  lemma TopicKept(db: Db, book: Book, n: TopicName)
    requires Kept(db, book)
    ensures Kept(EnsureTopic(db, n), book)
  {
    hide Promise;
    forall s | s in db.subs ensures Promise(EnsureTopic(db, n), book, s) { TopicPromise(db, book, n, s); }
  }

  lemma AppendKept(db: Db, book: Book, m: Message)
    requires Kept(db, book) && IdsOk(db)
    ensures Kept(AppendMessage(db, m), OweNew(book, m.topic, db.nextId))
  {
    hide Promise;
    forall s | s in db.subs ensures Promise(AppendMessage(db, m), OweNew(book, m.topic, db.nextId), s) {
      AppendPromise(db, book, m, s);
    }
  }

  lemma InsertKept(db: Db, book: Book, n: TopicName, time: int, content: Content)
    requires Kept(db, book) && IdsOk(db)
    ensures Kept(InsertMessage(db, n, time, content), Record(db, book, Insert(n, time, content)))
  {
    hide Promise;
    TopicKept(db, book, n);
    var d := EnsureTopic(db, n);
    AppendKept(d, book, Message(d.topics[n], time, content));
  }

  /** The other subscriptions' promises are not touched by placing one. */
  lemma PositionKept(db: Db, book: Book, d: Db, s: Sub, start: int)
    requires Kept(db, book) && IdsOk(db)
    requires d.messages == db.messages && d.nextId == db.nextId
    requires d.subs.Keys == d.cursors.Keys == db.subs.Keys + {s}
    requires d.cursors[s] == start && forall id :: Slot(s, id) !in d.pending
    requires forall k: Slot | k.sub != s :: k in d.pending <==> k in db.pending
    requires forall r | r in db.subs && r != s :: d.cursors[r] == db.cursors[r]
    ensures Kept(d, Position(d, book, s, start))
  {
    hide Promise;
    var b := Position(d, book, s, start);
    assert BookKeys(d, b);
    PositionPromise(d, book, s, start);
    forall r | r in d.subs && r != s ensures Promise(d, b, r) { SamePromise(db, book, d, b, r); }
  }

  lemma AddSubKept(db: Db, book: Book, s: Sub, kind: SubType, start: int, now: int)
    requires Kept(db, book) && IdsOk(db) && PendingOk(db) && s !in db.subs
    ensures Kept(AddSub(db, s, kind, start, now), Position(db, book, s, start))
  {
    hide Promise;
    var d := AddSub(db, s, kind, start, now);
    assert StoredFrom(d, s.topic, start) == StoredFrom(db, s.topic, start);
    PositionKept(db, book, d, s, start);
  }

  lemma SeekKept(db: Db, book: Book, s: Sub, next: int)
    requires Kept(db, book) && IdsOk(db) && s in db.subs
    ensures Kept(SeekTo(db, s, next), Position(db, book, s, Max(next, 1)))
  {
    hide Promise;
    var d := SeekTo(db, s, next);
    assert StoredFrom(d, s.topic, Max(next, 1)) == StoredFrom(db, s.topic, Max(next, 1));
    PositionKept(db, book, d, s, Max(next, 1));
  }

  lemma TouchKept(db: Db, book: Book, s: Sub, now: int)
    requires Kept(db, book) && s in db.subs
    ensures Kept(TouchSub(db, s, now), book)
  {
    hide Promise;
    var d := TouchSub(db, s, now);
    forall r | r in d.subs ensures Promise(d, book, r) { SamePromise(db, book, d, book, r); }
  }

  lemma SelectedIsPrefix(db: Db, s: Sub, limit: int)
    requires s in db.cursors
    ensures var ids := Selected(db, s, limit);
            forall id | id in Available(db, s) && ids != [] && id <= ids[|ids| - 1] :: id in ids
  {
    var q := Sorted(Available(db, s));
    var ids := Selected(db, s, limit);
    forall id | id in Available(db, s) && ids != [] && id <= ids[|ids| - 1] ensures id in ids {
      assert id in q;
      var k :| 0 <= k < |q| && q[k] == id;
      assert k <= |ids| - 1 && ids[k] == id;
    }
  }

  lemma ClaimRowsKept(db: Db, book: Book, s: Sub, consumer: int, ids: seq<int>, now: int)
    requires Kept(db, book) && IdsOk(db) && s in db.subs
    requires forall id | id in ids :: id in Available(db, s)
    requires forall id | id in Available(db, s) && ids != [] && id <= ids[|ids| - 1] :: id in ids
    ensures Kept(ClaimRows(db, s, consumer, ids, now), book)
  {
    hide Promise;
    ClaimPromise(db, book, s, consumer, ids, now);
    var d := ClaimRows(db, s, consumer, ids, now);
    forall r | r in d.subs && r != s ensures Promise(d, book, r) { SamePromise(db, book, d, book, r); }
  }

  lemma ClaimKept(db: Db, book: Book, s: Sub, consumer: int, limit: int, now: int)
    requires Kept(db, book) && IdsOk(db) && s in db.subs
    ensures Kept(ClaimBatch(db, s, consumer, limit, now).0, book)
  {
    hide Promise;
    var d := TouchSub(db, s, now);
    TouchKept(db, book, s, now);
    assert EnsureCursor(d, s) == d;
    SelectedAvailable(d, s, limit);
    SelectedIsPrefix(d, s, limit);
    ClaimRowsKept(d, book, s, consumer, Selected(d, s, limit), now);
  }

  lemma AckKept(db: Db, book: Book, s: Sub, ids: set<int>)
    requires Kept(db, book) && PendingOk(db)
    requires forall id | id in ids :: Slot(s, id) in db.pending
    ensures Kept(RemoveRows(db, s, ids), Acknowledge(book, s, ids))
  {
    hide Promise;
    var d, b := RemoveRows(db, s, ids), Acknowledge(book, s, ids);
    if s in db.subs { AckPromise(db, book, s, ids); }
    forall r | r in d.subs && r != s ensures Promise(d, b, r) { SamePromise(db, book, d, b, r); }
  }

  lemma RequeueKept(db: Db, book: Book, s: Sub, gone: set<int>)
    requires Kept(db, book) && PendingOk(db)
    requires forall id | id in gone :: Slot(s, id) in db.pending
    ensures Kept(Requeue(db, s, gone), book)
  {
    hide Promise;
    var d := Requeue(db, s, gone);
    if s in db.subs { RequeuePromise(db, book, s, gone); }
    forall r | r in d.subs && r != s ensures Promise(d, book, r) { SamePromise(db, book, d, book, r); }
  }

  lemma ForgetKept(db: Db, book: Book, gone: set<Sub>)
    requires Kept(db, book)
    ensures Kept(DropSubs(db, gone), Forget(book, gone))
  {
    hide Promise;
    var d, b := DropSubs(db, gone), Forget(book, gone);
    forall r | r in d.subs ensures Promise(d, b, r) { SamePromise(db, book, d, b, r); }
  }

  /** For one subscription, expiry is the requeue of its own expired rows. */
  lemma ExpireIsRequeue(db: Db, s: Sub, cutoff: int)
    requires s in db.cursors
    ensures var late := ExpiredIds(db.pending, s, cutoff);
            var d, e := ExpirePending(db, cutoff), Requeue(db, s, late);
            && d.cursors[s] == e.cursors[s]
            && forall id :: (Slot(s, id) in d.pending <==> Slot(s, id) in e.pending)
                         && (Slot(s, id) in d.pending ==> d.pending[Slot(s, id)] == e.pending[Slot(s, id)])
  {
  }

  lemma ExpirePromise(db: Db, book: Book, cutoff: int, s: Sub)
    requires Kept(db, book) && PendingOk(db) && s in db.subs
    ensures BookKeys(ExpirePending(db, cutoff), book) && Promise(ExpirePending(db, cutoff), book, s)
  {
    hide Promise;
    var late := ExpiredIds(db.pending, s, cutoff);
    ExpireIsRequeue(db, s, cutoff);
    RequeueKept(db, book, s, late);
    SamePromise(Requeue(db, s, late), book, ExpirePending(db, cutoff), book, s);
  }

  lemma ExpireKept(db: Db, book: Book, cutoff: int)
    requires Kept(db, book) && PendingOk(db)
    ensures Kept(ExpirePending(db, cutoff), book)
  {
    hide Promise;
    var d := ExpirePending(db, cutoff);
    forall s | s in d.subs ensures Promise(d, book, s) { ExpirePromise(db, book, cutoff, s); }
  }

  lemma ConsumedKept(db: Db, book: Book, ns: Namespace, cutoff: int)
    requires Kept(db, book)
    ensures Kept(PruneConsumed(db, ns, cutoff), book)
  {
    hide Promise;
    var d := PruneConsumed(db, ns, cutoff);
    forall s | s in d.subs ensures Promise(d, book, s) { PrunePromise(db, book, d, s); }
  }

  lemma OrphanedKept(db: Db, book: Book, ns: Namespace, cutoff: int)
    requires Kept(db, book)
    ensures Kept(PruneOrphaned(db, ns, cutoff), book)
  {
    hide Promise;
    var d := PruneOrphaned(db, ns, cutoff);
    forall s | s in d.subs ensures Promise(d, book, s) { PrunePromise(db, book, d, s); }
  }

  lemma EmptyTopicsKept(db: Db, book: Book, ns: Namespace, exclude: set<TopicName>)
    requires Kept(db, book)
    ensures Kept(PruneEmpty(db, ns, exclude), book)
  {
    hide Promise;
    var d := PruneEmpty(db, ns, exclude);
    forall s | s in d.subs ensures Promise(d, book, s) { SamePromise(db, book, d, book, s); }
  }

  // ---------- requeues are one operation ----------

  /** On tables whose held rows have positive ids, dropping is a requeue unless the cursor is at zero and rows go. */
  lemma DropIsRequeueUnlessZero(db: Db, s: Sub, consumer: int)
    requires s in db.cursors && forall id | Slot(s, id) in db.pending :: id >= 1
    ensures DropPending(db, s, consumer) == Requeue(db, s, HeldBy(db.pending, s, consumer))
       <==> db.cursors[s] != 0 || HeldBy(db.pending, s, consumer) == {}
  {
    var mine := HeldBy(db.pending, s, consumer);
    if mine != {} {
      assert Slot(s, Least(mine)) in db.pending;
      assert Lowered(db.cursors, s, mine)[s] == Min(db.cursors[s], Least(mine));
    }
  }

  /**
   In a consistent store a disconnect requeues exactly the consumer's rows, and does nothing for
   an unknown subscription.
   */
  lemma DropIsRequeue(db: Db, s: Sub, consumer: int)
    requires Consistent(db)
    ensures DropPending(db, s, consumer) == Requeue(db, s, HeldBy(db.pending, s, consumer))
  {
    var mine := HeldBy(db.pending, s, consumer);
    if mine != {} { assert Slot(s, Least(mine)) in db.pending; }
    if s in db.cursors {
      DropIsRequeueUnlessZero(db, s, consumer);
    } else {
      assert Without(db.pending, s, mine) == db.pending;
    }
  }

  /** Redelivery without ids is the disconnect's requeue. */
  lemma RedeliverAllIsDrop(db: Db, n: TopicName, name: string, consumer: int)
    requires Consistent(db)
    ensures Apply(db, Redeliver(n, name, consumer, [])) == Apply(db, Drop(n, name, consumer))
  {
    DropIsRequeue(db, SubOf(db, n, name), consumer);
  }

  // ---------- the main theorem ----------

  lemma SubscribeConsistent(db: Db, n: TopicName, name: string, latest: bool,
                            startId: Option<int>, kind: Option<SubType>, now: int)
    requires Consistent(db)
    ensures Consistent(Apply(db, Subscribe(n, name, latest, startId, kind, now)))
  {
    SubscribeCases(db, Book(map[], map[], map[]), Subscribe(n, name, latest, startId, kind, now));
    hide Consistent;
    var d := EnsureTopic(db, n);
    var s := Sub(d.topics[n], name);
    TopicConsistent(db, n);
    if s !in d.subs {
      AddSubConsistent(d, s, if kind.Some? then kind.value else Shared, StartOf(d, s.topic, latest, startId), now);
    } else if !(kind.Some? && d.subs[s].kind != kind.value) {
      TouchConsistent(d, s, now);
    }
  }

  /** What EnsureSubscription does in each of its three cases. */
  lemma SubscribeCases(db: Db, book: Book, op: Op)
    requires op.Subscribe?
    ensures var d := EnsureTopic(db, op.topic);
            var s := Sub(d.topics[op.topic], op.name);
            var start := StartOf(d, s.topic, op.latest, op.startId);
            var w := Next(World(db, book), op);
      && (s !in d.subs ==>
            w == World(AddSub(d, s, if op.kind.Some? then op.kind.value else Shared, start, op.now),
                       Position(d, book, s, start)))
      && (s in d.subs && op.kind.Some? && d.subs[s].kind != op.kind.value ==> w == World(db, book))
      && (s in d.subs && !(op.kind.Some? && d.subs[s].kind != op.kind.value) ==>
            w == World(EnsureCursor(TouchSub(d, s, op.now), s), book))
  {
  }

  lemma SubscribeKept(db: Db, book: Book, op: Op)
    requires IdsOk(db) && PendingOk(db) && Kept(db, book) && op.Subscribe?
    ensures Kept(Next(World(db, book), op).db, Next(World(db, book), op).book)
  {
    hide Promise;
    SubscribeCases(db, book, op);
    var d := EnsureTopic(db, op.topic);
    var s := Sub(d.topics[op.topic], op.name);
    TopicKept(db, book, op.topic);
    if s !in d.subs {
      AddSubKept(d, book, s, if op.kind.Some? then op.kind.value else Shared,
                 StartOf(d, s.topic, op.latest, op.startId), op.now);
    } else {
      TouchKept(d, book, s, op.now);
    }
  }

  /** The referential invariant is kept by every operation. */
  lemma StepConsistent(db: Db, op: Op)
    requires Consistent(db)
    ensures Consistent(Apply(db, op))
  {
    assert db.cursors.Keys == db.subs.Keys;
    hide Consistent;
    match op
    case Insert(n, time, content) => InsertConsistent(db, n, time, content);
    case Subscribe(n, name, latest, startId, kind, now) => SubscribeConsistent(db, n, name, latest, startId, kind, now);
    case Claim(n, name, consumer, limit, now) =>
      if SubOf(db, n, name) in db.subs { ClaimConsistent(db, SubOf(db, n, name), consumer, limit, now); }
    case AckIds(n, name, _, _) => RemoveConsistent(db, SubOf(db, n, name), AckedBy(db, op));
    case AckUpTo(n, name, _, _) => RemoveConsistent(db, SubOf(db, n, name), AckedBy(db, op));
    case Drop(n, name, consumer) =>
      var s := SubOf(db, n, name);
      DropIsRequeue(db, s, consumer);
      RequeueConsistent(db, s, HeldBy(db.pending, s, consumer));
    case Redeliver(n, name, consumer, ids) =>
      var s := SubOf(db, n, name);
      RequeueConsistent(db, s, RedeliveredIds(db.pending, s, consumer, ids));
    case Seek(n, name, next) =>
      if SubOf(db, n, name) in db.cursors { SeekConsistent(db, SubOf(db, n, name), next); }
    case Expire(cutoff) => ExpireConsistent(db, cutoff);
    case Touch(n, name, now) =>
      if SubOf(db, n, name) in db.subs { TouchConsistent(db, SubOf(db, n, name), now); }
    case DropStale(ns, cutoff) => DropSubsConsistent(db, StaleSubs(db, ns, cutoff));
    case DropConsumed(ns, cutoff) => DropConsumedConsistent(db, ns, cutoff);
    case DropOrphaned(ns, cutoff) => DropOrphanedConsistent(db, ns, cutoff);
    case DropEmptyTopics(ns, exclude) => DropEmptyConsistent(db, ns, exclude);
    case RepairRows(ns) => RepairIsNoOp(db, ns);
    case Restart =>
  }

  /** The promise to every subscription is kept by every operation. */
  lemma StepKept(db: Db, book: Book, op: Op)
    requires Consistent(db) && Kept(db, book)
    ensures Kept(Apply(db, op), Record(db, book, op))
  {
    hide Promise;
    match op
    case Insert(n, time, content) => InsertKept(db, book, n, time, content);
    case Subscribe(_, _, _, _, _, _) => SubscribeKept(db, book, op);
    case Claim(n, name, consumer, limit, now) =>
      if SubOf(db, n, name) in db.subs { ClaimKept(db, book, SubOf(db, n, name), consumer, limit, now); }
    case AckIds(n, name, _, _) => AckKept(db, book, SubOf(db, n, name), AckedBy(db, op));
    case AckUpTo(n, name, _, _) => AckKept(db, book, SubOf(db, n, name), AckedBy(db, op));
    case Drop(n, name, consumer) =>
      var s := SubOf(db, n, name);
      DropIsRequeue(db, s, consumer);
      RequeueKept(db, book, s, HeldBy(db.pending, s, consumer));
    case Redeliver(n, name, consumer, ids) =>
      var s := SubOf(db, n, name);
      RequeueKept(db, book, s, RedeliveredIds(db.pending, s, consumer, ids));
    case Seek(n, name, next) =>
      if SubOf(db, n, name) in db.cursors { SeekKept(db, book, SubOf(db, n, name), next); }
    case Expire(cutoff) => ExpireKept(db, book, cutoff);
    case Touch(n, name, now) =>
      if SubOf(db, n, name) in db.subs { TouchKept(db, book, SubOf(db, n, name), now); }
    case DropStale(ns, cutoff) => ForgetKept(db, book, StaleSubs(db, ns, cutoff));
    case DropConsumed(ns, cutoff) => ConsumedKept(db, book, ns, cutoff);
    case DropOrphaned(ns, cutoff) => OrphanedKept(db, book, ns, cutoff);
    case DropEmptyTopics(ns, exclude) => EmptyTopicsKept(db, book, ns, exclude);
    case RepairRows(ns) => RepairIsNoOp(db, ns);
    case Restart =>
  }

  lemma {:induction false} RunInv(w: World, ops: seq<Op>)
    requires Inv(w)
    ensures Inv(Run(w, ops))
    decreases |ops|
  {
    if ops == [] {
    } else {
      StepConsistent(w.db, ops[0]);
      StepKept(w.db, w.book, ops[0]);
      RunInv(Next(w, ops[0]), ops[1..]);
    }
  }

  /** No loss: after any run from empty tables, each id a subscription is owed is acked, held, or claimable. */
  lemma NoLossOnEveryRun(ops: seq<Op>, s: Sub, id: int)
    requires s in Run(START, ops).book.owed && id in Run(START, ops).book.owed[s]
    ensures var w := Run(START, ops);
      && s in w.db.subs && s in w.db.cursors && s in w.book.acked
      && (id in w.book.acked[s]
          || (Slot(s, id) in w.db.pending && Stored(w.db, s.topic, id))
          || (Stored(w.db, s.topic, id) && w.db.cursors[s] <= id))
  {
    RunInv(START, ops);
    var w := Run(START, ops);
    assert Promise(w.db, w.book, s);
    assert Safe(w.db, w.book, s, id);
  }

  // ---------- reachable tables ----------

  /** Tables some run of operations leads to. */
  ghost predicate Reachable(db: Db) {
    exists ops :: Run(START, ops).db == db
  }

  /** Tables and books some run of operations leads to. */
  ghost predicate Possible(w: World) {
    exists ops :: Run(START, ops) == w
  }

  lemma {:induction false} RunAppend(w: World, ops: seq<Op>, op: Op)
    ensures Run(w, ops + [op]) == Next(Run(w, ops), op)
    decreases |ops|
  {
    if ops == [] {
      assert Run(Next(w, op), []) == Next(w, op);
      assert ([op])[1..] == [];
    } else {
      assert (ops + [op])[1..] == ops[1..] + [op];
      RunAppend(Next(w, ops[0]), ops[1..], op);
    }
  }

  lemma ReachableStep(db: Db, op: Op)
    requires Reachable(db)
    ensures Reachable(Apply(db, op))
  {
    var ops :| Run(START, ops).db == db;
    RunAppend(START, ops, op);
    assert Run(START, ops + [op]).db == Apply(db, op);
  }

  lemma PossibleStep(w: World, op: Op)
    requires Possible(w)
    ensures Possible(Next(w, op))
  {
    var ops :| Run(START, ops) == w;
    RunAppend(START, ops, op);
    assert Run(START, ops + [op]) == Next(w, op);
  }

  lemma PossibleInv(w: World)
    requires Possible(w)
    ensures Inv(w)
  {
    var ops :| Run(START, ops) == w;
    RunInv(START, ops);
  }

  lemma StartPossible()
    ensures Possible(START)
  {
    assert Run(START, []) == START;
  }

  lemma PossibleReachable(w: World)
    requires Possible(w)
    ensures Reachable(w.db)
  {
    var ops :| Run(START, ops) == w;
    assert Run(START, ops).db == w.db;
  }

  lemma PossibleKeys(w: World)
    requires Possible(w)
    ensures BookKeys(w.db, w.book)
  {
    PossibleInv(w);
  }

  lemma EmptyReachable()
    ensures Reachable(EMPTY)
  {
    assert Run(START, []).db == EMPTY;
  }

  /** The referential invariant holds of every reachable store. */
  lemma ReachableConsistent(db: Db)
    requires Reachable(db)
    ensures Consistent(db)
  {
    var ops :| Run(START, ops).db == db;
    RunInv(START, ops);
  }

  /** Topic row ids start at one, so a name without a row matches no subscription and no pending row. */
  lemma NoTopicZero(db: Db, name: string)
    requires Reachable(db)
    ensures Sub(0, name) !in db.subs && Sub(0, name) !in db.cursors
    ensures forall id :: Slot(Sub(0, name), id) !in db.pending
  {
    ReachableConsistent(db);
    assert !HasTopic(db, 0);
  }

  /** The next topic row id names nothing yet. */
  lemma NewTopicIsUnused(db: Db)
    requires Reachable(db)
    ensures forall id :: !Stored(db, db.nextTopic, id)
    ensures forall name ::
      Sub(db.nextTopic, name) !in db.subs && forall id :: Slot(Sub(db.nextTopic, name), id) !in db.pending
  {
    ReachableConsistent(db);
    assert !HasTopic(db, db.nextTopic);
    forall id | id in db.messages ensures db.messages[id].topic != db.nextTopic {
      assert HasTopic(db, db.messages[id].topic);
    }
  }

  lemma NextIdIsFresh(db: Db)
    requires Reachable(db)
    ensures db.nextId >= 1 && db.nextId !in db.messages
  {
    ReachableConsistent(db);
  }

  /** A cursor row exists exactly when its subscription does. */
  lemma CursorsMatchSubs(db: Db)
    requires Reachable(db)
    ensures db.cursors.Keys == db.subs.Keys
  {
    ReachableConsistent(db);
  }

  /** A held row's subscription has a cursor past zero, and its id is positive. */
  lemma HeldRows(db: Db, s: Sub)
    requires Reachable(db)
    ensures forall id | Slot(s, id) in db.pending ::
      id >= 1 && s in db.subs && s in db.cursors && db.cursors[s] >= 1 && Stored(db, s.topic, id)
  {
    ReachableConsistent(db);
    forall id | Slot(s, id) in db.pending
      ensures id >= 1 && s in db.subs && s in db.cursors && db.cursors[s] >= 1 && Stored(db, s.topic, id)
    {
      assert Slot(s, id).sub == s;
      assert Stored(db, s.topic, id);
    }
  }

  lemma ReachableDrop(db: Db, s: Sub, consumer: int)
    requires Reachable(db)
    ensures DropPending(db, s, consumer) == Requeue(db, s, HeldBy(db.pending, s, consumer))
  {
    ReachableConsistent(db);
    DropIsRequeue(db, s, consumer);
  }

  lemma ReachableRepair(db: Db, ns: Namespace)
    requires Reachable(db)
    ensures PruneOrphanRows(db, ns) == db
  {
    ReachableConsistent(db);
    RepairIsNoOp(db, ns);
  }
}
