/**
 What each transaction does to the rows, in the tables' own columns: the statements name no
 function that computes an effect. Topics are known by name, as the SQL's parameters know them.
 */
module Effects {
  import opened Basics
  import opened TopicNames
  import opened Tables
  import opened Ledger
  import NoLoss
  import Claims

  /** The rows of one topic of a namespace. */
  ghost predicate TopicIn(db: Db, topic: int, ns: Namespace) {
    exists n :: n in db.topics && db.topics[n] == topic && n.tenant == ns.tenant && n.namespace == ns.name
  }

  ghost predicate Freed(db: Db, d: Db, s: Sub, id: int) {
    Slot(s, id) in db.pending && Slot(s, id) !in d.pending
  }

  /** The cursor went back to the least id freed, if that lies before it, and stayed otherwise. */
  ghost predicate Rewound(db: Db, d: Db, s: Sub) {
    && s in db.cursors && s in d.cursors && d.cursors[s] <= db.cursors[s]
    && (forall id | Freed(db, d, s, id) :: d.cursors[s] <= id)
    && (d.cursors[s] == db.cursors[s] || Freed(db, d, s, d.cursors[s]))
  }

  /** Some pending rows went, with each cursor going back to the least one of its own; nothing else changed. */
  ghost predicate OnlyFrees(db: Db, d: Db) {
    && d == db.(pending := d.pending, cursors := d.cursors) && d.cursors.Keys == db.cursors.Keys
    && (forall k | k in d.pending :: k in db.pending && d.pending[k] == db.pending[k])
    && (forall s | s in db.cursors :: Rewound(db, d, s))
  }

  lemma {:induction false} LeastIsRewound(db: Db, d: Db, s: Sub, gone: set<int>)
    requires s in db.cursors && s in d.cursors && forall id :: id in gone <==> Freed(db, d, s, id)
    requires d.cursors[s] == if gone == {} then db.cursors[s] else Min(db.cursors[s], Least(gone))
    ensures Rewound(db, d, s)
  {
    if gone == {} {
      assert forall id :: !Freed(db, d, s, id) by { assert forall id :: id !in gone; }
    } else {
      assert Freed(db, d, s, Least(gone));
    }
  }

  lemma RequeueFrees(db: Db, s: Sub, gone: set<int>)
    requires forall id | id in gone :: Slot(s, id) in db.pending
    ensures OnlyFrees(db, Requeue(db, s, gone))
    ensures forall k :: k in Requeue(db, s, gone).pending <==> k in db.pending && !(k.sub == s && k.id in gone)
  {
    var d := Requeue(db, s, gone);
    forall r | r in db.cursors ensures Rewound(db, d, r) {
      if r == s {
        LeastIsRewound(db, d, s, gone);
      } else {
        assert forall id :: !Freed(db, d, r, id);
      }
    }
  }

  // ---------- what frees rows ----------

  /** Redelivery takes the consumer's rows that are listed, or all of them when none is. */
  lemma RedeliverExactly(db: Db, n: TopicName, name: string, consumer: int, ids: seq<int>)
    requires n in db.topics
    ensures var d := Apply(db, Redeliver(n, name, consumer, ids));
      && OnlyFrees(db, d)
      && forall k :: k in d.pending <==>
           k in db.pending && !(k.sub == Sub(db.topics[n], name) && db.pending[k].consumer == consumer
                                && (ids == [] || k.id in ids))
  {
    var s := Sub(db.topics[n], name);
    RequeueFrees(db, s, RedeliveredIds(db.pending, s, consumer, ids));
  }

  /** A disconnect takes all the consumer's rows of one subscription. */
  lemma DropExactly(db: Db, n: TopicName, name: string, consumer: int)
    requires NoLoss.Reachable(db) && n in db.topics
    ensures var d := Apply(db, Drop(n, name, consumer));
      && OnlyFrees(db, d)
      && forall k :: k in d.pending <==>
           k in db.pending && !(k.sub == Sub(db.topics[n], name) && db.pending[k].consumer == consumer)
  {
    var s := Sub(db.topics[n], name);
    NoLoss.ReachableDrop(db, s, consumer);
    RequeueFrees(db, s, HeldBy(db.pending, s, consumer));
  }

  /** An expiry takes the rows handed out before the cutoff, of every subscription. */
  lemma ExpireExactly(db: Db, cutoff: int)
    ensures var d := Apply(db, Expire(cutoff));
      && OnlyFrees(db, d)
      && forall k :: k in d.pending <==> k in db.pending && db.pending[k].deliveredAt >= cutoff
  {
    var d := Apply(db, Expire(cutoff));
    forall s | s in db.cursors ensures Rewound(db, d, s) {
      LeastIsRewound(db, d, s, ExpiredIds(db.pending, s, cutoff));
    }
  }

  // ---------- what adds rows ----------

  /** A publish stores its content and time under the topic's id, which it creates when there is none. */
  lemma InsertExactly(db: Db, n: TopicName, time: int, content: Content)
    ensures var d := Apply(db, Insert(n, time, content));
      && n in d.topics && d.topics == (if n in db.topics then db.topics else db.topics[n := db.nextTopic])
      && d.messages.Keys == db.messages.Keys + {db.nextId}
      && d.messages[db.nextId].content == content && d.messages[db.nextId].publishTime == time
      && d.messages[db.nextId].topic == d.topics[n]
      && (forall id | id in db.messages && id != db.nextId :: d.messages[id] == db.messages[id])
      && d.nextId > db.nextId && d.subs == db.subs && d.cursors == db.cursors && d.pending == db.pending
  {
  }

  /** A claim stamps its subscription, and gives the consumer rows for stored messages that had none. */
  lemma ClaimExactly(db: Db, n: TopicName, name: string, consumer: int, limit: int, now: int)
    requires NoLoss.Reachable(db) && n in db.topics && Sub(db.topics[n], name) in db.subs
    ensures var s := Sub(db.topics[n], name);
            var d := Apply(db, Claim(n, name, consumer, limit, now));
      && d == db.(subs := db.subs[s := SubRow(db.subs[s].kind, now)], cursors := d.cursors, pending := d.pending)
      && (forall k | k in db.pending :: k in d.pending && d.pending[k] == db.pending[k])
      && (forall k | k in d.pending && k !in db.pending ::
            k.sub == s && d.pending[k] == Holder(consumer, now) && k.id in db.messages
            && db.messages[k.id].topic == s.topic && s in db.cursors && db.cursors[s] <= k.id)
      && (forall r | r in db.cursors && r != s :: r in d.cursors && d.cursors[r] == db.cursors[r])
  {
    var s := Sub(db.topics[n], name);
    NoLoss.CursorsMatchSubs(db);
    var e := TouchSub(db, s, now);
    NoLoss.SelectedAvailable(e, s, limit);
  }

  /** A stored message that the subscription does not hold, at or past its cursor. */
  ghost predicate Free(db: Db, s: Sub, id: int) {
    && id in db.messages && db.messages[id].topic == s.topic
    && s in db.cursors && db.cursors[s] <= id && Slot(s, id) !in db.pending
  }

  /** A claim hands out the first free messages in order: as many as the limit allows, or all of them. */
  lemma ClaimFromFront(db: Db, n: TopicName, name: string, consumer: int, limit: int, now: int)
    requires NoLoss.Reachable(db) && n in db.topics && Sub(db.topics[n], name) in db.subs
    ensures var s := Sub(db.topics[n], name);
            var handed := Claims.Claimed(db, Claim(n, name, consumer, limit, now), s);
      && Ascending(handed) && (forall id | id in handed :: Free(db, s, id))
      && (forall id, other | id in handed && Free(db, s, other) && other !in handed :: id < other)
      && (limit >= 0 ==> |handed| <= limit)
      && (limit < 0 || |handed| < limit ==> forall other | Free(db, s, other) :: other in handed)
  {
    var s := Sub(db.topics[n], name);
    NoLoss.CursorsMatchSubs(db);
    ClaimIsBatch(db, n, name, consumer, limit, now);
    Claims.ClaimTakesFront(db, s, consumer, limit, now);
    QueueIsFree(db, s);
    hide *;
    FirstOnes(Claims.Queue(db, s), |ClaimBatch(db, s, consumer, limit, now).1|);
  }

  /** What it hands out is what it adds rows for, and the cursor moves just past the last of it. */
  lemma ClaimHandsOut(db: Db, n: TopicName, name: string, consumer: int, limit: int, now: int)
    requires NoLoss.Reachable(db) && n in db.topics && Sub(db.topics[n], name) in db.subs
    ensures var s := Sub(db.topics[n], name);
            var op := Claim(n, name, consumer, limit, now);
            var handed := Claims.Claimed(db, op, s);
            var d := Apply(db, op);
      && (forall id :: id in handed <==> Slot(s, id) in d.pending && Slot(s, id) !in db.pending)
      && s in db.cursors && s in d.cursors
      && d.cursors[s] == if handed == [] then db.cursors[s] else handed[|handed| - 1] + 1
  {
    NoLoss.CursorsMatchSubs(db);
    ClaimIsBatch(db, n, name, consumer, limit, now);
    ClaimedRows(db, Sub(db.topics[n], name), consumer, limit, now);
    hide *;
  }

  lemma ClaimIsBatch(db: Db, n: TopicName, name: string, consumer: int, limit: int, now: int)
    requires n in db.topics && Sub(db.topics[n], name) in db.subs
    ensures var s := Sub(db.topics[n], name);
            var op := Claim(n, name, consumer, limit, now);
      (Apply(db, op), Claims.Claimed(db, op, s)) == ClaimBatch(db, s, consumer, limit, now)
  {
  }

  lemma QueueIsFree(db: Db, s: Sub)
    requires s in db.cursors
    ensures var q := Claims.Queue(db, s);
      Ascending(q) && forall id :: id in q <==> Free(db, s, id)
  {
  }

  lemma FirstOnes(q: seq<int>, k: nat)
    requires Ascending(q) && k <= |q|
    ensures var front := q[..k];
      && Ascending(front) && (forall x | x in front :: x in q) && (k == |q| ==> front == q)
      && forall x, y | x in front && y in q && y !in front :: x < y
  {
    hide Ascending;
    forall j | 0 <= j < k ensures q[j] in q[..k] { assert q[..k][j] == q[j]; }
    forall x, y | x in q[..k] && y in q && y !in q[..k] ensures x < y {
      var i :| 0 <= i < k && q[i] == x;
      var j :| 0 <= j < |q| && q[j] == y;
      InOrder(q, i, j);
    }
    FrontAscends(q, k);
  }

  lemma InOrder(q: seq<int>, i: nat, j: nat)
    requires Ascending(q) && i < j < |q|
    ensures q[i] < q[j]
  {
  }

  lemma FrontAscends(q: seq<int>, k: nat)
    requires Ascending(q) && k <= |q|
    ensures Ascending(q[..k])
  {
  }

  lemma ClaimedRows(db: Db, s: Sub, consumer: int, limit: int, now: int)
    requires s in db.subs && s in db.cursors
    ensures var (d, ids) := ClaimBatch(db, s, consumer, limit, now);
      && (forall id :: id in ids <==> Slot(s, id) in d.pending && Slot(s, id) !in db.pending)
      && s in d.cursors && d.cursors[s] == if ids == [] then db.cursors[s] else ids[|ids| - 1] + 1
  {
    NoLoss.SelectedAvailable(TouchSub(db, s, now), s, limit);
  }

  /** SUBSCRIBE only stamps a subscription that exists, and not even that when it asks for another type. */
  lemma SubscribeAgainExactly(db: Db, op: Op)
    requires op.Subscribe? && op.topic in db.topics && Sub(db.topics[op.topic], op.name) in db.subs
    requires NoLoss.Reachable(db)
    ensures var s := Sub(db.topics[op.topic], op.name);
            var row := db.subs[s];
      Apply(db, op) == if op.kind.Some? && op.kind.value != row.kind then db
                       else db.(subs := db.subs[s := SubRow(row.kind, op.now)])
  {
    NoLoss.CursorsMatchSubs(db);
  }

  /** It gives a new subscription the type asked for, or Shared, and a stamp, and touches no other row. */
  lemma SubscribeNewExactly(db: Db, op: Op)
    requires op.Subscribe? && !(op.topic in db.topics && Sub(db.topics[op.topic], op.name) in db.subs)
    requires NoLoss.Reachable(db)
    ensures var d := Apply(db, op);
      && op.topic in d.topics
      && d.topics == (if op.topic in db.topics then db.topics else db.topics[op.topic := db.nextTopic])
      && d.messages == db.messages && d.nextId == db.nextId && d.pending == db.pending
      && var s := Sub(d.topics[op.topic], op.name);
         s !in db.subs && s !in db.cursors
         && d.subs == db.subs[s := SubRow(if op.kind == None then Shared else op.kind.value, op.now)]
         && s in d.cursors && d.cursors == db.cursors[s := d.cursors[s]]
  {
    NoLoss.NewTopicIsUnused(db);
    NoLoss.CursorsMatchSubs(db);
  }

  /**
   What a new subscription can claim: from an explicit position on, or else everything stored for
   an earliest one and nothing for a latest one.
   */
  lemma SubscribeNewClaims(db: Db, op: Op)
    requires op.Subscribe? && !(op.topic in db.topics && Sub(db.topics[op.topic], op.name) in db.subs)
    requires NoLoss.Reachable(db)
    ensures var d := Apply(db, op);
      && op.topic in d.topics && Sub(d.topics[op.topic], op.name) in d.cursors
      && forall id :: id in Available(d, Sub(d.topics[op.topic], op.name)) <==>
           && id in db.messages && db.messages[id].topic == d.topics[op.topic]
           && if op.startId.Some? then id >= op.startId.value else !op.latest
  {
    SubscribeNewExactly(db, op);
    NoLoss.ReachableConsistent(db);
    var d := EnsureTopic(db, op.topic);
    var s := Sub(d.topics[op.topic], op.name);
    assert forall id :: Slot(s, id) !in db.pending;
    NewCursor(db, op);
    LastIsGreatest(d, s.topic);
    var e := Apply(db, op);
    assert e.messages == db.messages && e.pending == db.pending;
    hide Apply, LastId, NoLoss.Reachable;
    forall id
      ensures id in Available(e, s) <==>
        && id in db.messages && db.messages[id].topic == s.topic
        && if op.startId.Some? then id >= op.startId.value else !op.latest
    {
      assert Stored(d, s.topic, id) <==> Stored(e, s.topic, id);
      assert id in db.messages ==> id >= 1;
    }
  }

  lemma NewCursor(db: Db, op: Op)
    requires op.Subscribe? && !(op.topic in db.topics && Sub(db.topics[op.topic], op.name) in db.subs)
    requires NoLoss.Reachable(db)
    ensures var d := EnsureTopic(db, op.topic);
            var s := Sub(d.topics[op.topic], op.name);
      s in Apply(db, op).cursors && Apply(db, op).cursors[s] == StartOf(d, s.topic, op.latest, op.startId)
  {
    NoLoss.NewTopicIsUnused(db);
  }

  lemma LastIsGreatest(db: Db, topic: int)
    ensures forall id | Stored(db, topic, id) :: id <= LastId(db, topic)
  {
    forall id | Stored(db, topic, id) ensures id <= LastId(db, topic) { assert id in StoredIds(db, topic); }
  }

  // ---------- what moves or stamps one subscription ----------

  /** A seek moves the cursor to the position, or to 1 if that is less, and takes every pending row. */
  lemma SeekExactly(db: Db, n: TopicName, name: string, next: int)
    requires n in db.topics && Sub(db.topics[n], name) in db.cursors
    ensures var s := Sub(db.topics[n], name);
            var d := Apply(db, Seek(n, name, next));
      && d == db.(cursors := db.cursors[s := if next < 1 then 1 else next], pending := d.pending)
      && (forall k :: k in d.pending <==> k in db.pending && k.sub != s)
      && (forall k | k in d.pending :: d.pending[k] == db.pending[k])
  {
  }

  lemma TouchExactly(db: Db, n: TopicName, name: string, now: int)
    requires n in db.topics && Sub(db.topics[n], name) in db.subs
    ensures var s := Sub(db.topics[n], name);
      Apply(db, Touch(n, name, now)) == db.(subs := db.subs[s := SubRow(db.subs[s].kind, now)])
  {
  }

  /** On a topic without a row there is nothing to claim, acknowledge, free, move or stamp. */
  lemma NothingOnUnknownTopic(db: Db, op: Op)
    requires NoLoss.Reachable(db)
    requires op.Claim? || op.AckIds? || op.AckUpTo? || op.Drop? || op.Redeliver? || op.Seek? || op.Touch?
    requires op.topic !in db.topics
    ensures Apply(db, op) == db
  {
    NoLoss.NoTopicZero(db, op.name);
    NoLoss.CursorsMatchSubs(db);
    if op.Claim? {
    } else if op.AckIds? || op.AckUpTo? {
      assert Apply(db, op).pending == db.pending;
    } else if op.Drop? {
      NoLoss.ReachableDrop(db, SubOf(db, op.topic, op.name), op.consumer);
      assert Apply(db, op).pending == db.pending;
    } else if op.Redeliver? {
      assert Apply(db, op).pending == db.pending;
    }
  }

  // ---------- what a sweep removes ----------

  /** The subscriptions of the namespace last stamped before the cutoff go with all their rows, and no others. */
  lemma DropStaleExactly(db: Db, ns: Namespace, cutoff: int, s: Sub)
    requires s in db.subs
    ensures var d := Apply(db, DropStale(ns, cutoff));
      && (s !in d.subs <==>
            (exists n :: n in db.topics && db.topics[n] == s.topic && n.tenant == ns.tenant && n.namespace == ns.name)
            && 0 < db.subs[s].lastConsumerAt < cutoff)
      && (s in d.subs ==> KeepsRows(db, d, s))
      && (s !in d.subs ==> s !in d.cursors && forall id :: Slot(s, id) !in d.pending)
  {
  }

  /** A subscription's row, cursor and pending rows are as they were. */
  ghost predicate KeepsRows(db: Db, d: Db, s: Sub) {
    && s in db.subs && s in d.subs && d.subs[s] == db.subs[s]
    && (s in d.cursors <==> s in db.cursors) && (s in db.cursors ==> d.cursors[s] == db.cursors[s])
    && (forall id :: Slot(s, id) in d.pending <==> Slot(s, id) in db.pending)
    && (forall id | Slot(s, id) in d.pending :: d.pending[Slot(s, id)] == db.pending[Slot(s, id)])
  }

  ghost predicate Followed(db: Db, topic: int) {
    exists s :: s in db.subs && s.topic == topic
  }

  /** The subscription holds the message, or its cursor is at or before it. */
  ghost predicate Wants(db: Db, s: Sub, id: int) {
    Slot(s, id) in db.pending || (s in db.cursors && db.cursors[s] <= id)
  }

  /** An old message of the namespace goes as consumed when its topic has subscriptions and none of them wants it. */
  lemma DropConsumedExactly(db: Db, ns: Namespace, cutoff: int, id: int)
    requires NoLoss.Reachable(db) && id in db.messages
    ensures var m := db.messages[id];
      id !in Apply(db, DropConsumed(ns, cutoff)).messages <==>
        && m.publishTime < cutoff && TopicIn(db, m.topic, ns) && Followed(db, m.topic)
        && forall s | s in db.subs && s.topic == m.topic :: !Wants(db, s, id)
  {
    NoLoss.ReachableConsistent(db);
    hide NoLoss.Reachable;
    var topic := db.messages[id].topic;
    if HeldAnywhere(db, topic, id) {
      var k :| k in db.pending && k.sub.topic == topic && k.id == id;
      assert k == Slot(k.sub, id) && Wants(db, k.sub, id);
    }
  }

  /** An old message of the namespace goes as orphaned when its topic has no subscription. */
  lemma DropOrphanedExactly(db: Db, ns: Namespace, cutoff: int, id: int)
    requires id in db.messages
    ensures var m := db.messages[id];
      id !in Apply(db, DropOrphaned(ns, cutoff)).messages <==>
        m.publishTime < cutoff && TopicIn(db, m.topic, ns) && !Followed(db, m.topic)
  {
  }

  /** The namespace's topics with no message and no subscription go, unless they are excluded, and no others. */
  lemma DropEmptyExactly(db: Db, ns: Namespace, exclude: set<TopicName>, n: TopicName)
    requires n in db.topics
    ensures var d := Apply(db, DropEmptyTopics(ns, exclude));
      && (n !in d.topics <==>
            n.tenant == ns.tenant && n.namespace == ns.name && n !in exclude
            && (forall s | s in db.subs :: s.topic != db.topics[n])
            && (forall id | id in db.messages :: db.messages[id].topic != db.topics[n]))
      && (n in d.topics ==> d.topics[n] == db.topics[n])
      && d == db.(topics := d.topics) && d.topics.Keys <= db.topics.Keys
  {
  }

  // ---------- what the books record ----------

  /** The step gives the subscription a position: it creates it, or is a seek of it. */
  ghost predicate Placed(db: Db, op: Op, s: Sub) {
    || (op.Subscribe? && s !in db.subs)
    || (op.Seek? && op.topic in db.topics && s == Sub(db.topics[op.topic], op.name))
  }

  /** The step acknowledges a message that the asking consumer holds. */
  ghost predicate AckedNow(db: Db, op: Op, s: Sub, id: int) {
    && (op.AckIds? || op.AckUpTo?) && op.topic in db.topics && s == Sub(db.topics[op.topic], op.name)
    && Slot(s, id) in db.pending && db.pending[Slot(s, id)].consumer == op.consumer
    && if op.AckIds? then id in op.ids else id <= op.maxId
  }

  /** The step publishes a message of the subscription's topic. */
  ghost predicate PublishedNow(db: Db, op: Op, s: Sub, id: int) {
    op.Insert? && id == db.nextId && EnsureTopic(db, op.topic).topics[op.topic] == s.topic
  }

  lemma RecordPlaced(w: World, op: Op, s: Sub)
    requires NoLoss.Possible(w) && s in Next(w, op).db.subs && Placed(w.db, op, s)
    ensures var v := Next(w, op);
      && s in v.book.start && s in v.book.owed && s in v.book.acked && s in v.db.cursors
      && v.book.start[s] == v.db.cursors[s] && v.book.acked[s] == {}
      && forall id :: id in v.book.owed[s] <==>
           id in v.db.messages && v.db.messages[id].topic == s.topic && v.db.cursors[s] <= id
  {
    NoLoss.PossibleKeys(w);
    NoLoss.PossibleReachable(w);
    NoLoss.CursorsMatchSubs(w.db);
    if op.Subscribe? {
      SubscribeKeeps(w.db, op);
      NoLoss.SubscribeCases(w.db, w.book, op);
    }
  }

  lemma SubscribeKeeps(db: Db, op: Op)
    requires NoLoss.Reachable(db) && op.Subscribe?
    ensures forall s | s in Apply(db, op).subs ::
      s in db.subs || s == Sub(EnsureTopic(db, op.topic).topics[op.topic], op.name)
  {
    NoLoss.SubscribeCases(db, Book(map[], map[], map[]), op);
  }

  /** What a subscription is owed grows by what is published from its position on; nothing else changes it. */
  lemma RecordOwed(w: World, op: Op, s: Sub, id: int)
    requires NoLoss.Possible(w) && s in Next(w, op).db.subs && !Placed(w.db, op, s)
    ensures var v := Next(w, op);
      && s in w.book.owed && s in v.book.owed && s in w.book.start && s in v.book.start
      && v.book.start[s] == w.book.start[s]
      && (id in v.book.owed[s] <==>
            id in w.book.owed[s] || (PublishedNow(w.db, op, s, id) && w.book.start[s] <= id))
  {
    RecordKeys(w, op, s);
    hide NoLoss.Possible, Apply;
    OwedStep(w.db, w.book, op, s, id);
  }

  lemma OwedStep(db: Db, book: Book, op: Op, s: Sub, id: int)
    requires s in db.subs && s in book.owed && s in book.start && s in Record(db, book, op).owed
    requires !Placed(db, op, s) && forall name :: Sub(0, name) !in db.subs
    ensures var b := Record(db, book, op);
      && s in b.start && b.start[s] == book.start[s]
      && (id in b.owed[s] <==> id in book.owed[s] || (PublishedNow(db, op, s, id) && book.start[s] <= id))
  {
    hide StaleSubs, AckedBy, StartOf;
  }

  /** What it has acknowledged grows by exactly the held messages that an acknowledgement names. */
  lemma RecordAcked(w: World, op: Op, s: Sub, id: int)
    requires NoLoss.Possible(w) && s in Next(w, op).db.subs && !Placed(w.db, op, s)
    ensures var v := Next(w, op);
      && s in w.book.acked && s in v.book.acked
      && (id in v.book.acked[s] <==> id in w.book.acked[s] || AckedNow(w.db, op, s, id))
  {
    RecordKeys(w, op, s);
    hide NoLoss.Possible, Apply;
    AckedStep(w.db, w.book, op, s, id);
  }

  lemma AckedStep(db: Db, book: Book, op: Op, s: Sub, id: int)
    requires s in db.subs && s in book.acked && s in Record(db, book, op).acked
    requires !Placed(db, op, s)
    requires forall name :: Sub(0, name) !in db.subs && forall i :: Slot(Sub(0, name), i) !in db.pending
    ensures id in Record(db, book, op).acked[s] <==> id in book.acked[s] || AckedNow(db, op, s, id)
  {
    hide StaleSubs, StartOf;
  }

  lemma RecordKeys(w: World, op: Op, s: Sub)
    requires NoLoss.Possible(w) && s in Next(w, op).db.subs && !Placed(w.db, op, s)
    ensures s in w.db.subs && BookKeys(w.db, w.book) && BookKeys(Next(w, op).db, Next(w, op).book)
    ensures forall name :: Sub(0, name) !in w.db.subs && forall id :: Slot(Sub(0, name), id) !in w.db.pending
  {
    forall name ensures Sub(0, name) !in w.db.subs && forall id :: Slot(Sub(0, name), id) !in w.db.pending {
      NoLoss.PossibleReachable(w);
      NoLoss.NoTopicZero(w.db, name);
    }
    NoLoss.PossibleKeys(w);
    NoLoss.PossibleReachable(w);
    NoLoss.PossibleStep(w, op);
    NoLoss.PossibleKeys(Next(w, op));
    if op.Subscribe? { SubscribeKeeps(w.db, op); }
  }
}
