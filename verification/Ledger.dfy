/**
 What the broker owes, and why no operation loses it. A Book records, beside the tables and
 without looking at cursors or pending rows, where each subscription was last positioned, which
 messages it has been owed since, and which of them it has acknowledged. Promise says that
 everything owed is acknowledged, held, or still claimable; every run keeps it.
 */
module Ledger {
  import opened Basics
  import opened TopicNames
  import opened Tables

  datatype Book = Book(start: map<Sub, int>, owed: map<Sub, set<int>>, acked: map<Sub, set<int>>)

  datatype Op =
    | Insert(topic: TopicName, publishTime: int, content: Content)
    | Subscribe(topic: TopicName, name: string, latest: bool, startId: Option<int>, kind: Option<SubType>, now: int)
    | Claim(topic: TopicName, name: string, consumer: int, limit: int, now: int)
    | AckIds(topic: TopicName, name: string, consumer: int, ids: seq<int>)
    | AckUpTo(topic: TopicName, name: string, consumer: int, maxId: int)
    | Drop(topic: TopicName, name: string, consumer: int)
    | Redeliver(topic: TopicName, name: string, consumer: int, ids: seq<int>)
    | Seek(topic: TopicName, name: string, next: int)
    | Expire(cutoff: int)
    | Touch(topic: TopicName, name: string, now: int)
    | DropStale(ns: Namespace, cutoff: int)
    | DropConsumed(ns: Namespace, cutoff: int)
    | DropOrphaned(ns: Namespace, cutoff: int)
    | DropEmptyTopics(ns: Namespace, exclude: set<TopicName>)
    | RepairRows(ns: Namespace)
    | Restart

  datatype World = World(db: Db, book: Book)

  const START: World := World(EMPTY, Book(map[], map[], map[]))

  function SubOf(db: Db, n: TopicName, name: string): Sub {
    Sub(TopicId(db, n), name)
  }

  /** The ids an acknowledgement removes from the pending table. */
  function AckedBy(db: Db, op: Op): set<int>
    requires op.AckIds? || op.AckUpTo?
  {
    var s := SubOf(db, op.topic, op.name);
    if op.AckIds? then ListedIds(db.pending, s, op.consumer, op.ids)
    else AckedUpTo(db.pending, s, op.consumer, op.maxId)
  }

  function Apply(db: Db, op: Op): Db {
    match op
    case Insert(n, time, content) => InsertMessage(db, n, time, content)
    case Subscribe(n, name, latest, startId, kind, now) =>
      var r := EnsureSubscription(db, n, name, latest, startId, kind, now);
      if r.Some? then r.value else db
    case Claim(n, name, consumer, limit, now) =>
      var s := SubOf(db, n, name);
      if s in db.subs then ClaimBatch(db, s, consumer, limit, now).0 else db
    case AckIds(n, name, _, _) => RemoveRows(db, SubOf(db, n, name), AckedBy(db, op))
    case AckUpTo(n, name, _, _) => RemoveRows(db, SubOf(db, n, name), AckedBy(db, op))
    case Drop(n, name, consumer) => DropPending(db, SubOf(db, n, name), consumer)
    case Redeliver(n, name, consumer, ids) =>
      var s := SubOf(db, n, name);
      Requeue(db, s, RedeliveredIds(db.pending, s, consumer, ids))
    case Seek(n, name, next) =>
      var s := SubOf(db, n, name);
      if s in db.cursors then SeekTo(db, s, next) else db
    case Expire(cutoff) => ExpirePending(db, cutoff)
    case Touch(n, name, now) =>
      var s := SubOf(db, n, name);
      if s in db.subs then TouchSub(db, s, now) else db
    case DropStale(ns, cutoff) => PruneStale(db, ns, cutoff)
    case DropConsumed(ns, cutoff) => PruneConsumed(db, ns, cutoff)
    case DropOrphaned(ns, cutoff) => PruneOrphaned(db, ns, cutoff)
    case DropEmptyTopics(ns, exclude) => PruneEmpty(db, ns, exclude)
    case RepairRows(ns) => PruneOrphanRows(db, ns)
    case Restart => db
  }

  function ApplyAll(db: Db, ops: seq<Op>): Db
    decreases |ops|
  {
    if ops == [] then db else ApplyAll(Apply(db, ops[0]), ops[1..])
  }

  function StoredFrom(db: Db, topic: int, start: int): set<int> {
    set id | id in StoredIds(db, topic) && id >= start
  }

  /** Setting a position makes everything stored from there on owed, and nothing acknowledged. */
  function Position(db: Db, book: Book, s: Sub, start: int): Book {
    Book(book.start[s := start],
         book.owed[s := StoredFrom(db, s.topic, start)],
         book.acked[s := {}])
  }

  /** A new message is owed to every subscription of its topic positioned at or before it. */
  function OweNew(book: Book, topic: int, id: int): Book {
    book.(owed := map s | s in book.owed ::
      if s.topic == topic && s in book.start && book.start[s] <= id then book.owed[s] + {id} else book.owed[s])
  }

  function Acknowledge(book: Book, s: Sub, ids: set<int>): Book {
    if s in book.acked then book.(acked := book.acked[s := book.acked[s] + ids]) else book
  }

  function Forget(book: Book, gone: set<Sub>): Book {
    Book(book.start - gone, book.owed - gone, book.acked - gone)
  }

  function Record(db: Db, book: Book, op: Op): Book {
    match op
    case Insert(n, _, _) => OweNew(book, EnsureTopic(db, n).topics[n], db.nextId)
    case Subscribe(n, name, latest, startId, _, _) =>
      var d := EnsureTopic(db, n);
      var s := Sub(d.topics[n], name);
      if s in d.subs then book else Position(d, book, s, StartOf(d, s.topic, latest, startId))
    case AckIds(n, name, _, _) => Acknowledge(book, SubOf(db, n, name), AckedBy(db, op))
    case AckUpTo(n, name, _, _) => Acknowledge(book, SubOf(db, n, name), AckedBy(db, op))
    case Seek(n, name, next) =>
      var s := SubOf(db, n, name);
      if s in db.cursors then Position(db, book, s, Max(next, 1)) else book
    case DropStale(ns, cutoff) => Forget(book, StaleSubs(db, ns, cutoff))
    case _ => book
  }

  function Next(w: World, op: Op): World {
    World(Apply(w.db, op), Record(w.db, w.book, op))
  }

  function Run(w: World, ops: seq<Op>): World
    decreases |ops|
  {
    if ops == [] then w else Run(Next(w, ops[0]), ops[1..])
  }

  // ---------- the invariants ----------

  ghost predicate HasTopic(db: Db, topic: int) {
    exists n :: n in db.topics && db.topics[n] == topic
  }

  ghost predicate TopicsOk(db: Db) {
    db.nextTopic >= 1 &&
    (forall n | n in db.topics :: 1 <= db.topics[n] < db.nextTopic) &&
    (forall n, m | n in db.topics && m in db.topics && db.topics[n] == db.topics[m] :: n == m)
  }

  /** Ids are handed out once, in increasing order. */
  ghost predicate IdsOk(db: Db) {
    db.nextId >= 1 && forall id | id in db.messages :: 1 <= id < db.nextId
  }

  ghost predicate MessagesOk(db: Db) {
    IdsOk(db) && forall id | id in db.messages :: HasTopic(db, db.messages[id].topic)
  }

  ghost predicate SubsOk(db: Db) {
    db.cursors.Keys == db.subs.Keys &&
    forall s | s in db.subs :: HasTopic(db, s.topic)
  }

  /** A pending row names a subscription and a stored message of its topic; its subscription's cursor is set. */
  ghost predicate PendingOk(db: Db) {
    forall k | k in db.pending ::
      k.sub in db.subs && Stored(db, k.sub.topic, k.id) && k.sub in db.cursors && db.cursors[k.sub] >= 1
  }

  /** The referential invariant of the tables. */
  ghost predicate Consistent(db: Db) {
    TopicsOk(db) && MessagesOk(db) && SubsOk(db) && PendingOk(db)
  }

  ghost predicate Claimable(db: Db, s: Sub, id: int) {
    s in db.cursors && Stored(db, s.topic, id) && db.cursors[s] <= id
  }

  ghost predicate Safe(db: Db, book: Book, s: Sub, id: int)
    requires s in book.acked
  {
    id in book.acked[s] || Slot(s, id) in db.pending || Claimable(db, s, id)
  }

  ghost predicate BookKeys(db: Db, book: Book) {
    book.start.Keys == book.owed.Keys == book.acked.Keys == db.subs.Keys && db.cursors.Keys == db.subs.Keys
  }

  /** The cursor stays between the position and the end of the log; nothing before the position is held. */
  ghost predicate Bounded(db: Db, book: Book, s: Sub)
    requires s in book.start && s in db.cursors
  {
    book.start[s] <= db.cursors[s] <= Max(book.start[s], db.nextId) &&
    forall id | Slot(s, id) in db.pending :: book.start[s] <= id
  }

  /** Owed is what was stored from the position on; stored messages from the position on are owed. */
  ghost predicate Accounted(db: Db, book: Book, s: Sub)
    requires s in book.start && s in book.owed && s in book.acked
  {
    (forall id | id in book.owed[s] :: book.start[s] <= id < db.nextId) &&
    (forall id | Stored(db, s.topic, id) && book.start[s] <= id :: id in book.owed[s]) &&
    book.acked[s] <= book.owed[s]
  }

  ghost predicate NothingLost(db: Db, book: Book, s: Sub)
    requires s in book.owed && s in book.acked
  {
    forall id | id in book.owed[s] :: Safe(db, book, s, id)
  }

  ghost predicate Promise(db: Db, book: Book, s: Sub)
    requires BookKeys(db, book) && s in db.subs
  {
    Bounded(db, book, s) && Accounted(db, book, s) && NothingLost(db, book, s)
  }

  ghost predicate Kept(db: Db, book: Book) {
    BookKeys(db, book) && forall s | s in db.subs :: Promise(db, book, s)
  }

  ghost predicate Inv(w: World) {
    Consistent(w.db) && Kept(w.db, w.book)
  }
}
