/**
 The broker's tables as values, and the effect of each SQL transaction on them
 (internal/storage/storage.go, cleanup.go, subscriptions.go). A transaction that fails
 rolls back, so it has no effect here.
 */
module Tables {
  import opened Basics
  import opened TopicNames

  datatype SubType = Exclusive | Shared | Failover

  datatype Namespace = Namespace(tenant: string, name: string)

  datatype Content = Content(payload: seq<bv8>, sequenceId: nat, properties: map<string, string>)

  datatype Message = Message(topic: int, publishTime: int, content: Content)

  /** The primary key of a subscription: its topic's row id and its name. */
  datatype Sub = Sub(topic: int, name: string)

  datatype SubRow = SubRow(kind: SubType, lastConsumerAt: int)

  /** The primary key of the pending table, and the rest of its row. */
  datatype Slot = Slot(sub: Sub, id: int)

  datatype Holder = Holder(consumer: int, deliveredAt: int)

  datatype Db = Db(
    nextTopic: int,
    topics: map<TopicName, int>,
    nextId: int,
    messages: map<int, Message>,
    subs: map<Sub, SubRow>,
    cursors: map<Sub, int>,
    pending: map<Slot, Holder>)

  const EMPTY: Db := Db(1, map[], 1, map[], map[], map[], map[])

  // ---------- queries ----------

  /** lookupTopicID: zero when the topic has no row. */
  function TopicId(db: Db, n: TopicName): int {
    if n in db.topics then db.topics[n] else 0
  }

  predicate InNamespace(db: Db, topic: int, ns: Namespace) {
    exists n | n in db.topics :: db.topics[n] == topic && Namespace(n.tenant, n.namespace) == ns
  }

  predicate Stored(db: Db, topic: int, id: int) {
    id in db.messages && db.messages[id].topic == topic
  }

  function StoredIds(db: Db, topic: int): set<int> {
    set id | id in db.messages && Stored(db, topic, id)
  }

  /** COALESCE(MAX(id), 0) over a topic's messages. */
  function LastId(db: Db, topic: int): int {
    var ids := StoredIds(db, topic);
    if ids == {} then 0 else Greatest(ids)
  }

  /** MessageIDAtOrAfter: COALESCE(MIN(id), 0) over the messages published at or after a time. */
  function FirstAtOrAfter(db: Db, topic: int, time: int): int {
    var ids := PublishedFrom(db, topic, time);
    if ids == {} then 0 else Least(ids)
  }

  function PublishedFrom(db: Db, topic: int, time: int): (ids: set<int>)
    ensures forall id :: id in ids <==> Stored(db, topic, id) && db.messages[id].publishTime >= time
  {
    set id | id in db.messages && Stored(db, topic, id) && db.messages[id].publishTime >= time
  }

  function IdsOf(slots: set<Slot>, s: Sub): (ids: set<int>)
    ensures forall id :: id in ids <==> Slot(s, id) in slots
  {
    set k | k in slots && k.sub == s :: k.id
  }

  /** The ids claimed for a subscription and not acked. */
  function HeldIds(db: Db, s: Sub): (ids: set<int>)
    ensures forall id :: id in ids <==> Slot(s, id) in db.pending
  {
    IdsOf(db.pending.Keys, s)
  }

  function HeldBy(pending: map<Slot, Holder>, s: Sub, consumer: int): (ids: set<int>)
    ensures forall id :: id in ids <==> Slot(s, id) in pending && pending[Slot(s, id)].consumer == consumer
  {
    IdsOf((set k | k in pending && pending[k].consumer == consumer), s)
  }

  function ExpiredIds(pending: map<Slot, Holder>, s: Sub, cutoff: int): (ids: set<int>)
    ensures forall id :: id in ids <==> Slot(s, id) in pending && pending[Slot(s, id)].deliveredAt < cutoff
  {
    IdsOf((set k | k in pending && pending[k].deliveredAt < cutoff), s)
  }

  /** The rows ClaimBatch selects, before ORDER BY and LIMIT. */
  function Available(db: Db, s: Sub): set<int>
    requires s in db.cursors
  {
    set id | id in db.messages && Stored(db, s.topic, id) && id >= db.cursors[s] && Slot(s, id) !in db.pending
  }

  /** ClaimBatch's SELECT: in ascending order, cut off at the limit (SQLite reads a negative LIMIT as none). */
  function Selected(db: Db, s: Sub, limit: int): seq<int>
    requires s in db.cursors
  {
    var q := Sorted(Available(db, s));
    if 0 <= limit <= |q| then q[..limit] else q
  }

  // ---------- row changes shared by several transactions ----------

  function Without(pending: map<Slot, Holder>, s: Sub, gone: set<int>): map<Slot, Holder> {
    map k | k in pending && !(k.sub == s && k.id in gone) :: pending[k]
  }

  function Lowered(cursors: map<Sub, int>, s: Sub, ids: set<int>): map<Sub, int> {
    if ids == {} || s !in cursors then cursors
    else cursors[s := Min(cursors[s], Least(ids))]
  }

  function RemoveRows(db: Db, s: Sub, gone: set<int>): Db {
    db.(pending := Without(db.pending, s, gone))
  }

  /** The one operation behind every kind of redelivery: free some rows and rewind to the least of them. */
  function Requeue(db: Db, s: Sub, gone: set<int>): Db {
    db.(pending := Without(db.pending, s, gone), cursors := Lowered(db.cursors, s, gone))
  }

  function SlotsOf(s: Sub, ids: seq<int>): (slots: set<Slot>)
    ensures forall k :: k in slots <==> k.sub == s && k.id in ids
  {
    set id | id in ids :: Slot(s, id)
  }

  function WithRows(pending: map<Slot, Holder>, s: Sub, ids: seq<int>, holder: Holder): map<Slot, Holder> {
    map k | k in pending.Keys + SlotsOf(s, ids) :: if k in pending then pending[k] else holder
  }

  /** INSERT OR IGNORE of a cursor at position 1. */
  function EnsureCursor(db: Db, s: Sub): Db {
    if s in db.cursors then db else db.(cursors := db.cursors[s := 1])
  }

  function DropSubs(db: Db, gone: set<Sub>): Db {
    db.(subs := db.subs - gone,
        cursors := db.cursors - gone,
        pending := map k | k in db.pending && k.sub !in gone :: db.pending[k])
  }

  // ---------- transactions ----------

  function EnsureTopic(db: Db, n: TopicName): Db {
    if n in db.topics then db
    else db.(topics := db.topics[n := db.nextTopic], nextTopic := db.nextTopic + 1)
  }

  function AppendMessage(db: Db, m: Message): Db {
    db.(messages := db.messages[db.nextId := m], nextId := db.nextId + 1)
  }

  function InsertMessage(db: Db, n: TopicName, publishTime: int, content: Content): Db {
    var d := EnsureTopic(db, n);
    AppendMessage(d, Message(d.topics[n], publishTime, content))
  }

  /** Where EnsureSubscription puts the cursor of a new subscription. */
  function StartOf(db: Db, topic: int, latest: bool, startId: Option<int>): int {
    match startId
    case Some(id) => id
    case None => if latest then LastId(db, topic) + 1 else 1
  }

  /** EnsureSubscription; None is the type mismatch that rolls everything back. */
  function EnsureSubscription(db: Db, n: TopicName, name: string, latest: bool, startId: Option<int>,
                              kind: Option<SubType>, now: int): Option<Db> {
    var d := EnsureTopic(db, n);
    var s := Sub(d.topics[n], name);
    if s !in d.subs then
      Some(AddSub(d, s, if kind.Some? then kind.value else Shared, StartOf(d, s.topic, latest, startId), now))
    else if kind.Some? && d.subs[s].kind != kind.value then None
    else Some(EnsureCursor(TouchSub(d, s, now), s))
  }

  function AddSub(db: Db, s: Sub, kind: SubType, start: int, now: int): Db {
    db.(subs := db.subs[s := SubRow(kind, now)], cursors := db.cursors[s := start])
  }

  function TouchSub(db: Db, s: Sub, now: int): Db
    requires s in db.subs
  {
    db.(subs := db.subs[s := db.subs[s].(lastConsumerAt := now)])
  }

  function ClaimRows(db: Db, s: Sub, consumer: int, ids: seq<int>, now: int): Db {
    db.(pending := WithRows(db.pending, s, ids, Holder(consumer, now)),
        cursors := if ids == [] then db.cursors else db.cursors[s := ids[|ids| - 1] + 1])
  }

  /** ClaimBatch for an existing subscription: the new tables and the ids handed out. */
  function ClaimBatch(db: Db, s: Sub, consumer: int, limit: int, now: int): (Db, seq<int>)
    requires s in db.subs
  {
    var d := EnsureCursor(TouchSub(db, s, now), s);
    var ids := Selected(d, s, limit);
    (ClaimRows(d, s, consumer, ids, now), ids)
  }

  /** Those of the listed ids that the consumer holds. */
  function ListedIds(pending: map<Slot, Holder>, s: Sub, consumer: int, ids: seq<int>): set<int> {
    set id | id in HeldBy(pending, s, consumer) && id in ids
  }

  function AckedUpTo(pending: map<Slot, Holder>, s: Sub, consumer: int, maxId: int): set<int> {
    set id | id in HeldBy(pending, s, consumer) && id <= maxId
  }

  /**
   DropPendingByConsumer. The cursor row refers to its subscription, so without either the
   INSERT OR IGNORE fails and the transaction rolls back.
   */
  function DropPending(db: Db, s: Sub, consumer: int): Db {
    if s !in db.subs && s !in db.cursors then db
    else
      var d := EnsureCursor(db, s);
      var mine := HeldBy(d.pending, s, consumer);
      var least := if mine == {} then 0 else Least(mine);
      var cur := d.cursors[s];
      d.(pending := Without(d.pending, s, mine),
         cursors := if least > 0 && (cur == 0 || least < cur) then d.cursors[s := least] else d.cursors)
  }

  /** The rows RedeliverPending frees: all of the consumer's when no ids are given. */
  function RedeliveredIds(pending: map<Slot, Holder>, s: Sub, consumer: int, ids: seq<int>): set<int> {
    var mine := HeldBy(pending, s, consumer);
    if ids == [] then mine else ListedIds(pending, s, consumer, ids)
  }

  /** ExpirePendingBefore: every subscription requeues its own expired rows. */
  function ExpirePending(db: Db, cutoff: int): Db {
    db.(pending := map k | k in db.pending && db.pending[k].deliveredAt >= cutoff :: db.pending[k],
        cursors := map s | s in db.cursors ::
          var late := ExpiredIds(db.pending, s, cutoff);
          if late == {} then db.cursors[s] else Min(db.cursors[s], Least(late)))
  }

  /** ResetSubscription clamps the position, forgets every pending row and moves the cursor. */
  function SeekTo(db: Db, s: Sub, next: int): Db {
    db.(pending := map k | k in db.pending && k.sub != s :: db.pending[k],
        cursors := db.cursors[s := Max(next, 1)])
  }

  function StaleSubs(db: Db, ns: Namespace, cutoff: int): set<Sub> {
    set s | s in db.subs && InNamespace(db, s.topic, ns) && 0 < db.subs[s].lastConsumerAt < cutoff
  }

  function PruneStale(db: Db, ns: Namespace, cutoff: int): Db {
    DropSubs(db, StaleSubs(db, ns, cutoff))
  }

  predicate HasSubs(db: Db, topic: int) {
    exists s | s in db.subs :: s.topic == topic
  }

  predicate HeldAnywhere(db: Db, topic: int, id: int) {
    exists k | k in db.pending :: k.sub.topic == topic && k.id == id
  }

  /** id < MIN(next_message_id) over the topic's cursors; false when there is no cursor (NULL). */
  predicate BelowCursors(db: Db, topic: int, id: int) {
    (exists s | s in db.cursors :: s.topic == topic) &&
    (forall s | s in db.cursors :: s.topic == topic ==> id < db.cursors[s])
  }

  predicate Consumed(db: Db, ns: Namespace, cutoff: int, id: int) {
    id in db.messages &&
    var m := db.messages[id];
    m.publishTime < cutoff && InNamespace(db, m.topic, ns) && HasSubs(db, m.topic) &&
    !HeldAnywhere(db, m.topic, id) && BelowCursors(db, m.topic, id)
  }

  function PruneConsumed(db: Db, ns: Namespace, cutoff: int): Db {
    db.(messages := map id | id in db.messages && !Consumed(db, ns, cutoff, id) :: db.messages[id])
  }

  predicate Orphaned(db: Db, ns: Namespace, cutoff: int, id: int) {
    id in db.messages &&
    var m := db.messages[id];
    m.publishTime < cutoff && InNamespace(db, m.topic, ns) && !HasSubs(db, m.topic)
  }

  function PruneOrphaned(db: Db, ns: Namespace, cutoff: int): Db {
    db.(messages := map id | id in db.messages && !Orphaned(db, ns, cutoff, id) :: db.messages[id])
  }

  predicate EmptyTopic(db: Db, ns: Namespace, exclude: set<TopicName>, n: TopicName) {
    n in db.topics && Namespace(n.tenant, n.namespace) == ns && n !in exclude &&
    !HasSubs(db, db.topics[n]) && !(exists id | id in db.messages :: db.messages[id].topic == db.topics[n])
  }

  function PruneEmpty(db: Db, ns: Namespace, exclude: set<TopicName>): Db {
    db.(topics := map n | n in db.topics && !EmptyTopic(db, ns, exclude, n) :: db.topics[n])
  }

  /** PruneOrphanedSubscriptionData: rows of a namespace whose subscription is gone. */
  function PruneOrphanRows(db: Db, ns: Namespace): Db {
    db.(pending := map k | k in db.pending && !(InNamespace(db, k.sub.topic, ns) && k.sub !in db.subs) :: db.pending[k],
        cursors := map s | s in db.cursors && !(InNamespace(db, s.topic, ns) && s !in db.subs) :: db.cursors[s])
  }
}
