/**
 The command handlers that act on a consumer's subscription (internal/broker/handlers.go), with
 the consumer and its subscription's state already looked up.
 */
module Handlers {
  import opened Basics
  import opened TopicNames
  import opened Tables
  import opened Ledger
  import opened Storage
  import opened Delivery
  import opened Retention
  import opened Effects
  import NoLoss
  import Claims
  import Selection

  /** A message id as clients name it; only ledger zero exists. */
  datatype EntryRef = EntryRef(ledger: nat, entry: int)

  datatype AckKind = Individual | Cumulative | UnknownKind

  datatype Answer = Accepted | Unsupported | WrongLedger | Failed(error: StoreError)

  method LargestOrZero(ids: seq<int>) returns (largest: int)
    ensures largest >= 0 && (largest == 0 || largest in ids)
    ensures forall id | id in ids :: id <= largest
  {
    largest := 0;
    for i := 0 to |ids|
      invariant largest >= 0 && (largest == 0 || largest in ids)
      invariant forall k | 0 <= k < i :: ids[k] <= largest
    {
      if ids[i] > largest { largest := ids[i]; }
    }
  }

  /**
   Removes exactly the consumer's own rows that are named, or for a cumulative one lie at or before
   an id named. A cumulative one is ignored on a shared subscription.
   */
  method HandleAck(s: SubState, store: Store, c: Consumer, how: AckKind, ids: seq<int>) returns (woken: bool)
    requires store.Valid() && s.Valid()
    modifies store`pending, s`delivering
    ensures store.Valid() && s.Valid()
    ensures if s.persistent && ids != [] && (how == Individual || (how == Cumulative && s.kind != Shared))
            then
              && (forall k :: k in store.pending <==>
                    k in old(store.pending) && !(k.sub == SubOf(store.View(), s.topic, s.name)
                      && old(store.pending)[k].consumer == c.uid
                      && if how == Individual then k.id in ids else exists x :: x in ids && k.id <= x))
              && (how == Individual || (exists id :: id in ids && id > 0) ==> s.Room() > 0 ==> s.delivering)
            else store.pending == old(store.pending) && !woken
    ensures forall k | k in store.pending :: k in old(store.pending) && store.pending[k] == old(store.pending)[k]
    ensures s.delivering == (old(s.delivering) || woken)
  {
    hide Selection.Capacity, Selection.Pick, Apply;
    if !s.persistent || |ids| == 0 { return false; }
    if how == Individual {
      AcksExactly(store.View(), AckIds(s.topic, s.name, c.uid, ids));
      var _ := store.AckIndividual(Durable(s.topic), s.name, c.uid, ids);
    } else if how == Cumulative {
      if s.kind == Shared { return false; }
      var largest := LargestOrZero(ids);
      NoLoss.HeldRows(store.View(), SubOf(store.View(), s.topic, s.name));
      if largest == 0 { return false; }
      AcksExactly(store.View(), AckUpTo(s.topic, s.name, c.uid, largest));
      var _ := store.AckCumulative(Durable(s.topic), s.name, c.uid, largest);
    } else {
      return false;
    }
    RoomIsNatural(s);
    woken := s.MaybeStart();
  }

  lemma AcksExactly(db: Db, op: Op)
    requires op.AckIds? || op.AckUpTo?
    ensures forall k :: k in Apply(db, op).pending <==>
      k in db.pending && !(k.sub == SubOf(db, op.topic, op.name) && db.pending[k].consumer == op.consumer
                           && if op.AckIds? then k.id in op.ids else k.id <= op.maxId)
    ensures forall k | k in Apply(db, op).pending :: k in db.pending && Apply(db, op).pending[k] == db.pending[k]
  {
    forall k ensures k in Apply(db, op).pending <==>
      k in db.pending && !(k.sub == SubOf(db, op.topic, op.name) && db.pending[k].consumer == op.consumer
                           && if op.AckIds? then k.id in op.ids else k.id <= op.maxId)
    {
      Claims.AckRemovesExactly(db, op, k);
    }
  }

  function Entries(refs: seq<EntryRef>): seq<int> {
    seq(|refs|, i requires 0 <= i < |refs| => refs[i].entry)
  }

  ghost predicate NamesEntry(refs: seq<EntryRef>, id: int) {
    exists r :: r in refs && r.entry == id
  }

  lemma EntriesNamed(refs: seq<EntryRef>)
    ensures forall id :: id in Entries(refs) <==> NamesEntry(refs, id)
  {
    forall id ensures id in Entries(refs) <==> NamesEntry(refs, id) {
      if id in Entries(refs) {
        var i :| 0 <= i < |refs| && Entries(refs)[i] == id;
        assert refs[i] in refs;
      }
      if NamesEntry(refs, id) {
        var r :| r in refs && r.entry == id;
        var i :| 0 <= i < |refs| && refs[i] == r;
        assert Entries(refs)[i] == id;
      }
    }
  }

  /** The rows a redelivery frees: the consumer's own that are named, or all of them when none is. */
  lemma RedeliverRows(db: Db, n: TopicName, name: string, consumer: int, refs: seq<EntryRef>)
    requires NoLoss.Reachable(db)
    ensures var d := Apply(db, Redeliver(n, name, consumer, Entries(refs)));
      && OnlyFrees(db, d)
      && forall k :: k in d.pending <==>
           k in db.pending && !(k.sub == SubOf(db, n, name) && db.pending[k].consumer == consumer
                                && (refs == [] || NamesEntry(refs, k.id)))
  {
    EntriesNamed(refs);
    hide NoLoss.Reachable, Apply, OnlyFrees, NamesEntry;
    NoLoss.NoTopicZero(db, name);
    if n in db.topics {
      RedeliverExactly(db, n, name, consumer, Entries(refs));
    } else {
      NothingOnUnknownTopic(db, Redeliver(n, name, consumer, Entries(refs)));
      NothingFreed(db);
    }
  }

  lemma NothingFreed(db: Db)
    ensures OnlyFrees(db, db)
  {
  }

  /** One id of a foreign ledger refuses the whole command. */
  method HandleRedeliver(s: SubState, store: Store, c: Consumer, refs: seq<EntryRef>) returns (a: Answer, woken: bool)
    requires store.Valid() && s.Valid()
    modifies store`cursors, store`pending, s`delivering
    ensures store.Valid() && s.Valid()
    ensures a == if s.persistent && exists r :: r in refs && r.ledger != 0 then WrongLedger else Accepted
    ensures store.View() == if s.persistent && a == Accepted
                            then Apply(old(store.View()), Redeliver(s.topic, s.name, c.uid, Entries(refs)))
                            else old(store.View())
    ensures s.persistent && a == Accepted ==>
      && OnlyFrees(old(store.View()), store.View())
      && forall k :: k in store.pending <==>
           k in old(store.pending) && !(k.sub == SubOf(old(store.View()), s.topic, s.name)
             && old(store.pending)[k].consumer == c.uid && (refs == [] || NamesEntry(refs, k.id)))
    ensures woken ==> a == Accepted && s.persistent
    ensures s.delivering == (old(s.delivering) || woken)
    ensures s.persistent && a == Accepted && s.Room() > 0 ==> s.delivering
  {
    hide Selection.Capacity, Selection.Pick, Apply, OnlyFrees, NamesEntry, NoLoss.Reachable;
    if !s.persistent { return Accepted, false; }
    RedeliverRows(store.View(), s.topic, s.name, c.uid, refs);
    var ids := [];
    for i := 0 to |refs|
      invariant ids == Entries(refs[..i]) && forall r | r in refs[..i] :: r.ledger == 0
    {
      var r := refs[i];
      if r.ledger != 0 { return WrongLedger, false; }
      assert refs[..i + 1] == refs[..i] + [r];
      ids := ids + [r.entry];
    }
    assert refs[..|refs|] == refs;
    var _ := store.RedeliverPending(Durable(s.topic), s.name, c.uid, ids);
    RoomIsNatural(s);
    woken := s.MaybeStart();
    a := Accepted;
  }

  // ---------- positions by time ----------

  ghost predicate Since(db: Db, topic: int, time: int, id: int) {
    id in db.messages && db.messages[id].topic == topic && db.messages[id].publishTime >= time
  }

  /** Something was published on the topic at or after the time. */
  ghost predicate AnySince(db: Db, topic: int, time: int) {
    exists m :: Since(db, topic, time, m)
  }

  /** The id is at or past one published at or after the time. */
  ghost predicate FromFirst(db: Db, topic: int, time: int, id: int) {
    exists m :: Since(db, topic, time, m) && m <= id
  }

  lemma FirstIsFirst(db: Db, topic: int, time: int)
    requires IdsOk(db)
    ensures var first := FirstAtOrAfter(db, topic, time);
      && (AnySince(db, topic, time) <==> first > 0)
      && (first > 0 ==> forall id :: first <= id <==> FromFirst(db, topic, time, id))
  {
    var ids := PublishedFrom(db, topic, time);
    var first := FirstAtOrAfter(db, topic, time);
    if AnySince(db, topic, time) {
      var m :| Since(db, topic, time, m);
      assert m in ids;
    }
    if ids != {} {
      assert Since(db, topic, time, first);
      forall id ensures first <= id <==> FromFirst(db, topic, time, id) {
        if m :| Since(db, topic, time, m) && m <= id { assert m in ids; }
      }
    }
  }

  /** The messages a seek asks for: from an entry on, from the first one since a time on, or all. */
  ghost predicate Sought(db: Db, topic: int, req: SeekRequest, id: int) {
    match req
    case ToEntry(_, entry) => id >= entry
    case ToTime(time) =>
      time == 0 || if AnySince(db, topic, time) then FromFirst(db, topic, time, id) else id >= MAX_ID
    case ToNothing => true
  }

  /** After a seek exactly what it asked for can be claimed, nothing is held, and no other subscription is touched. */
  ghost predicate SoughtOnly(db: Db, d: Db, s: Sub, req: SeekRequest) {
    && s in d.cursors && d == db.(cursors := db.cursors[s := d.cursors[s]], pending := d.pending)
    && (forall id :: id in Available(d, s) <==>
          id in db.messages && db.messages[id].topic == s.topic && Sought(db, s.topic, req, id))
    && (forall k :: k in d.pending <==> k in db.pending && k.sub != s)
    && (forall k | k in d.pending :: d.pending[k] == db.pending[k])
  }

  lemma PositionSought(db: Db, topic: int, req: SeekRequest, id: int)
    requires IdsOk(db) && id >= 1 && SeekPosition(db, topic, req).Some?
    ensures id >= SeekPosition(db, topic, req).value <==> Sought(db, topic, req, id)
  {
    if req.ToTime? && req.time > 0 { FirstIsFirst(db, topic, req.time); }
  }

  lemma SeekRows(db: Db, n: TopicName, name: string, req: SeekRequest)
    requires NoLoss.Reachable(db) && SubOf(db, n, name) in db.subs
    requires SeekPosition(db, TopicId(db, n), req).Some?
    ensures var p := SeekPosition(db, TopicId(db, n), req).value;
      SoughtOnly(db, Apply(db, Seek(n, name, p)), SubOf(db, n, name), req)
  {
    var s := SubOf(db, n, name);
    var p := SeekPosition(db, s.topic, req).value;
    NoLoss.ReachableConsistent(db);
    NoLoss.NoTopicZero(db, name);
    SeekExactly(db, n, name, p);
    var d := Apply(db, Seek(n, name, p));
    hide Apply, Sought, SeekPosition, NoLoss.Reachable;
    forall id
      ensures id in Available(d, s) <==>
        id in db.messages && db.messages[id].topic == s.topic && Sought(db, s.topic, req, id)
    {
      assert Stored(d, s.topic, id) <==> id in db.messages && db.messages[id].topic == s.topic;
      if id in db.messages { PositionSought(db, s.topic, req, id); }
    }
  }

  /** The position chosen makes exactly what was asked for claimable; a foreign ledger is refused. */
  method HandleSeek(s: SubState, store: Store, req: SeekRequest) returns (a: Answer, woken: bool)
    requires store.Valid() && s.Valid()
    modifies store, s`delivering
    ensures store.Valid() && s.Valid()
    ensures !s.persistent ==> a == Unsupported && store.View() == old(store.View())
    ensures s.persistent && req.ToEntry? ==> (a == WrongLedger <==> req.ledger != 0)
    ensures s.persistent ==>
      match SeekPosition(old(store.View()), TopicId(old(store.View()), s.topic), req)
      case None => a == WrongLedger && store.View() == old(store.View())
      case Some(p) =>
        if SubOf(old(store.View()), s.topic, s.name) in old(store.subs)
        then
          && a == Accepted && store.View() == Apply(old(store.View()), Seek(s.topic, s.name, p))
          && SoughtOnly(old(store.View()), store.View(), SubOf(old(store.View()), s.topic, s.name), req)
        else
          && a == (if s.topic in old(store.topics) then Failed(NoSubscription) else Accepted)
          && store.View() == old(store.View())
    ensures s.delivering == (old(s.delivering) || woken)
    ensures a == Accepted && s.Room() > 0 ==> s.delivering
  {
    hide Selection.Capacity, Selection.Pick, Apply, SoughtOnly;
    if !s.persistent { return Unsupported, false; }
    NoLoss.NoTopicZero(store.View(), s.name);
    var next := 1;
    match req {
      case ToEntry(ledger, entry) =>
        if ledger != 0 { return WrongLedger, false; }
        next := entry;
      case ToTime(time) =>
        if time > 0 {
          var r, id := store.MessageIdAtOrAfter(Durable(s.topic), time);
          next := if id > 0 then id else MAX_ID;
        }
      case ToNothing =>
    }
    SeekOfMissing(store.View(), Seek(s.topic, s.name, next));
    if SubOf(store.View(), s.topic, s.name) in store.subs { SeekRows(store.View(), s.topic, s.name, req); }
    var r := store.ResetSubscription(Durable(s.topic), s.name, next);
    if r.Rejected? { return Failed(r.error), false; }
    RoomIsNatural(s);
    woken := s.MaybeStart();
    a := Accepted;
  }

  lemma SeekOfMissing(db: Db, op: Op)
    requires NoLoss.Reachable(db) && op.Seek?
    ensures SubOf(db, op.topic, op.name) !in db.subs ==> Apply(db, op) == db
  {
    NoLoss.CursorsMatchSubs(db);
  }

  /**
   Grants permits to a consumer, even one that has just left the list, and wakes delivery if that
   gives the subscription room.
   */
  method HandleFlow(s: SubState, c: Consumer, add: int) returns (woken: bool)
    requires s.Valid()
    modifies c`permits, s`delivering
    ensures s.Valid() && c.permits == old(c.permits) + Max(add, 0)
    ensures add > 0 && s.persistent && s.Room() > 0 ==> s.delivering
    ensures s.delivering == (old(s.delivering) || woken)
  {
    if add <= 0 { return false; }
    c.Grant(add);
    RoomIsNatural(s);
    woken := s.MaybeStart();
  }

  // ---------- where a new subscription starts ----------

  /** handleSubscribe's explicit position, if any; Failure is the unsupported ledger. */
  function AskedStart(db: Db, topic: int, start: Option<EntryRef>, rollback: nat, now: int)
    : Result<Option<int>, Answer>
  {
    match start
    case Some(ref) => if ref.ledger != 0 then Failure(WrongLedger) else Success(Some(ref.entry))
    case None =>
      if rollback == 0 then Success(None)
      else
        var id := FirstAtOrAfter(db, topic, now - 1000 * rollback);
        Success(if id > 0 then Some(id) else None)
  }

  predicate TypedSub(db: Db, n: TopicName, name: string, kind: SubType) {
    SubOf(db, n, name) in db.subs && db.subs[SubOf(db, n, name)].kind == kind
  }

  /** The subscription is stored with another type. */
  predicate Clashes(db: Db, n: TopicName, name: string, kind: SubType) {
    var s := SubOf(db, n, name);
    s in db.subs && db.subs[s].kind != kind
  }

  /** A SUBSCRIBE with a type fails exactly when the stored type is another one. */
  lemma EnsureResult(db: Db, op: Op)
    requires NoLoss.Reachable(db) && op.Subscribe? && op.kind.Some?
    ensures var s := Sub(EnsureTopic(db, op.topic).topics[op.topic], op.name);
            var d := Apply(db, op);
      && (s in d.subs && d.subs[s].kind == op.kind.value <==> !Clashes(db, op.topic, op.name, op.kind.value))
      && (Clashes(db, op.topic, op.name, op.kind.value) ==> d == db)
      && (!Clashes(db, op.topic, op.name, op.kind.value) ==> TypedSub(d, op.topic, op.name, op.kind.value))
  {
    NoLoss.SubscribeCases(db, Book(map[], map[], map[]), op);
    NoLoss.NewTopicIsUnused(db);
    NoLoss.NoTopicZero(db, op.name);
  }

  /** What the tables are once a SUBSCRIBE on a persistent topic has been through them, or its refusal. */
  function Ensured(db: Db, n: TopicName, name: string, kind: SubType, earliest: bool,
                   start: Option<EntryRef>, rollback: nat, now: int): Result<Db, Answer> {
    match AskedStart(db, TopicId(db, n), start, rollback, now)
    case Failure(e) => Failure(e)
    case Success(id) =>
      if Clashes(db, n, name, kind) then Failure(Failed(TypeMismatch))
      else Success(Apply(db, Subscribe(n, name, !earliest, id, Some(kind), now)))
  }

  /** A foreign ledger, or else a stored type that differs, is refused; nothing else is. */
  ghost predicate RefusalDue(db: Db, n: TopicName, name: string, kind: SubType, start: Option<EntryRef>, a: Answer) {
    var foreign := start.Some? && start.value.ledger != 0;
    var other := n in db.topics && Sub(db.topics[n], name) in db.subs && db.subs[Sub(db.topics[n], name)].kind != kind;
    a == if foreign then WrongLedger else if other then Failed(TypeMismatch) else Accepted
  }

  lemma EnsuredRefusal(db: Db, n: TopicName, name: string, kind: SubType, earliest: bool,
                       start: Option<EntryRef>, rollback: nat, now: int)
    requires NoLoss.Reachable(db)
    ensures var r := Ensured(db, n, name, kind, earliest, start, rollback, now);
      RefusalDue(db, n, name, kind, start, if r.Failure? then r.error else Accepted)
  {
    NoLoss.NoTopicZero(db, name);
    hide Apply, NoLoss.Reachable;
  }

  /**
   The messages a new subscriber asks for: from an explicit entry on, else from the first one
   published since its rollback time, else all or none of those stored.
   */
  ghost predicate AskedFor(db: Db, topic: int, earliest: bool,
                           start: Option<EntryRef>, rollback: nat, now: int, id: int)
  {
    match start
    case Some(ref) => id >= ref.entry
    case None =>
      if rollback > 0 && AnySince(db, topic, now - 1000 * rollback) then FromFirst(db, topic, now - 1000 * rollback, id)
      else earliest
  }

  /** The subscription, if it was new, holds nothing and can claim exactly what it asked for. */
  ghost predicate ClaimsAsAsked(db: Db, d: Db, n: TopicName, name: string, earliest: bool,
                                start: Option<EntryRef>, rollback: nat, now: int)
  {
    SubOf(db, n, name) !in db.subs ==>
      var s := SubOf(d, n, name);
      && s in d.cursors && (forall id :: Slot(s, id) !in d.pending)
      && forall id :: id in Available(d, s) <==>
           id in db.messages && db.messages[id].topic == s.topic
           && AskedFor(db, s.topic, earliest, start, rollback, now, id)
  }

  /** A new subscription can claim exactly what it asked for; one that exists stays where it is. */
  ghost predicate PositionedAsAsked(db: Db, d: Db, n: TopicName, name: string, earliest: bool,
                                    start: Option<EntryRef>, rollback: nat, now: int)
  {
    var s := SubOf(d, n, name);
    && d.messages == db.messages && d.pending == db.pending && s in d.cursors
    && d.cursors == (if SubOf(db, n, name) in db.subs then db.cursors else db.cursors[s := d.cursors[s]])
    && ClaimsAsAsked(db, d, n, name, earliest, start, rollback, now)
  }

  lemma StartAsked(db: Db, topic: int, earliest: bool, start: Option<EntryRef>, rollback: nat, now: int, id: int)
    requires IdsOk(db) && AskedStart(db, topic, start, rollback, now).Success?
    ensures var p := AskedStart(db, topic, start, rollback, now).value;
      AskedFor(db, topic, earliest, start, rollback, now, id) <==> if p.Some? then id >= p.value else earliest
  {
    if start.None? && rollback > 0 { FirstIsFirst(db, topic, now - 1000 * rollback); }
  }

  lemma AgainAsAsked(db: Db, op: Op, earliest: bool, start: Option<EntryRef>, rollback: nat, now: int)
    requires NoLoss.Reachable(db) && op.Subscribe? && SubOf(db, op.topic, op.name) in db.subs
    ensures PositionedAsAsked(db, Apply(db, op), op.topic, op.name, earliest, start, rollback, now)
  {
    NoLoss.CursorsMatchSubs(db);
    NoLoss.NoTopicZero(db, op.name);
    SubscribeAgainExactly(db, op);
    hide Apply, NoLoss.Reachable;
  }

  /** On a topic that is being created there is nothing to ask for; elsewhere StartAsked says it. */
  lemma StartAskedOfNew(db: Db, n: TopicName, topic: int, startId: Option<int>, earliest: bool,
                        start: Option<EntryRef>, rollback: nat, now: int, id: int)
    requires NoLoss.Reachable(db) && topic == if n in db.topics then db.topics[n] else db.nextTopic
    requires AskedStart(db, TopicId(db, n), start, rollback, now) == Success(startId)
    requires id in db.messages && db.messages[id].topic == topic
    ensures AskedFor(db, topic, earliest, start, rollback, now, id)
       <==> if startId.Some? then id >= startId.value else earliest
  {
    NoLoss.ReachableConsistent(db);
    NewTopicHasNoMessages(db, n, topic);
    StartAsked(db, topic, earliest, start, rollback, now, id);
  }

  lemma NewAsAsked(db: Db, op: Op, earliest: bool, start: Option<EntryRef>, rollback: nat, now: int)
    requires NoLoss.Reachable(db) && op.Subscribe? && SubOf(db, op.topic, op.name) !in db.subs
    requires AskedStart(db, TopicId(db, op.topic), start, rollback, now) == Success(op.startId)
    requires op.latest == !earliest
    ensures PositionedAsAsked(db, Apply(db, op), op.topic, op.name, earliest, start, rollback, now)
  {
    SubscribeNewExactly(db, op);
    SubscribeNewClaims(db, op);
    NoLoss.NewTopicIsUnused(db);
    NoLoss.HeldRows(db, SubOf(db, op.topic, op.name));
    hide Apply, NoLoss.Reachable, AskedFor, AskedStart, Available;
    var topic := Apply(db, op).topics[op.topic];
    forall id | id in db.messages && db.messages[id].topic == topic
      ensures AskedFor(db, topic, earliest, start, rollback, now, id)
         <==> if op.startId.Some? then id >= op.startId.value else earliest
    {
      StartAskedOfNew(db, op.topic, topic, op.startId, earliest, start, rollback, now, id);
    }
  }

  lemma NewTopicHasNoMessages(db: Db, n: TopicName, topic: int)
    requires NoLoss.Reachable(db) && topic == if n in db.topics then db.topics[n] else db.nextTopic
    ensures n in db.topics || forall id | id in db.messages :: db.messages[id].topic != topic
  {
    NoLoss.NewTopicIsUnused(db);
    forall id | n !in db.topics && id in db.messages ensures db.messages[id].topic != topic {
      assert !Stored(db, topic, id);
    }
  }

  lemma EnsuredRows(db: Db, n: TopicName, name: string, kind: SubType, earliest: bool,
                    start: Option<EntryRef>, rollback: nat, now: int)
    requires NoLoss.Reachable(db) && Ensured(db, n, name, kind, earliest, start, rollback, now).Success?
    ensures PositionedAsAsked(db, Ensured(db, n, name, kind, earliest, start, rollback, now).value,
                              n, name, earliest, start, rollback, now)
  {
    hide Apply, NoLoss.Reachable, PositionedAsAsked, AskedStart, SubOf;
    var p := AskedStart(db, TopicId(db, n), start, rollback, now).value;
    var op := Subscribe(n, name, !earliest, p, Some(kind), now);
    if SubOf(db, n, name) in db.subs {
      AgainAsAsked(db, op, earliest, start, rollback, now);
    } else {
      NewAsAsked(db, op, earliest, start, rollback, now);
    }
  }

  /** The position a new subscription would get; it changes nothing. */
  method ChoosePosition(store: Store, n: TopicName, start: Option<EntryRef>, rollback: nat, now: int)
    returns (p: Result<Option<int>, Answer>)
    requires store.Valid()
    ensures p == AskedStart(store.View(), TopicId(store.View(), n), start, rollback, now)
  {
    match start {
      case Some(ref) =>
        if ref.ledger != 0 { return Failure(WrongLedger); }
        return Success(Some(ref.entry));
      case None =>
        if rollback == 0 { return Success(None); }
        if n !in store.topics { NoSuchTopic(store.View(), n, now - 1000 * rollback); }
        var r, first := store.MessageIdAtOrAfter(Durable(n), now - 1000 * rollback);
        return Success(if first > 0 then Some(first) else None);
    }
  }

  /** The storage half of SUBSCRIBE on a persistent topic: choose the position, then ensure the subscription. */
  method EnsurePositioned(store: Store, n: TopicName, name: string, kind: SubType, earliest: bool,
                          start: Option<EntryRef>, rollback: nat, now: int) returns (a: Answer)
    requires store.Valid()
    modifies store
    ensures store.Valid()
    ensures match Ensured(old(store.View()), n, name, kind, earliest, start, rollback, now)
            case Failure(e) => a == e != Accepted && store.View() == old(store.View())
            case Success(d) => a == Accepted && store.View() == d && TypedSub(d, n, name, kind)
    ensures RefusalDue(old(store.View()), n, name, kind, start, a)
    ensures a == Accepted ==>
      PositionedAsAsked(old(store.View()), store.View(), n, name, earliest, start, rollback, now)
  {
    ghost var db := store.View();
    EnsuredRefusal(db, n, name, kind, earliest, start, rollback, now);
    if Ensured(db, n, name, kind, earliest, start, rollback, now).Success? {
      EnsuredRows(db, n, name, kind, earliest, start, rollback, now);
    }
    hide Apply, NoLoss.Reachable, TypedSub, Clashes, PositionedAsAsked, RefusalDue;
    var p := ChoosePosition(store, n, start, rollback, now);
    if p.Failure? { return p.error; }
    hide AskedStart;
    EnsureResult(db, Subscribe(n, name, !earliest, p.value, Some(kind), now));
    var r := store.EnsureSubscription(Durable(n), name, !earliest, p.value, Some(kind), now);
    a := if r.Rejected? then Failed(r.error) else Accepted;
  }

  lemma NoSuchTopic(db: Db, n: TopicName, time: int)
    requires NoLoss.Reachable(db) && n !in db.topics
    ensures FirstAtOrAfter(db, TopicId(db, n), time) == 0
  {
    NoLoss.ReachableConsistent(db);
    assert !HasTopic(db, 0);
    forall id | id in db.messages ensures db.messages[id].topic != 0 { assert HasTopic(db, db.messages[id].topic); }
    SameSet(PublishedFrom(db, 0, time), {});
  }

  /**
   A new subscription asked to start some time back can claim every stored message of its topic
   published from then on, whatever the order of publish times and ids.
   */
  lemma RollbackCovers(w: World, n: TopicName, name: string, kind: SubType, earliest: bool, rollback: nat, now: int)
    requires NoLoss.Possible(w) && rollback > 0
    requires SubOf(EnsureTopic(w.db, n), n, name) !in w.db.subs
    ensures var id := AskedStart(w.db, TopicId(w.db, n), None, rollback, now).value;
            var s := SubOf(EnsureTopic(w.db, n), n, name);
            var d := Apply(w.db, Subscribe(n, name, !earliest, id, Some(kind), now));
      && s in d.cursors
      && forall m | Stored(w.db, s.topic, m) && w.db.messages[m].publishTime >= now - 1000 * rollback ::
           m in Available(d, s)
  {
    NoLoss.PossibleReachable(w);
    var since := now - 1000 * rollback;
    var id := AskedStart(w.db, TopicId(w.db, n), None, rollback, now).value;
    var op := Subscribe(n, name, !earliest, id, Some(kind), now);
    var d := EnsureTopic(w.db, n);
    var s := SubOf(d, n, name);
    NoLoss.SubscribeCases(w.db, w.book, op);
    NoLoss.NewTopicIsUnused(w.db);
    NoLoss.HeldRows(w.db, s);
    FreshIds(w);
    hide NoLoss.Possible, NoLoss.Reachable, Apply, AddSub, Available;
    forall m | Stored(w.db, s.topic, m) && w.db.messages[m].publishTime >= since
      ensures m in Available(AddSub(d, s, kind, StartOf(d, s.topic, !earliest, id), now), s)
    {
      assert n in w.db.topics;
      assert m in PublishedFrom(w.db, TopicId(w.db, n), since);
      AvailableInNew(d, s, kind, id.value, now, m);
    }
    CursorOfNew(d, s, kind, StartOf(d, s.topic, !earliest, id), now);
  }

  lemma CursorOfNew(db: Db, s: Sub, kind: SubType, start: int, now: int)
    ensures s in AddSub(db, s, kind, start, now).cursors
  {
  }

  lemma AvailableInNew(db: Db, s: Sub, kind: SubType, start: int, now: int, m: int)
    requires Stored(db, s.topic, m) && start <= m && Slot(s, m) !in db.pending
    ensures s in AddSub(db, s, kind, start, now).cursors && m in Available(AddSub(db, s, kind, start, now), s)
  {
  }
}
