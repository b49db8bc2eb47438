/**
 The broker's registries (internal/broker/types.go, state.go): who is subscribed to what, the
 SUBSCRIBE command and removals, and the periodic work over all subscription states: the
 namespace sweep (internal/broker/maintenance.go) and the acknowledgement timeout
 (internal/broker/ack_timeout.go).
 */
module Brokers {
  import opened Basics
  import opened TopicNames
  import opened Tables
  import opened Ledger
  import opened Storage
  import opened Delivery
  import opened Retention
  import opened Handlers
  import Effects
  import NoLoss
  import Producers
  import Sweeps

  predicate StateOf(s: SubState, ref: SubRef) {
    s.topic == ref.topic.name && s.persistent == ref.topic.persistent && s.name == ref.name
  }

  /** A consumer id is scoped by its connection. */
  datatype ConsumerKey = ConsumerKey(conn: int, id: nat)

  datatype Subscribed = Joined | Refused(a: Answer) | LimitReached | WrongType | Taken

  /** The subscription is still stale when the ones in use have been touched. */
  predicate StaleAfterTouch(db: Db, ns: Namespace, active: seq<SubRef>, now: int, stale: Option<int>, ref: SubRef) {
    stale.Some? && Named(db.topics, ref) &&
    SubNamed(db.topics, ref) in StaleSubs(ApplyAll(db, TouchOps(ns, active, now)), ns, stale.value)
  }

  /** The subscription had a row, and has none any more. */
  predicate RowGone(db: Db, d: Db, ref: SubRef) {
    Named(db.topics, ref) && SubNamed(db.topics, ref) in db.subs && SubNamed(db.topics, ref) !in d.subs
  }

  lemma StaleGoes(db: Db, ns: Namespace, cutoff: int, s: Sub)
    ensures s in StaleSubs(db, ns, cutoff) <==> s in db.subs && s !in Apply(db, DropStale(ns, cutoff)).subs
  {
  }

  lemma StaleIsGone(db: Db, ns: Namespace, active: seq<SubRef>, now: int,
                    stale: Option<int>, cutoff: int, exclude: set<TopicName>, ref: SubRef)
    requires NoLoss.Reachable(db)
    ensures StaleAfterTouch(db, ns, active, now, stale, ref)
       <==> RowGone(db, ApplyAll(db, SweepOps(ns, active, now, stale, cutoff, exclude)), ref)
  {
    SweepInParts(db, ns, active, now, stale, cutoff, exclude);
    Sweeps.TouchesExactly(db, ns, active, now);
    var touched := ApplyAll(db, TouchOps(ns, active, now));
    hide NoLoss.Reachable, TouchOps, ApplyAll, Apply, StaleSubs, SweepOps;
    PrunesKeepSubs(if stale.Some? then Apply(touched, DropStale(ns, stale.value)) else touched, ns, cutoff, exclude);
    if stale.Some? && Named(db.topics, ref) { StaleGoes(touched, ns, stale.value, SubNamed(db.topics, ref)); }
  }

  lemma {:induction false} TouchKeepsTopics(db: Db, ns: Namespace, refs: seq<SubRef>, now: int)
    ensures ApplyAll(db, TouchOps(ns, refs, now)).topics == db.topics
    decreases |refs|
  {
    if refs == [] {
    } else {
      TouchOpsStep(ns, refs, now);
      var d := TouchedFirst(db, ns, refs[0], now);
      TouchKeepsTopics(d, ns, refs[1..], now);
    }
  }

  // ---------- topics in use ----------

  ghost predicate ProducedTo(producers: map<Producers.Key, Producers.Producer>, n: TopicName) {
    exists k :: k in producers && Resolve(producers[k].topic) == Durable(n)
  }

  ghost predicate ConsumedFrom(consumers: map<ConsumerKey, Consumer>, n: TopicName) {
    exists k :: k in consumers && consumers[k].ref.topic == TopicRef(true, n)
  }

  ghost predicate Mentions(raws: seq<string>, n: TopicName) {
    exists raw :: raw in raws && Resolve(raw) == Durable(n)
  }

  ghost predicate Bound(bindings: map<string, seq<string>>, n: TopicName) {
    exists b :: b in bindings && (Resolve(b) == Durable(n) || Mentions(bindings[b], n))
  }

  function AddIfMatch(found: set<TopicName>, ns: Namespace, raw: string): set<TopicName> {
    match Resolve(raw)
    case Durable(n) => if Scope(n) == ns then found + {n} else found
    case _ => found
  }

  predicate Covers(found: set<TopicName>, ns: Namespace, raw: string) {
    match Resolve(raw)
    case Durable(n) => Scope(n) == ns ==> n in found
    case _ => true
  }

  ghost predicate CoversAll(found: set<TopicName>, ns: Namespace, raws: seq<string>) {
    forall raw | raw in raws :: Covers(found, ns, raw)
  }

  method AddProduced(ns: Namespace, producers: map<Producers.Key, Producers.Producer>) returns (found: set<TopicName>)
    ensures forall n :: n in found <==> Scope(n) == ns && ProducedTo(producers, n)
  {
    found := {};
    var todo := producers.Keys;
    while todo != {}
      invariant todo <= producers.Keys
      invariant forall n | n in found :: Scope(n) == ns && ProducedTo(producers, n)
      invariant forall k | k in producers && k !in todo :: Covers(found, ns, producers[k].topic)
      decreases |todo|
    {
      ghost var some := AnyOf(todo);
      var k :| k in todo;
      todo := todo - {k};
      found := AddIfMatch(found, ns, producers[k].topic);
    }
  }

  method AddConsumed(start: set<TopicName>, ns: Namespace, consumers: map<ConsumerKey, Consumer>)
    returns (found: set<TopicName>)
    ensures forall n :: n in found <==> n in start || (Scope(n) == ns && ConsumedFrom(consumers, n))
  {
    found := start;
    var todo := consumers.Keys;
    while todo != {}
      invariant todo <= consumers.Keys && start <= found
      invariant forall n | n in found :: n in start || (Scope(n) == ns && ConsumedFrom(consumers, n))
      invariant forall k, n
        | k in consumers && k !in todo && consumers[k].ref.topic == TopicRef(true, n) && Scope(n) == ns ::
        n in found
      decreases |todo|
    {
      ghost var some := AnyOf(todo);
      var k :| k in todo;
      todo := todo - {k};
      var t := consumers[k].ref.topic;
      if t.persistent && Scope(t.name) == ns { found := found + {t.name}; }
    }
  }

  method AddListed(start: set<TopicName>, ns: Namespace, raws: seq<string>) returns (found: set<TopicName>)
    ensures start <= found && CoversAll(found, ns, raws)
    ensures forall n | n in found :: n in start || (Scope(n) == ns && Mentions(raws, n))
  {
    found := start;
    for i := 0 to |raws|
      invariant start <= found && CoversAll(found, ns, raws[..i])
      invariant forall n | n in found :: n in start || (Scope(n) == ns && Mentions(raws, n))
    {
      assert raws[..i + 1] == raws[..i] + [raws[i]] && raws[i] in raws;
      found := AddIfMatch(found, ns, raws[i]);
    }
    assert raws[..|raws|] == raws;
  }

  method AddBound(start: set<TopicName>, ns: Namespace, bindings: map<string, seq<string>>)
    returns (found: set<TopicName>)
    ensures forall n :: n in found <==> n in start || (Scope(n) == ns && Bound(bindings, n))
  {
    found := start;
    var todo := bindings.Keys;
    while todo != {}
      invariant todo <= bindings.Keys && start <= found
      invariant forall n | n in found :: n in start || (Scope(n) == ns && Bound(bindings, n))
      invariant forall b | b in bindings && b !in todo :: Covers(found, ns, b) && CoversAll(found, ns, bindings[b])
      decreases |todo|
    {
      ghost var some := AnyOf(todo);
      var b :| b in todo;
      todo := todo - {b};
      found := AddIfMatch(found, ns, b);
      found := AddListed(found, ns, bindings[b]);
    }
  }

  // ---------- who is attached where ----------

  type Lists = map<SubRef, seq<Consumer>>

  ghost predicate HasKey(consumers: map<ConsumerKey, Consumer>, c: Consumer) {
    exists k :: k in consumers && consumers[k] == c
  }

  /** Registered and attached consumers are the same, each under its own subscription, with uids used once. */
  ghost predicate Registered(consumers: map<ConsumerKey, Consumer>, lists: Lists, lastUid: nat) {
    (forall k | k in consumers ::
       1 <= consumers[k].uid <= lastUid && consumers[k].ref in lists && consumers[k] in lists[consumers[k].ref]) &&
    (forall ref, c | ref in lists && c in lists[ref] :: c.ref == ref && HasKey(consumers, c)) &&
    (forall k, l | k in consumers && l in consumers && consumers[k].uid == consumers[l].uid :: k == l)
  }

  /** The tables once a leaving consumer's rows have been returned to the queue. */
  function RowsReturned(db: Db, ref: SubRef, uid: int): Db {
    var s := SubOf(db, ref.topic.name, ref.name);
    if ref.topic.persistent then Requeue(db, s, HeldBy(db.pending, s, uid)) else db
  }

  ghost predicate HoldsNothing(db: Db, ref: SubRef, uid: int) {
    ref.topic.persistent ==>
      forall k | k in db.pending && k.sub == SubOf(db, ref.topic.name, ref.name) :: db.pending[k].consumer != uid
  }

  lemma ReturnedHoldsNothing(db: Db, ref: SubRef, uid: int)
    ensures HoldsNothing(RowsReturned(db, ref, uid), ref, uid)
    ensures forall r, u :: HoldsNothing(db, r, u) ==> HoldsNothing(RowsReturned(db, ref, uid), r, u)
  {
    forall r, u | HoldsNothing(db, r, u) ensures HoldsNothing(RowsReturned(db, ref, uid), r, u) {}
  }

  /** Returning a leaving consumer's rows frees exactly its own rows of that subscription. */
  lemma ReturnedExactly(db: Db, ref: SubRef, uid: int)
    ensures var d := RowsReturned(db, ref, uid);
      && Effects.OnlyFrees(db, d)
      && forall k :: k in d.pending <==>
           k in db.pending && !(ref.topic.persistent && k.sub == SubOf(db, ref.topic.name, ref.name)
                                && db.pending[k].consumer == uid)
  {
    var s := SubOf(db, ref.topic.name, ref.name);
    if ref.topic.persistent {
      Effects.RequeueFrees(db, s, HeldBy(db.pending, s, uid));
    } else {
      NothingFreed(db);
    }
  }

  lemma VacatedHoldsNothing(db: Db, consumers: map<ConsumerKey, Consumer>, key: ConsumerKey)
    requires key in consumers
    ensures HoldsNothing(VacatedRows(db, consumers, key), consumers[key].ref, consumers[key].uid)
    ensures forall r, u :: HoldsNothing(db, r, u) ==> HoldsNothing(VacatedRows(db, consumers, key), r, u)
  {
    ReturnedHoldsNothing(db, consumers[key].ref, consumers[key].uid);
  }

  /** The lists without one consumer; a volatile subscription that this empties goes as well. */
  function Left(lists: Lists, c: Consumer): Lists
    requires c.ref in lists
  {
    var rest := Filtered(lists[c.ref], c);
    if rest == [] && !c.ref.topic.persistent then lists - {c.ref} else lists[c.ref := rest]
  }

  /** The lists once a key's consumer, if it has one, has left. */
  function Vacated(lists: Lists, consumers: map<ConsumerKey, Consumer>, key: ConsumerKey): Lists {
    if key in consumers && consumers[key].ref in lists then Left(lists, consumers[key]) else lists
  }

  /** The tables once the rows of a key's consumer, if it has one, have been returned. */
  function VacatedRows(db: Db, consumers: map<ConsumerKey, Consumer>, key: ConsumerKey): Db {
    if key in consumers then RowsReturned(db, consumers[key].ref, consumers[key].uid) else db
  }

  /**
   What decides the answer once the store has let a SUBSCRIBE through: the limit, then the type of
   those attached, then whether an exclusive subscription is free.
   */
  predicate Decides(r: Subscribed, limited: bool, lists: Lists, other: bool, ref: SubRef, kind: SubType) {
    && (r == LimitReached <==> limited)
    && (r == WrongType <==> !limited && ref in lists && other)
    && (r == Taken <==> !limited && ref in lists && !other && kind == Exclusive && lists[ref] != [])
    && (r == Joined <==> !limited && (ref in lists ==> !other && (kind == Exclusive ==> lists[ref] == [])))
  }

  ghost predicate RowRefusal(db: Db, ref: SubRef, kind: SubType, start: Option<EntryRef>, a: Answer) {
    if ref.topic.persistent then RefusalDue(db, ref.topic.name, ref.name, kind, start, a) else a == Accepted
  }

  ghost predicate RowClaims(db: Db, d: Db, ref: SubRef, earliest: bool,
                            start: Option<EntryRef>, rollback: nat, now: int)
  {
    ref.topic.persistent ==> ClaimsAsAsked(db, d, ref.topic.name, ref.name, earliest, start, rollback, now)
  }

  /** Returning the rows of another consumer leaves a new subscription's messages as they are. */
  lemma ReturnedKeepsClaims(db: Db, d: Db, ref: SubRef, earliest: bool, start: Option<EntryRef>,
                            rollback: nat, now: int, consumers: map<ConsumerKey, Consumer>, key: ConsumerKey)
    requires RowClaims(db, d, ref, earliest, start, rollback, now)
    ensures RowClaims(db, VacatedRows(d, consumers, key), ref, earliest, start, rollback, now)
  {
    if ref.topic.persistent && SubOf(db, ref.topic.name, ref.name) !in db.subs && key in consumers {
      ReturnedKeepsAvailable(d, consumers[key].ref, consumers[key].uid, SubOf(d, ref.topic.name, ref.name));
      hide AskedFor;
    }
  }

  lemma ReturnedKeepsAvailable(db: Db, ref: SubRef, uid: int, s: Sub)
    requires s in db.cursors && forall id :: Slot(s, id) !in db.pending
    ensures var d := RowsReturned(db, ref, uid);
      && d.topics == db.topics && s in d.cursors && (forall id :: Slot(s, id) !in d.pending)
      && forall id :: id in Available(d, s) <==> id in Available(db, s)
  {
    var d := RowsReturned(db, ref, uid);
    var r := SubOf(db, ref.topic.name, ref.name);
    if r == s { NoneHeld(db.pending, s, uid); }
    assert d.messages == db.messages && d.cursors[s] == db.cursors[s];
  }

  lemma NoneHeld(pending: map<Slot, Holder>, s: Sub, uid: int)
    requires forall id :: Slot(s, id) !in pending
    ensures HeldBy(pending, s, uid) == {}
  {
    SameSet(HeldBy(pending, s, uid), {});
  }

  /** What SUBSCRIBE makes of the tables before any registry is looked at. */
  function Rows(db: Db, ref: SubRef, kind: SubType, earliest: bool,
                start: Option<EntryRef>, rollback: nat, now: int): Result<Db, Answer> {
    if !ref.topic.persistent then Success(db)
    else Ensured(db, ref.topic.name, ref.name, kind, earliest, start, rollback, now)
  }

  function Joining(lists: Lists, c: Consumer): Lists {
    lists[c.ref := (if c.ref in lists then lists[c.ref] else []) + [c]]
  }

  predicate RowTyped(db: Db, ref: SubRef, kind: SubType) {
    ref.topic.persistent ==> TypedSub(db, ref.topic.name, ref.name, kind)
  }

  lemma ReturnedKeepsType(db: Db, consumers: map<ConsumerKey, Consumer>, key: ConsumerKey, ref: SubRef, kind: SubType)
    requires RowTyped(db, ref, kind)
    ensures RowTyped(VacatedRows(db, consumers, key), ref, kind)
  {
  }

  lemma LeftMember(lists: Lists, c: Consumer, ref: SubRef, x: Consumer)
    requires c.ref in lists && ref in Left(lists, c)
    ensures ref in lists && (x in Left(lists, c)[ref] <==> x in lists[ref] && !(ref == c.ref && x == c))
  {
    FilteredMembers(lists[c.ref], c);
    hide Filtered;
  }

  /**
   Who leaves is filtered out of its own list; the list goes with it only if it was alone on a
   volatile subscription. The other lists stay.
   */
  lemma LeftExactly(lists: Lists, c: Consumer, ref: SubRef)
    requires c.ref in lists
    ensures var left := Left(lists, c);
      && (ref in left <==>
            ref in lists && !(ref == c.ref && !ref.topic.persistent && forall x | x in lists[ref] :: x == c))
      && (ref in left ==> left[ref] == if ref == c.ref then Filtered(lists[ref], c) else lists[ref])
  {
    FilteredEmpty(lists[c.ref], c);
    hide Filtered;
  }

  lemma LeftKeeps(lists: Lists, c: Consumer, x: Consumer)
    requires c.ref in lists && x.ref in lists && x in lists[x.ref] && x != c
    ensures x.ref in Left(lists, c)
  {
    FilteredMembers(lists[c.ref], c);
    hide Filtered;
  }

  lemma LeftRegistered(consumers: map<ConsumerKey, Consumer>, lists: Lists, lastUid: nat, key: ConsumerKey)
    requires Registered(consumers, lists, lastUid) && key in consumers
    ensures consumers[key].ref in lists
    ensures Registered(consumers - {key}, Left(lists, consumers[key]), lastUid)
  {
    hide Left;
    var c := consumers[key];
    var left, rest := Left(lists, c), consumers - {key};
    forall k | k in rest ensures rest[k].ref in left && rest[k] in left[rest[k].ref] {
      assert consumers[k].uid == c.uid ==> k == key;
      LeftKeeps(lists, c, consumers[k]);
      LeftMember(lists, c, consumers[k].ref, consumers[k]);
    }
    forall ref, x: Consumer | ref in left && x in left[ref] ensures x.ref == ref && HasKey(rest, x) {
      LeftMember(lists, c, ref, x);
      assert HasKey(consumers, x);
      var k :| k in consumers && consumers[k] == x;
      assert k in rest && rest[k] == x;
    }
  }

  lemma EmptyListRegistered(consumers: map<ConsumerKey, Consumer>, lists: Lists, lastUid: nat, ref: SubRef)
    requires Registered(consumers, lists, lastUid) && ref !in lists
    ensures Registered(consumers, lists[ref := []], lastUid)
  {
  }

  lemma JoinedRegistered(consumers: map<ConsumerKey, Consumer>, lists: Lists, lastUid: nat,
                         key: ConsumerKey, c: Consumer)
    requires Registered(consumers, lists, lastUid) && key !in consumers && c.ref in lists && 1 <= c.uid <= lastUid
    requires forall k | k in consumers :: consumers[k].uid != c.uid
    ensures Registered(consumers[key := c], lists[c.ref := lists[c.ref] + [c]], lastUid)
  {
    var more, joined := consumers[key := c], lists[c.ref := lists[c.ref] + [c]];
    forall k | k in more ensures more[k].ref in joined && more[k] in joined[more[k].ref] {
      if k == key { assert joined[c.ref][|lists[c.ref]|] == c; }
    }
    forall ref, x: Consumer | ref in joined && x in joined[ref] ensures x.ref == ref && HasKey(more, x) {
      if ref == c.ref && x == c {
        assert more[key] == c;
      } else {
        assert x in lists[ref] && HasKey(consumers, x);
        var k :| k in consumers && consumers[k] == x;
        assert k in more && more[k] == x;
      }
    }
  }

  lemma LaterUid(consumers: map<ConsumerKey, Consumer>, lists: Lists, lastUid: nat)
    requires Registered(consumers, lists, lastUid)
    ensures Registered(consumers, lists, lastUid + 1) && forall k | k in consumers :: consumers[k].uid != lastUid + 1
  {
  }

  lemma IdleDropped(consumers: map<ConsumerKey, Consumer>, lists: Lists, fewer: Lists, lastUid: nat)
    requires Registered(consumers, lists, lastUid)
    requires forall ref | ref in fewer :: ref in lists && fewer[ref] == lists[ref]
    requires forall ref | ref in lists && lists[ref] != [] :: ref in fewer
    ensures Registered(consumers, fewer, lastUid)
  {
  }

  lemma NotAttached(consumers: map<ConsumerKey, Consumer>, lists: Lists, lastUid: nat, c: Consumer)
    requires Registered(consumers, lists, lastUid) && forall k | k in consumers :: consumers[k].uid != c.uid
    ensures c.ref in lists ==> c !in lists[c.ref]
  {
    forall x: Consumer | c.ref in lists && x in lists[c.ref] ensures x != c {
      assert HasKey(consumers, x);
    }
  }

  lemma EntrySizes<K, V>(m: map<K, V>, k: K, v: V)
    ensures |m - {k}| <= |m| && |m[k := v]| == if k in m then |m| else |m| + 1
  {
    SubmapSize(m - {k}, m);
    assert m[k := v].Keys == m.Keys + {k};
    assert |m| == |m.Keys| && |m[k := v]| == |m[k := v].Keys|;
    if k in m { assert m[k := v].Keys == m.Keys; }
  }

  class Broker {
    const store: Store
    const maxConsumers: int
    var consumers: map<ConsumerKey, Consumer>
    var subs: map<SubRef, SubState>
    var lastUid: nat

    constructor (store: Store, maxConsumers: int)
      ensures this.store == store && this.maxConsumers == maxConsumers
      ensures Valid() && consumers == map[] && subs == map[]
    {
      this.store, this.maxConsumers := store, maxConsumers;
      consumers, subs, lastUid := map[], map[], 0;
    }

    /** Who is attached where. */
    function Attached(): Lists
      reads this`subs, set ref | ref in subs :: subs[ref]`consumers
    {
      map ref | ref in subs :: subs[ref].consumers
    }

    /** Every state is filed under its own topic and name. */
    ghost predicate Filed()
      reads this`subs, set ref | ref in subs :: subs[ref]`consumers
    {
      forall ref | ref in subs :: StateOf(subs[ref], ref) && subs[ref].Valid()
    }

    ghost predicate Valid()
      reads this`subs, this`consumers, this`lastUid, set ref | ref in subs :: subs[ref]`consumers
    {
      Filed() && Registered(consumers, Attached(), lastUid)
    }

    /** One state, and one type, per subscription: a second request shares the state or is refused. */
    method GetOrCreateSubState(ref: SubRef, kind: SubType) returns (s: SubState?)
      requires Valid()
      modifies this`subs
      ensures Valid()
      ensures ref !in old(subs) ==>
        s != null && fresh(s) && subs == old(subs)[ref := s] && s.consumers == [] && !s.delivering
      ensures ref in old(subs) ==>
        subs == old(subs) && s == if old(subs)[ref].kind == kind then old(subs)[ref] else null
      ensures s != null ==> ref in subs && s == subs[ref] && s.kind == kind
      ensures Attached() == if ref in old(subs) then old(Attached()) else old(Attached())[ref := []]
    {
      if ref !in subs {
        EmptyListRegistered(consumers, Attached(), lastUid, ref);
        hide Registered;
        var created := new SubState(ref.topic.name, ref.name, kind, ref.topic.persistent);
        subs := subs[ref := created];
        assert Attached() == old(Attached())[ref := []];
        return created;
      }
      s := subs[ref];
      if s.kind != kind { s := null; }
    }

    method LeaveList(s: SubState, c: Consumer)
      requires Filed() && c.ref in subs && s == subs[c.ref] && store.Valid()
      modifies store`cursors, store`pending, s`consumers, s`delivering
      ensures Filed() && store.Valid() && s.Awake()
      ensures Attached() == old(Attached())[c.ref := Filtered(old(Attached())[c.ref], c)]
      ensures store.View() == RowsReturned(old(store.View()), c.ref, c.uid)
    {
      hide SubState.Room, Requeue, HeldBy, SubOf, Filtered, NoLoss.Reachable;
      assert forall ref | ref in subs && subs[ref] == s :: ref == c.ref;
      var woken := RemoveConsumer(s, store, c);
    }

    /** Forgets the state of a volatile subscription that nobody is attached to. */
    method DropIfIdle(ref: SubRef)
      requires Filed() && ref in subs
      modifies this`subs
      ensures Filed()
      ensures subs == if old(Attached())[ref] == [] && !ref.topic.persistent then old(subs) - {ref} else old(subs)
      ensures Attached() ==
        if old(Attached())[ref] == [] && !ref.topic.persistent then old(Attached()) - {ref} else old(Attached())
    {
      var s := subs[ref];
      if !s.persistent && |s.consumers| == 0 {
        subs := subs - {ref};
        assert Attached() == old(Attached()) - {ref};
      }
    }

    /** Takes a consumer off its subscription's list and returns its rows; an emptied volatile state goes too. */
    method Leave(s: SubState, c: Consumer)
      requires Filed() && c.ref in subs && s == subs[c.ref] && store.Valid()
      modifies store`cursors, store`pending, this`subs, s`consumers, s`delivering
      ensures Filed() && store.Valid() && s.Awake() && Attached() == Left(old(Attached()), c)
      ensures store.View() == RowsReturned(old(store.View()), c.ref, c.uid)
      ensures forall ref | ref in subs :: ref in old(subs) && subs[ref] == old(subs)[ref]
    {
      hide Filtered, NoLoss.Reachable, Attached, Filed, RowsReturned, SubState.Awake;
      AttachedKeys();
      LeaveList(s, c);
      ghost var lists := old(Attached());
      ghost var rest := Filtered(lists[c.ref], c);
      assert lists[c.ref := rest][c.ref] == rest && lists[c.ref := rest] - {c.ref} == lists - {c.ref};
      DropIfIdle(c.ref);
    }

    lemma AttachedKeys()
      ensures Attached().Keys == subs.Keys
    {
    }

    /** Takes a consumer out of both registries. */
    method Remove(key: ConsumerKey)
      requires Valid() && store.Valid()
      modifies store`cursors, store`pending, this`consumers, this`subs
      modifies set ref | ref in subs :: subs[ref]`consumers
      modifies set ref | ref in subs :: subs[ref]`delivering
      ensures Valid() && store.Valid() && consumers == old(consumers) - {key}
      ensures Attached() == Vacated(old(Attached()), old(consumers), key)
      ensures store.View() == VacatedRows(old(store.View()), old(consumers), key)
      ensures forall ref | ref in subs :: ref in old(subs) && subs[ref] == old(subs)[ref]
      ensures key in old(consumers) && old(consumers)[key].ref in subs ==> subs[old(consumers)[key].ref].Awake()
      ensures forall ref | ref in subs && ref in old(subs) && old(subs[ref].Awake()) :: subs[ref].Awake()
    {
      hide Left, Registered, NoLoss.Reachable, RowsReturned, SubState.Awake, Filed, Attached;
      AttachedKeys();
      if key !in consumers {
        assert consumers == consumers - {key};
        return;
      }
      var c := consumers[key];
      LeftRegistered(consumers, Attached(), lastUid, key);
      consumers := consumers - {key};
      Leave(subs[c.ref], c);
    }

    /** Nothing is held under this uid, and the others on the subscription are served if they can be. */
    ghost predicate Departed(ref: SubRef, uid: int)
      reads store, this`subs, if ref in subs then {subs[ref]} else {}
      reads if ref in subs then subs[ref].consumers else []
    {
      HoldsNothing(store.View(), ref, uid) && (ref in subs ==> subs[ref].Awake())
    }

    /** A removal, as far as the others' removals are concerned. */
    method DropOne(key: ConsumerKey)
      requires Valid() && store.Valid() && key in consumers
      modifies store`cursors, store`pending, this`consumers, this`subs
      modifies set ref | ref in subs :: subs[ref]`consumers
      modifies set ref | ref in subs :: subs[ref]`delivering
      ensures Valid() && store.Valid() && consumers == old(consumers) - {key}
      ensures forall ref | ref in subs :: ref in old(subs) && subs[ref] == old(subs)[ref]
      ensures Departed(old(consumers)[key].ref, old(consumers)[key].uid)
      ensures forall r, u | old(Departed(r, u)) :: Departed(r, u)
    {
      VacatedHoldsNothing(store.View(), consumers, key);
      hide Filed, Attached, Registered, HoldsNothing, VacatedRows, Vacated, NoLoss.Reachable, SubState.Awake;
      Remove(key);
    }

    /**
     The consumer half of cleanupConnection: nobody of the connection stays registered, attached or
     holding a row, everybody else does, and the subscriptions they leave are awake.
     */
    method DropConnection(conn: int)
      requires Valid() && store.Valid()
      modifies store`cursors, store`pending, this`consumers, this`subs
      modifies set ref | ref in subs :: subs[ref]`consumers
      modifies set ref | ref in subs :: subs[ref]`delivering
      ensures Valid() && store.Valid()
      ensures consumers == map k | k in old(consumers) && k.conn != conn :: old(consumers)[k]
      ensures forall k | k in old(consumers) && k.conn == conn :: Departed(old(consumers)[k].ref, old(consumers)[k].uid)
    {
      hide *;
      ghost var before, states := consumers, subs;
      var todo := set k | k in consumers && k.conn == conn;
      while todo != {}
        invariant Valid() && store.Valid()
        invariant forall k | k in todo :: k in before && k.conn == conn
        invariant consumers == map k | k in before && (k.conn != conn || k in todo) :: before[k]
        invariant forall ref | ref in subs :: ref in states && subs[ref] == states[ref]
        invariant forall k | k in before && k.conn == conn && k !in todo :: Departed(before[k].ref, before[k].uid)
        decreases |todo|
      {
        ghost var some := AnyOf(todo);
        var k :| k in todo;
        DropOne(k);
        todo := todo - {k};
      }
    }

    /** An exclusive subscription takes nobody while somebody is attached. */
    method AttachTo(s: SubState, c: Consumer) returns (accepted: bool)
      requires Filed() && c.ref in subs && s == subs[c.ref] && c !in Attached()[c.ref]
      modifies s`consumers
      ensures Filed()
      ensures accepted <==> !(s.kind == Exclusive && old(Attached())[c.ref] != [])
      ensures Attached() == if accepted then old(Attached())[c.ref := old(Attached())[c.ref] + [c]] else old(Attached())
    {
      assert forall ref | ref in subs && subs[ref] == s :: ref == c.ref;
      accepted := s.Attach(c);
    }

    /** Somebody has subscribed with another type. */
    predicate OtherType(ref: SubRef, kind: SubType)
      reads this`subs
    {
      ref in subs && subs[ref].kind != kind
    }

    /** The last part of SUBSCRIBE: find the state, attach, register. */
    method AttachConsumer(key: ConsumerKey, c: Consumer, kind: SubType) returns (r: Subscribed)
      requires Valid() && key !in consumers
      requires 1 <= c.uid <= lastUid && forall k | k in consumers :: consumers[k].uid != c.uid
      modifies this`consumers, this`subs
      modifies set ref | ref in subs :: subs[ref]`consumers
      ensures Valid()
      ensures r == WrongType <==> old(OtherType(c.ref, kind))
      ensures r == Taken <==>
        !old(OtherType(c.ref, kind)) && kind == Exclusive && c.ref in old(subs) && old(Attached())[c.ref] != []
      ensures r != Joined ==> r == WrongType || r == Taken
      ensures r != Joined ==> consumers == old(consumers) && Attached() == old(Attached())
      ensures r == Joined ==>
        && consumers == old(consumers)[key := c] && Attached() == Joining(old(Attached()), c)
        && c.ref in subs && subs[c.ref].kind == kind
    {
      hide Registered, Filed, Attached;
      AttachedKeys();
      var s := GetOrCreateSubState(c.ref, kind);
      if s == null { return WrongType; }
      AttachedKeys();
      NotAttached(consumers, Attached(), lastUid, c);
      JoinedRegistered(consumers, Attached(), lastUid, key, c);
      var accepted := AttachTo(s, c);
      if !accepted { return Taken; }
      consumers := consumers[key := c];
      r := Joined;
    }

    predicate AtLimit(key: ConsumerKey)
      reads this`consumers
    {
      maxConsumers > 0 && |consumers| >= maxConsumers && key !in consumers
    }

    /** The limit turns a key away exactly when letting it in would exceed it. */
    lemma LimitExactly(key: ConsumerKey, c: Consumer)
      requires maxConsumers > 0 ==> |consumers| <= maxConsumers
      ensures AtLimit(key) <==> maxConsumers > 0 && |consumers[key := c]| > maxConsumers
      ensures |consumers - {key}| <= |consumers|
    {
      EntrySizes(consumers, key, c);
    }

    /** The key holds this consumer, attached last to its subscription, which is of this type. */
    ghost predicate Joins(lists: Lists, before: map<ConsumerKey, Consumer>,
                          key: ConsumerKey, c: Consumer, kind: SubType)
      reads this`consumers, this`subs, set x | x in subs :: subs[x]`consumers
    {
      consumers == before[key := c] && Attached() == Joining(lists, c) && c.ref in subs && subs[c.ref].kind == kind
    }

    /** The key holds nobody. */
    ghost predicate StaysOut(lists: Lists, before: map<ConsumerKey, Consumer>, key: ConsumerKey)
      reads this`consumers, this`subs, set x | x in subs :: subs[x]`consumers
    {
      consumers == before - {key} && Attached() == lists
    }

    /**
     A new consumer takes over its key: the key's old consumer is removed first, whatever comes of
     the new one. The new one is refused for its type, or for being exclusive, exactly as the lists
     without the old one say.
     */
    method Replace(key: ConsumerKey, c: Consumer, kind: SubType) returns (r: Subscribed)
      requires Valid() && store.Valid()
      requires 1 <= c.uid <= lastUid && forall k | k in consumers :: consumers[k].uid != c.uid
      modifies store`cursors, store`pending, this`consumers, this`subs
      modifies set ref | ref in subs :: subs[ref]`consumers
      modifies set ref | ref in subs :: subs[ref]`delivering
      ensures Valid() && store.Valid() && store.View() == VacatedRows(old(store.View()), old(consumers), key)
      ensures var lists := Vacated(old(Attached()), old(consumers), key);
        && Decides(r, false, lists, old(OtherType(c.ref, kind)), c.ref, kind)
        && if r == Joined then Joins(lists, old(consumers), key, c, kind) else StaysOut(lists, old(consumers), key)
      ensures !r.Refused?
      ensures r == Joined ==> key in consumers && consumers[key] == c
    {
      hide Registered, Filed, Attached, Vacated, NoLoss.Reachable, VacatedRows, Joining, SubState.Awake;
      Remove(key);
      AttachedKeys();
      r := AttachConsumer(key, c, kind);
      assert (old(consumers) - {key})[key := c] == old(consumers)[key := c];
    }

    method NewConsumer(ref: SubRef, priority: int) returns (c: Consumer)
      requires Valid()
      modifies this`lastUid
      ensures Valid() && lastUid == old(lastUid) + 1
      ensures fresh(c) && c.uid == lastUid && c.ref == ref && c.priority == priority
      ensures 1 <= c.uid && forall k | k in consumers :: consumers[k].uid != c.uid
    {
      hide Registered, Filed, Attached;
      LaterUid(consumers, Attached(), lastUid);
      lastUid := lastUid + 1;
      c := new Consumer(lastUid, priority, ref);
    }

    lemma TurnedAway(key: ConsumerKey, ref: SubRef, kind: SubType)
      requires AtLimit(key)
      ensures var lists := Vacated(Attached(), consumers, key);
        && lists == Attached() && Decides(LimitReached, true, lists, OtherType(ref, kind), ref, kind)
        && StaysOut(lists, consumers, key) && VacatedRows(store.View(), consumers, key) == store.View()
    {
    }

    /** SUBSCRIBE once the store knows the subscription: a new uid, the limit, and the registries. */
    method Enter(key: ConsumerKey, ref: SubRef, kind: SubType, priority: int) returns (r: Subscribed)
      requires Valid() && store.Valid()
      modifies store`cursors, store`pending, this
      modifies set ref | ref in subs :: subs[ref]`consumers
      modifies set ref | ref in subs :: subs[ref]`delivering
      ensures Valid() && store.Valid() && store.View() == VacatedRows(old(store.View()), old(consumers), key)
      ensures lastUid == old(lastUid) + 1 && !r.Refused?
      ensures var lists := Vacated(old(Attached()), old(consumers), key);
        && Decides(r, old(AtLimit(key)), lists, old(OtherType(ref, kind)), ref, kind)
        && if r == Joined then
             && key in consumers && fresh(consumers[key])
             && consumers[key].uid == lastUid && consumers[key].ref == ref && consumers[key].priority == priority
             && Joins(lists, old(consumers), key, consumers[key], kind)
           else StaysOut(lists, old(consumers), key)
    {
      hide *;
      var c := NewConsumer(ref, priority);
      if AtLimit(key) {
        TurnedAway(key, ref, kind);
        return LimitReached;
      }
      r := Replace(key, c, kind);
    }

    method EnsureRow(ref: SubRef, kind: SubType, earliest: bool,
                     start: Option<EntryRef>, rollback: nat, now: int) returns (a: Answer)
      requires store.Valid()
      modifies store
      ensures store.Valid()
      ensures match Rows(old(store.View()), ref, kind, earliest, start, rollback, now)
              case Failure(e) => a == e != Accepted && store.View() == old(store.View())
              case Success(d) => a == Accepted && store.View() == d && RowTyped(d, ref, kind)
      ensures RowRefusal(old(store.View()), ref, kind, start, a)
      ensures a == Accepted ==> RowClaims(old(store.View()), store.View(), ref, earliest, start, rollback, now)
    {
      if !ref.topic.persistent { return Accepted; }
      hide Ensured, NoLoss.Reachable, TypedSub, ClaimsAsAsked, RefusalDue;
      a := EnsurePositioned(store, ref.topic.name, ref.name, kind, earliest, start, rollback, now);
    }

    /**
     SUBSCRIBE. Whatever its outcome only this key's registration changes. A refusal by the store or
     the limit changes no registration; one by the subscription's type or owner leaves the key
     unregistered, its old consumer having been removed already. Unless the store refuses, a persistent
     subscription has its row, of the type asked for, even if nobody is attached in the end; if it is
     new, exactly what was asked for can be claimed.
     */
    method Subscribe(key: ConsumerKey, ref: SubRef, kind: SubType, priority: int, earliest: bool,
                     start: Option<EntryRef>, rollback: nat, now: int) returns (r: Subscribed)
      requires Valid() && store.Valid()
      modifies store, this
      modifies set ref | ref in subs :: subs[ref]`consumers
      modifies set ref | ref in subs :: subs[ref]`delivering
      ensures Valid() && store.Valid()
      ensures RowRefusal(old(store.View()), ref, kind, start, if r.Refused? then r.a else Accepted)
      ensures match Rows(old(store.View()), ref, kind, earliest, start, rollback, now)
              case Failure(a) =>
                && r == Refused(a) && store.View() == old(store.View())
                && consumers == old(consumers) && Attached() == old(Attached()) && lastUid == old(lastUid)
              case Success(d) =>
                var lists := Vacated(old(Attached()), old(consumers), key);
                && store.View() == VacatedRows(d, old(consumers), key) && RowTyped(store.View(), ref, kind)
                && RowClaims(old(store.View()), store.View(), ref, earliest, start, rollback, now)
                && lastUid == old(lastUid) + 1
                && Decides(r, old(AtLimit(key)), lists, old(OtherType(ref, kind)), ref, kind)
                && if r == Joined then
                     && key in consumers && fresh(consumers[key])
                     && consumers[key].uid == lastUid && consumers[key].ref == ref
                     && consumers[key].priority == priority
                     && Joins(lists, old(consumers), key, consumers[key], kind)
                   else StaysOut(lists, old(consumers), key)
    {
      hide *;
      var a := EnsureRow(ref, kind, earliest, start, rollback, now);
      if a != Accepted { return Refused(a); }
      ReturnedKeepsType(store.View(), consumers, key, ref, kind);
      ReturnedKeepsClaims(old(store.View()), store.View(), ref, earliest, start, rollback, now, consumers, key);
      r := Enter(key, ref, kind, priority);
    }

    /** The persistent subscriptions of a namespace that have consumers. */
    method ActiveSubscriptions(ns: Namespace) returns (active: seq<SubRef>)
      ensures forall ref :: ref in active <==>
        ref in subs && subs[ref].consumers != [] && ref.topic.persistent && Scope(ref.topic.name) == ns
    {
      active := [];
      var todo := subs.Keys;
      while todo != {}
        invariant todo <= subs.Keys
        invariant forall ref :: ref in active <==>
          ref in subs.Keys - todo && subs[ref].consumers != [] && ref.topic.persistent && Scope(ref.topic.name) == ns
        decreases |todo|
      {
        ghost var some := AnyOf(todo);
        var ref :| ref in todo;
        todo := todo - {ref};
        if |subs[ref].consumers| > 0 && ref.topic.persistent && Scope(ref.topic.name) == ns {
          active := active + [ref];
        }
      }
    }

    /** A producer, a consumer or a binding refers to the topic. */
    ghost predicate InUse(producers: map<Producers.Key, Producers.Producer>,
                          bindings: map<string, seq<string>>, n: TopicName)
      reads this`consumers
    {
      ProducedTo(producers, n) || ConsumedFrom(consumers, n) || Bound(bindings, n)
    }

    /** The namespace's topics that are in use. */
    method ActiveTopics(ns: Namespace, producers: map<Producers.Key, Producers.Producer>,
                        bindings: map<string, seq<string>>)
      returns (excluded: set<TopicName>)
      ensures forall n :: n in excluded <==> Scope(n) == ns && InUse(producers, bindings, n)
    {
      hide ProducedTo, ConsumedFrom, Bound;
      excluded := AddProduced(ns, producers);
      excluded := AddConsumed(excluded, ns, consumers);
      excluded := AddBound(excluded, ns, bindings);
    }

    /** States of dropped subscriptions go, unless somebody has attached meanwhile. */
    method DropSubscriptionStates(dropped: seq<SubRef>)
      requires Valid()
      modifies this`subs
      ensures Valid()
      ensures subs == map ref | ref in old(subs) && !(ref in dropped && old(subs)[ref].consumers == []) ::
        old(subs)[ref]
    {
      ghost var before := subs;
      ghost var lists := Attached();
      for i := 0 to |dropped|
        invariant subs == map ref | ref in before && !(ref in dropped[..i] && before[ref].consumers == []) ::
          before[ref]
      {
        var key := dropped[i];
        assert dropped[..i + 1] == dropped[..i] + [key];
        if key in subs && |subs[key].consumers| == 0 {
          subs := subs - {key};
        }
      }
      assert dropped[..|dropped|] == dropped;
      IdleDropped(consumers, lists, Attached(), lastUid);
    }

    /** The transactions of a sweep, for a namespace that is a valid persistent one. */
    method SweepStore(n: TopicName, active: seq<SubRef>, now: int,
                      stale: Option<int>, cutoff: int, exclude: set<TopicName>)
      returns (dropped: seq<SubRef>)
      requires store.Valid()
      modifies store
      ensures store.Valid()
      ensures store.View() == ApplyAll(old(store.View()), SweepOps(Scope(n), active, now, stale, cutoff, exclude))
      ensures forall ref :: ref in dropped <==> StaleAfterTouch(old(store.View()), Scope(n), active, now, stale, ref)
    {
      hide Apply, ApplyAll, SweepOps, ListedRefs, ListOutcome, AllListed;
      TouchKeepsTopics(store.View(), Scope(n), active, now);
      SweepInParts(store.View(), Scope(n), active, now, stale, cutoff, exclude);
      var r;
      AllListedRead(active);
      r := store.TouchSubscriptions(Durable(n), AllListed(active), now);
      dropped := [];
      if stale.Some? {
        r, dropped := store.PruneStaleSubscriptions(Durable(n), stale.value);
      }
      var removed;
      r, removed := store.PruneConsumedMessages(Durable(n), cutoff);
      r, removed := store.PruneOrphanedMessages(Durable(n), cutoff);
      r, removed := store.PruneEmptyTopics(Durable(n), exclude);
    }

    /**
     One namespace's turn of runNamespaceMaintenance, begun at one time and touching at a later
     one. Subscriptions with an attached consumer keep their state and their rows, and so does
     whatever belongs to another namespace.
     */
    method Sweep(n: TopicName, timeout: int, retention: int, started: int, now: int,
                 producers: map<Producers.Key, Producers.Producer>, bindings: map<string, seq<string>>)
      returns (ghost active: seq<SubRef>, ghost exclude: set<TopicName>)
      requires Valid() && store.Valid() && started <= now
      modifies store, this`subs
      ensures Valid() && store.Valid()
      ensures forall ref :: ref in active <==>
        ref in old(subs) && old(subs)[ref].consumers != [] && ref.topic.persistent && Scope(ref.topic.name) == Scope(n)
      ensures forall t :: t in exclude <==> Scope(t) == Scope(n) && InUse(producers, bindings, t)
      ensures var stale := if timeout > 0 then Some(started - timeout) else None;
        store.View()
          == ApplyAll(old(store.View()), SweepOps(Scope(n), active, now, stale, started - retention, exclude))
      ensures var stale := if timeout > 0 then Some(started - timeout) else None;
        Sweeps.Swept(old(store.View()), store.View(), Scope(n), active, now, stale, started - retention, exclude)
      ensures Sweeps.SameOutside(old(store.View()), store.View(), Scope(n))
      ensures subs == map ref | ref in old(subs)
        && !(old(subs)[ref].consumers == [] && RowGone(old(store.View()), store.View(), ref)) :: old(subs)[ref]
      ensures forall ref
        | ref in active && ref.name != "" && SubOf(old(store.View()), ref.topic.name, ref.name) in old(store.subs) ::
        SubOf(old(store.View()), ref.topic.name, ref.name) in store.subs
    {
      hide Apply, ApplyAll, SweepOps, Registered, Filed, Attached, NoLoss.Reachable, InUse;
      hide Sweeps.Swept, Sweeps.SameOutside, StaleAfterTouch, RowGone;
      ghost var db := store.View();
      var listed := ActiveSubscriptions(Scope(n));
      var stale := if timeout > 0 then Some(started - timeout) else None;
      var cutoff := started - retention;
      var excluded := ActiveTopics(Scope(n), producers, bindings);
      var dropped := SweepStore(n, listed, now, stale, cutoff, excluded);
      DropSubscriptionStates(dropped);
      active, exclude := listed, excluded;
      Sweeps.SweepExactly(db, Scope(n), active, now, stale, cutoff, exclude);
      Sweeps.SweepStaysInside(db, store.View(), Scope(n), active, now, stale, cutoff, exclude);
      forall ref ensures StaleAfterTouch(db, Scope(n), active, now, stale, ref) <==> RowGone(db, store.View(), ref) {
        StaleIsGone(db, Scope(n), active, now, stale, cutoff, exclude, ref);
      }
      forall ref | ref in active && ref.name != "" && SubOf(db, ref.topic.name, ref.name) in db.subs
        ensures SubOf(db, ref.topic.name, ref.name) in store.View().subs
      {
        AttachedSurvivesSweep(db, Scope(n), active, now, stale, cutoff, exclude, ref);
      }
    }

    /** After an expiry that cleared rows, every affected subscription with room is being delivered. */
    method ExpirePending(cutoff: int) returns (cleared: nat, affected: seq<SubRef>)
      requires Valid() && store.Valid()
      modifies store, set ref | ref in subs :: subs[ref]`delivering
      ensures Valid() && store.Valid() && store.View() == Apply(old(store.View()), Expire(cutoff))
      ensures cleared == |old(store.pending)| - |store.pending|
      ensures forall ref :: ref in affected <==>
        Named(store.topics, ref) && ExpiredIds(old(store.pending), SubNamed(store.topics, ref), cutoff) != {}
      ensures forall ref | ref in subs && old(subs[ref].delivering) :: subs[ref].delivering
      ensures cleared > 0 ==> forall ref | ref in affected && ref in subs ::
        subs[ref].Awake()
    {
      hide Apply, Registered, NoLoss.Reachable, ExpiredIds, Filed, Attached, SubState.Awake, Named, SubNamed;
      cleared, affected := store.ExpirePendingBefore(cutoff);
      if cleared == 0 { return; }
      WakeAll(affected);
    }

    method Wake(s: SubState)
      requires s.Valid()
      modifies s`delivering
      ensures old(s.delivering) ==> s.delivering
      ensures s.Awake()
    {
      RoomIsNatural(s);
      var _ := s.MaybeStart();
    }

    method WakeAll(affected: seq<SubRef>)
      requires Filed()
      modifies set ref | ref in subs :: subs[ref]`delivering
      ensures forall ref | ref in subs && old(subs[ref].delivering) :: subs[ref].delivering
      ensures forall ref | ref in affected && ref in subs ::
        subs[ref].Awake()
    {
      hide SubState.Awake, SubState.Valid;
      for i := 0 to |affected|
        invariant forall ref | ref in subs && old(subs[ref].delivering) :: subs[ref].delivering
        invariant forall ref | ref in affected[..i] && ref in subs ::
          subs[ref].Awake()
      {
        var ref := affected[i];
        assert affected[..i + 1] == affected[..i] + [ref];
        if ref in subs { Wake(subs[ref]); }
      }
      assert affected[..|affected|] == affected;
    }
  }
}
