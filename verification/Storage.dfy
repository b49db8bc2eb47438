/**
 The store as the broker uses it: one object over the tables, one method per transaction. A
 method works on local copies and assigns the fields last, which is the commit; every path that
 returns earlier leaves the tables alone.
 */
module Storage {
  import opened Basics
  import opened TopicNames
  import opened Tables
  import opened Ledger
  import NoLoss
  import Claims

  datatype StoreError = BadName(e: ParseError) | OddName | NonPersistent | TypeMismatch | NoSubscription | ForeignKey

  datatype Outcome = Done | Rejected(error: StoreError)

  /**
   How a raw topic string reads: malformed, not stored at all, or a persistent name. Every
   transaction starts by parsing its topic argument; here it is handed the outcome.
   */
  datatype Target = Malformed(e: ParseError) | Volatile | Durable(name: TopicName)

  function Resolve(raw: string): Target {
    match Parse(raw)
    case Failure(e) => Malformed(e)
    case Success(info) => if info.persistent then Durable(Key(info)) else Volatile
  }

  /** Every accepted spelling of a topic resolves as its canonical name does. */
  lemma ResolveCanonical(raw: string)
    requires Parse(raw).Success?
    ensures Resolve(Parse(raw).value.fullName) == Resolve(raw)
  {
    ParseFullName(raw);
  }

  /** A plain name is a stored topic of the public tenant's default namespace. */
  lemma ResolvePlain(raw: string)
    requires raw != "" && !Marked(raw) && !TwoSlashes(raw)
    ensures Resolve(raw) == Durable(TopicName("public", "default", raw))
  {
    ParseShort(raw);
  }

  /** A name with a scheme is stored under its three parts exactly when the scheme is the persistent one. */
  lemma ResolveQualified(persistent: bool, tenant: string, namespace: string, name: string)
    requires '/' !in tenant && '/' !in namespace && tenant != "" && namespace != "" && name != ""
    ensures Resolve(FullName(if persistent then "persistent" else "non-persistent", tenant, namespace, name))
         == if persistent then Durable(TopicName(tenant, namespace, name)) else Volatile
  {
    ParseCanonical(persistent, tenant, namespace, name);
  }

  datatype Delivery = Delivery(id: int, message: Message)

  function Ids(ds: seq<Delivery>): seq<int> {
    seq(|ds|, i requires 0 <= i < |ds| => ds[i].id)
  }

  class Store {
    var nextTopic: int
    var topics: map<TopicName, int>
    var nextId: int
    var messages: map<int, Message>
    var subs: map<Sub, SubRow>
    var cursors: map<Sub, int>
    var pending: map<Slot, Holder>

    function View(): Db
      reads this
    {
      Db(nextTopic, topics, nextId, messages, subs, cursors, pending)
    }

    ghost predicate Valid()
      reads this
    {
      NoLoss.Reachable(View())
    }

    constructor ()
      ensures Valid() && View() == EMPTY
    {
      nextTopic, topics, nextId := 1, map[], 1;
      messages, subs, cursors, pending := map[], map[], map[], map[];
      NoLoss.EmptyReachable();
    }

    method Commit(db: Db)
      modifies this
      ensures View() == db
    {
      nextTopic, topics, nextId := db.nextTopic, db.topics, db.nextId;
      messages, subs, cursors, pending := db.messages, db.subs, db.cursors, db.pending;
    }

    method InsertMessage(topic: Target, publishTime: int, content: Content, now: int) returns (r: Outcome, id: int)
      requires Valid()
      modifies this
      ensures Valid()
      ensures match topic
              case Malformed(e) => r == Rejected(BadName(e)) && View() == old(View())
              case Volatile => r == Rejected(NonPersistent) && View() == old(View())
              case Durable(n) =>
                && r == Done && id == old(nextId) && id !in old(messages)
                && View() == Apply(old(View()), Insert(n, if publishTime == 0 then now else publishTime, content))
    {
      id := 0;
      match topic {
        case Malformed(e) => return Rejected(BadName(e)), 0;
        case Volatile => return Rejected(NonPersistent), 0;
        case Durable(n) =>
          var time := publishTime;
          if time == 0 { time := now; }
          NoLoss.ReachableStep(View(), Insert(n, time, content));
          NoLoss.NextIdIsFresh(View());
          if n !in topics {
            topics, nextTopic := topics[n := nextTopic], nextTopic + 1;
          }
          id := nextId;
          messages := messages[id := Message(topics[n], time, content)];
          nextId := nextId + 1;
          r := Done;
      }
    }

    method EnsureSubscription(topic: Target, name: string, latest: bool, startId: Option<int>,
                              kind: Option<SubType>, now: int) returns (r: Outcome)
      requires Valid()
      modifies this
      ensures Valid()
      ensures match topic
              case Malformed(e) => r == Rejected(BadName(e)) && View() == old(View())
              case Volatile => r == Rejected(NonPersistent) && View() == old(View())
              case Durable(n) =>
                var s := Sub(EnsureTopic(old(View()), n).topics[n], name);
                && View() == Apply(old(View()), Subscribe(n, name, latest, startId, kind, now))
                && (r == Done <==> s in subs && (kind.Some? ==> subs[s].kind == kind.value))
                && (r.Rejected? ==> r.error == TypeMismatch && View() == old(View()))
    {
      match topic {
        case Malformed(e) => return Rejected(BadName(e));
        case Volatile => return Rejected(NonPersistent);
        case Durable(n) =>
          NoLoss.ReachableStep(View(), Subscribe(n, name, latest, startId, kind, now));
          NoLoss.CursorsMatchSubs(View());
          var d := EnsureTopic(View(), n);
          var s := Sub(d.topics[n], name);
          if s !in d.subs {
            var actual := if kind.Some? then kind.value else Shared;
            var next := 1;
            if startId.Some? {
              next := startId.value;
            } else if latest {
              next := LastId(d, s.topic) + 1;
            }
            Commit(d.(subs := d.subs[s := SubRow(actual, now)], cursors := d.cursors[s := next]));
          } else if kind.Some? && d.subs[s].kind != kind.value {
            return Rejected(TypeMismatch);
          } else {
            assert s in d.cursors;  // so the INSERT OR IGNORE of a cursor adds nothing
            Commit(d.(subs := d.subs[s := d.subs[s].(lastConsumerAt := now)]));
          }
          r := Done;
      }
    }

    /** The first entry published at or after a time; zero when there is none. */
    method MessageIdAtOrAfter(topic: Target, time: int) returns (r: Outcome, id: int)
      ensures match topic
              case Malformed(e) => r == Rejected(BadName(e)) && id == 0
              case Volatile => r == Done && id == 0
              case Durable(n) => r == Done && id == if n in topics then FirstAtOrAfter(View(), topics[n], time) else 0
    {
      match topic {
        case Malformed(e) => return Rejected(BadName(e)), 0;
        case Volatile => return Done, 0;
        case Durable(n) =>
          if n !in topics { return Done, 0; }
          return Done, FirstAtOrAfter(View(), topics[n], time);
      }
    }

    method ResetSubscription(topic: Target, name: string, next: int) returns (r: Outcome)
      requires Valid()
      modifies this
      ensures Valid()
      ensures match topic
              case Malformed(e) => r == Rejected(BadName(e)) && View() == old(View())
              case Volatile => r == Done && View() == old(View())
              case Durable(n) =>
                && View() == Apply(old(View()), Seek(n, name, next))
                && (r == Rejected(NoSubscription) <==> n in old(topics) && SubOf(old(View()), n, name) !in old(subs))
                && (r == Rejected(NoSubscription) || r == Done)
    {
      match topic {
        case Malformed(e) => return Rejected(BadName(e));
        case Volatile => return Done;
        case Durable(n) =>
          NoLoss.ReachableStep(View(), Seek(n, name, next));
          NoLoss.NoTopicZero(View(), name);
          NoLoss.CursorsMatchSubs(View());
          if n !in topics { return Done; }
          var s := Sub(topics[n], name);
          var position := next;
          if position < 1 { position := 1; }
          var rows := map k | k in pending && k.sub != s :: pending[k];
          if s !in cursors { return Rejected(NoSubscription); }
          pending, cursors := rows, cursors[s := position];
          r := Done;
      }
    }

    method AckIndividual(topic: Target, name: string, consumer: int, ids: seq<int>) returns (r: Outcome)
      requires Valid()
      modifies this`pending
      ensures Valid()
      ensures match topic
              case Malformed(e) => r == Rejected(BadName(e)) && View() == old(View())
              case Volatile => r == Done && View() == old(View())
              case Durable(n) => r == Done && View() == Apply(old(View()), AckIds(n, name, consumer, ids))
    {
      match topic {
        case Malformed(e) => return Rejected(BadName(e));
        case Volatile => return Done;
        case Durable(n) =>
          NoLoss.ReachableStep(View(), AckIds(n, name, consumer, ids));
          NoLoss.NoTopicZero(View(), name);
          if n !in topics { return Done; }
          var s := Sub(topics[n], name);
          ghost var table := pending;
          var rows := pending;
          for i := 0 to |ids|
            invariant rows == Without(table, s, ListedIds(table, s, consumer, ids[..i]))
          {
            DeleteStep(table, s, consumer, ids, i);
            rows := map k | k in rows && !(k == Slot(s, ids[i]) && rows[k].consumer == consumer) :: rows[k];
          }
          assert ids[..|ids|] == ids;
          pending := rows;
          r := Done;
      }
    }

    method AckCumulative(topic: Target, name: string, consumer: int, maxId: int) returns (r: Outcome)
      requires Valid()
      modifies this`pending
      ensures Valid()
      ensures match topic
              case Malformed(e) => r == Rejected(BadName(e)) && View() == old(View())
              case Volatile => r == Done && View() == old(View())
              case Durable(n) => r == Done && View() == Apply(old(View()), AckUpTo(n, name, consumer, maxId))
    {
      match topic {
        case Malformed(e) => return Rejected(BadName(e));
        case Volatile => return Done;
        case Durable(n) =>
          NoLoss.ReachableStep(View(), AckUpTo(n, name, consumer, maxId));
          NoLoss.NoTopicZero(View(), name);
          if n !in topics { return Done; }
          var s := Sub(topics[n], name);
          pending := map k
            | k in pending && !(k.sub == s && pending[k].consumer == consumer && k.id <= maxId) :: pending[k];
          assert pending == Without(old(pending), s, AckedUpTo(old(pending), s, consumer, maxId));
          r := Done;
      }
    }

    method DropPendingByConsumer(topic: Target, name: string, consumer: int) returns (r: Outcome)
      requires Valid()
      modifies this`cursors, this`pending
      ensures Valid()
      ensures match topic
              case Malformed(e) => r == Rejected(BadName(e)) && View() == old(View())
              case Volatile => r == Done && View() == old(View())
              case Durable(n) =>
                var s := SubOf(old(View()), n, name);
                && View() == Apply(old(View()), Drop(n, name, consumer))
                && View() == Requeue(old(View()), s, HeldBy(old(pending), s, consumer))
                && r == if n in topics && s !in subs then Rejected(ForeignKey) else Done
    {
      match topic {
        case Malformed(e) => return Rejected(BadName(e));
        case Volatile => return Done;
        case Durable(n) =>
          NoLoss.ReachableStep(View(), Drop(n, name, consumer));
          NoLoss.ReachableDrop(View(), SubOf(View(), n, name), consumer);
          NoLoss.NoTopicZero(View(), name);
          NoLoss.CursorsMatchSubs(View());
          if n !in topics { return Done; }
          var s := Sub(topics[n], name);
          if s !in cursors { return Rejected(ForeignKey); }  // the INSERT OR IGNORE has no subscription to refer to
          var mine := HeldBy(pending, s, consumer);
          var minPending := 0;
          if mine != {} { minPending := Least(mine); }
          var cur := cursors[s];
          pending := map k | k in pending && !(k.sub == s && k.id in mine) :: pending[k];
          if minPending > 0 && (cur == 0 || minPending < cur) {
            cursors := cursors[s := minPending];
          }
          r := Done;
      }
    }

    method RedeliverPending(topic: Target, name: string, consumer: int, ids: seq<int>) returns (r: Outcome)
      requires Valid()
      modifies this`cursors, this`pending
      ensures Valid()
      ensures match topic
              case Malformed(e) => r == Rejected(BadName(e)) && View() == old(View())
              case Volatile => r == Done && View() == old(View())
              case Durable(n) => r == Done && View() == Apply(old(View()), Redeliver(n, name, consumer, ids))
    {
      match topic {
        case Malformed(e) => return Rejected(BadName(e));
        case Volatile => return Done;
        case Durable(n) =>
          NoLoss.ReachableStep(View(), Redeliver(n, name, consumer, ids));
          NoLoss.NoTopicZero(View(), name);
          if n !in topics { return Done; }
          var s := Sub(topics[n], name);
          NoLoss.HeldRows(View(), s);
          var rows, minId := pending, 0;
          if ids == [] {
            var all := HeldBy(pending, s, consumer);
            if all != {} { minId := Least(all); }
            rows := Without(pending, s, all);
          } else {
            rows, minId := DeleteListed(pending, s, consumer, ids);
          }
          if minId > 0 && s in cursors {
            cursors := cursors[s := Min(cursors[s], minId)];
          }
          pending := rows;
          r := Done;
      }
    }

    method ClaimBatch(topic: Target, name: string, consumer: int, limit: int, now: int)
      returns (r: Outcome, batch: seq<Delivery>)
      requires Valid()
      modifies this`subs, this`cursors, this`pending
      ensures Valid()
      ensures match topic
              case Malformed(e) => r == Rejected(BadName(e)) && batch == [] && View() == old(View())
              case Volatile => r == Rejected(NonPersistent) && batch == [] && View() == old(View())
              case Durable(n) =>
                var op := Claim(n, name, consumer, limit, now);
                && View() == Apply(old(View()), op)
                && Ids(batch) == Claims.Claimed(old(View()), op, SubOf(old(View()), n, name))
                && r == if SubOf(old(View()), n, name) in old(subs) then Done else Rejected(NoSubscription)
      ensures forall d | d in batch :: d.id in messages && d.message == messages[d.id]
    {
      match topic {
        case Malformed(e) => return Rejected(BadName(e)), [];
        case Volatile => return Rejected(NonPersistent), [];
        case Durable(n) =>
          NoLoss.ReachableStep(View(), Claim(n, name, consumer, limit, now));
          r, batch := ClaimFor(n, name, consumer, limit, now);
      }
    }

    /** The body of the claim transaction. */
    method ClaimFor(n: TopicName, name: string, consumer: int, limit: int, now: int)
      returns (r: Outcome, batch: seq<Delivery>)
      requires Valid()
      modifies this`subs, this`cursors, this`pending
      ensures var op := Claim(n, name, consumer, limit, now);
        && View() == Apply(old(View()), op)
        && Ids(batch) == Claims.Claimed(old(View()), op, SubOf(old(View()), n, name))
        && r == if SubOf(old(View()), n, name) in old(subs) then Done else Rejected(NoSubscription)
      ensures forall d | d in batch :: d.id in messages && d.message == messages[d.id]
    {
      var s := SubOf(View(), n, name);
      if s !in subs { return Rejected(NoSubscription), []; }
      ClaimParts(View(), n, name, consumer, limit, now);
      var touched := TouchSub(View(), s, now);
      var q := Selected(touched, s, limit);
      var rows, lastSeen;
      rows, lastSeen, batch := HoldAll(pending, messages, s, q, Holder(consumer, now));
      subs, pending := touched.subs, rows;
      if lastSeen > 0 { cursors := cursors[s := lastSeen + 1]; }
      r := Done;
    }

    /** Requeues every row delivered before the cutoff; reports how many, and the subscriptions to wake. */
    method ExpirePendingBefore(cutoff: int) returns (cleared: nat, affected: seq<SubRef>)
      requires Valid()
      modifies this`cursors, this`pending
      ensures Valid()
      ensures View() == Apply(old(View()), Expire(cutoff))
      ensures cleared == |old(pending)| - |pending|
      ensures forall ref :: ref in affected <==>
        Named(topics, ref) && ExpiredIds(old(pending), SubNamed(topics, ref), cutoff) != {}
    {
      NoLoss.ReachableStep(View(), Expire(cutoff));
      hide NoLoss.Reachable, ExpiredIds;
      var d, groups;
      d, cleared, groups := ExpireRows(View(), cutoff);
      pending, cursors := d.pending, d.cursors;
      affected := RefsOf(topics, groups);
    }

    method PruneStaleSubscriptions(scope: Target, cutoff: int) returns (r: Outcome, dropped: seq<SubRef>)
      requires Valid()
      modifies this`subs, this`cursors, this`pending
      ensures Valid()
      ensures match scope
              case Malformed(e) => r == Rejected(BadName(e)) && dropped == [] && View() == old(View())
              case Volatile => r == Done && dropped == [] && View() == old(View())
              case Durable(n) =>
                && r == Done && View() == Apply(old(View()), DropStale(Scope(n), cutoff))
                && forall ref :: ref in dropped <==>
                     Named(topics, ref) && SubNamed(topics, ref) in StaleSubs(old(View()), Scope(n), cutoff)
    {
      dropped := [];
      match scope {
        case Malformed(e) => return Rejected(BadName(e)), [];
        case Volatile => return Done, [];
        case Durable(n) =>
          NoLoss.ReachableStep(View(), DropStale(Scope(n), cutoff));
          hide *;
          var d, gone := DropStaleRows(View(), Scope(n), cutoff);
          subs, cursors, pending := d.subs, d.cursors, d.pending;
          dropped := RefsOf(topics, gone);
          r := Done;
      }
    }

    method PruneConsumedMessages(scope: Target, cutoff: int) returns (r: Outcome, removed: nat)
      requires Valid()
      modifies this`messages
      ensures Valid()
      ensures match scope
              case Malformed(e) => r == Rejected(BadName(e)) && removed == 0 && View() == old(View())
              case Volatile => r == Done && removed == 0 && View() == old(View())
              case Durable(n) =>
                && r == Done && View() == Apply(old(View()), DropConsumed(Scope(n), cutoff))
                && removed == |old(messages)| - |messages|
    {
      match scope {
        case Malformed(e) => return Rejected(BadName(e)), 0;
        case Volatile => return Done, 0;
        case Durable(n) =>
          NoLoss.ReachableStep(View(), DropConsumed(Scope(n), cutoff));
          var kept := PruneConsumed(View(), Scope(n), cutoff).messages;
          SubmapSize(kept, messages);
          removed := |messages| - |kept|;
          messages := kept;
          r := Done;
      }
    }

    method PruneOrphanedMessages(scope: Target, cutoff: int) returns (r: Outcome, removed: nat)
      requires Valid()
      modifies this`messages
      ensures Valid()
      ensures match scope
              case Malformed(e) => r == Rejected(BadName(e)) && removed == 0 && View() == old(View())
              case Volatile => r == Done && removed == 0 && View() == old(View())
              case Durable(n) =>
                && r == Done && View() == Apply(old(View()), DropOrphaned(Scope(n), cutoff))
                && removed == |old(messages)| - |messages|
    {
      match scope {
        case Malformed(e) => return Rejected(BadName(e)), 0;
        case Volatile => return Done, 0;
        case Durable(n) =>
          NoLoss.ReachableStep(View(), DropOrphaned(Scope(n), cutoff));
          var kept := PruneOrphaned(View(), Scope(n), cutoff).messages;
          SubmapSize(kept, messages);
          removed := |messages| - |kept|;
          messages := kept;
          r := Done;
      }
    }

    method PruneEmptyTopics(scope: Target, exclude: set<TopicName>) returns (r: Outcome, removed: nat)
      requires Valid()
      modifies this`topics
      ensures Valid()
      ensures match scope
              case Malformed(e) => r == Rejected(BadName(e)) && removed == 0 && View() == old(View())
              case Volatile => r == Done && removed == 0 && View() == old(View())
              case Durable(n) =>
                && r == Done && View() == Apply(old(View()), DropEmptyTopics(Scope(n), exclude))
                && removed == |old(topics)| - |topics|
    {
      match scope {
        case Malformed(e) => return Rejected(BadName(e)), 0;
        case Volatile => return Done, 0;
        case Durable(n) =>
          NoLoss.ReachableStep(View(), DropEmptyTopics(Scope(n), exclude));
          var kept := PruneEmpty(View(), Scope(n), exclude).topics;
          SubmapSize(kept, topics);
          removed := |topics| - |kept|;
          topics := kept;
          r := Done;
      }
    }

    /** Needs no valid store: it is there to repair one. On a valid store it finds nothing. */
    method PruneOrphanedSubscriptionData(scope: Target) returns (r: Outcome, cursorRows: nat, pendingRows: nat)
      modifies this`cursors, this`pending
      ensures match scope
              case Malformed(e) => r == Rejected(BadName(e)) && cursorRows == pendingRows == 0 && View() == old(View())
              case Volatile => r == Done && cursorRows == pendingRows == 0 && View() == old(View())
              case Durable(n) =>
                && r == Done && View() == PruneOrphanRows(old(View()), Scope(n))
                && cursorRows == |old(cursors)| - |cursors| && pendingRows == |old(pending)| - |pending|
                && (old(Valid()) ==> cursorRows == pendingRows == 0 && View() == old(View()))
    {
      match scope {
        case Malformed(e) => return Rejected(BadName(e)), 0, 0;
        case Volatile => return Done, 0, 0;
        case Durable(n) =>
          if Valid() { NoLoss.ReachableRepair(View(), Scope(n)); }
          var d := PruneOrphanRows(View(), Scope(n));
          SubmapSize(d.pending, pending);
          SubmapSize(d.cursors, cursors);
          pendingRows := |pending| - |d.pending|;
          pending := d.pending;
          cursorRows := |cursors| - |d.cursors|;
          cursors := d.cursors;
          r := Done;
      }
    }

    /**
     Stamps the listed subscriptions of one namespace, skipping the others. A bad entry ends the
     loop; the stamps before it stay.
     */
    method TouchSubscriptions(scope: Target, listed: seq<Listed>, now: int) returns (r: Outcome)
      requires Valid()
      modifies this`subs
      ensures Valid()
      ensures match scope
              case Malformed(e) => r == (if listed == [] then Done else Rejected(BadName(e))) && View() == old(View())
              case Volatile => r == Done && View() == old(View())
              case Durable(n) =>
                && r == ListOutcome(listed)
                && View() == ApplyAll(old(View()), TouchOps(Scope(n), ListedRefs(listed), now))
    {
      if listed == [] { return Done; }
      match scope {
        case Malformed(e) => return Rejected(BadName(e));
        case Volatile => return Done;
        case Durable(n) =>
          ghost var goal := ApplyAll(View(), TouchOps(Scope(n), ListedRefs(listed), now));
          for i := 0 to |listed|
            invariant Valid()
            invariant ApplyAll(View(), TouchOps(Scope(n), ListedRefs(listed[i..]), now)) == goal
            invariant ListOutcome(listed[i..]) == ListOutcome(listed)
          {
            assert listed[i..][0] == listed[i] && listed[i..][1..] == listed[i + 1..];
            match listed[i] {
              case Blank =>
              case Unparsable(e) => return Rejected(BadName(e));
              case OddForm => return Rejected(OddName);
              case Listed(ref) =>
                TouchOpsStep(Scope(n), ListedRefs(listed[i..]), now);
                assert ListedRefs(listed[i..])[1..] == ListedRefs(listed[i + 1..]);
                TouchOne(Scope(n), ref, now);
            }
          }
          r := Done;
      }
    }

    method TouchOne(ns: Namespace, ref: SubRef, now: int)
      requires Valid()
      modifies this`subs
      ensures Valid()
      ensures View() ==
        if Matches(ns, ref) then Apply(old(View()), Touch(ref.topic.name, ref.name, now)) else old(View())
    {
      if !Matches(ns, ref) { return; }
      NoLoss.ReachableStep(View(), Touch(ref.topic.name, ref.name, now));
      var s := SubOf(View(), ref.topic.name, ref.name);
      if s in subs { subs := subs[s := subs[s].(lastConsumerAt := now)]; }
    }
  }

  /** A broker-side topic: its scheme and parts, which its canonical name determines. */
  datatype TopicRef = TopicRef(persistent: bool, name: TopicName)

  datatype SubRef = SubRef(topic: TopicRef, name: string)

  /** How a pair of raw strings in a list of subscriptions reads. */
  datatype Listed = Blank | Unparsable(e: ParseError) | OddForm | Listed(ref: SubRef)

  function ReadListed(topic: string, name: string): Listed {
    if topic == "" || name == "" then Blank
    else
      match Parse(topic)
      case Failure(e) => Unparsable(e)
      case Success(info) =>
        if info.fullName != topic then OddForm else Listed(SubRef(TopicRef(info.persistent, Key(info)), name))
  }

  /** Of all the accepted spellings of a topic only the canonical one is taken from a list. */
  lemma ReadCanonical(raw: string, name: string)
    requires Parse(raw).Success? && name != ""
    ensures var info := Parse(raw).value;
      && ReadListed(info.fullName, name) == Listed(SubRef(TopicRef(info.persistent, Key(info)), name))
      && (ReadListed(raw, name) == ReadListed(info.fullName, name) <==> raw == info.fullName)
  {
    ParseFullName(raw);
  }

  /** The references in front of the first bad entry. */
  function ListedRefs(listed: seq<Listed>): seq<SubRef> {
    if listed == [] || listed[0].Unparsable? || listed[0].OddForm? then []
    else if listed[0].Blank? then ListedRefs(listed[1..])
    else [listed[0].ref] + ListedRefs(listed[1..])
  }

  /** What the first bad entry, if any, is answered with. */
  function ListOutcome(listed: seq<Listed>): Outcome {
    if listed == [] then Done
    else match listed[0]
      case Unparsable(e) => Rejected(BadName(e))
      case OddForm => Rejected(OddName)
      case _ => ListOutcome(listed[1..])
  }

  predicate BadEntry(entry: Listed) {
    entry.Unparsable? || entry.OddForm?
  }

  /** Up to its first bad entry a list gives its references in order, and that entry's error ends it. */
  lemma {:induction false} ListStops(listed: seq<Listed>, k: nat)
    requires k <= |listed| && forall i | 0 <= i < k :: !BadEntry(listed[i])
    requires k < |listed| ==> BadEntry(listed[k])
    ensures ListOutcome(listed) == if k == |listed| then Done
                                   else Rejected(if listed[k].OddForm? then OddName else BadName(listed[k].e))
    ensures forall ref :: ref in ListedRefs(listed) <==> Listed(ref) in listed[..k]
    decreases k
  {
    if k == 0 {
    } else {
      ListStops(listed[1..], k - 1);
      assert listed[..k] == [listed[0]] + listed[1..][..k - 1];
    }
  }

  function AllListed(refs: seq<SubRef>): seq<Listed> {
    seq(|refs|, i requires 0 <= i < |refs| => Listed(refs[i]))
  }

  lemma {:induction false} AllListedRead(refs: seq<SubRef>)
    ensures ListedRefs(AllListed(refs)) == refs && ListOutcome(AllListed(refs)) == Done
  {
    if refs == [] {
    } else {
      AllListedRead(refs[1..]);
      assert AllListed(refs)[1..] == AllListed(refs[1..]);
      assert refs == [refs[0]] + refs[1..];
    }
  }

  /** The reference is to a topic that has a row. */
  predicate Named(topics: map<TopicName, int>, ref: SubRef) {
    ref.topic.persistent && ref.topic.name in topics
  }

  function SubNamed(topics: map<TopicName, int>, ref: SubRef): Sub
    requires Named(topics, ref)
  {
    Sub(topics[ref.topic.name], ref.name)
  }

  /** Each row id belongs to one name, and the listed subscriptions' topics have rows. */
  ghost predicate Nameable(topics: map<TopicName, int>, subs: seq<Sub>) {
    (forall n, m | n in topics && m in topics && topics[n] == topics[m] :: n == m) &&
    (forall s | s in subs :: exists n :: n in topics && topics[n] == s.topic)
  }

  /** The join with the topics table that turns row ids back into names. */
  method RefsOf(topics: map<TopicName, int>, subs: seq<Sub>) returns (refs: seq<SubRef>)
    requires Nameable(topics, subs)
    ensures forall ref :: ref in refs <==> Named(topics, ref) && SubNamed(topics, ref) in subs
  {
    refs := [];
    for i := 0 to |subs|
      invariant forall ref :: ref in refs <==> Named(topics, ref) && SubNamed(topics, ref) in subs[..i]
    {
      var s := subs[i];
      assert s in subs;
      assert subs[..i + 1] == subs[..i] + [s];
      var n :| n in topics && topics[n] == s.topic;
      refs := refs + [SubRef(TopicRef(true, n), s.name)];
    }
    assert subs[..|subs|] == subs;
  }

  lemma StaleSubsNamed(db: Db, ns: Namespace, cutoff: int)
    requires NoLoss.Reachable(db)
    ensures forall subs: seq<Sub> | forall s | s in subs :: s in StaleSubs(db, ns, cutoff) :: Nameable(db.topics, subs)
  {
    NoLoss.ReachableConsistent(db);
    forall s | s in StaleSubs(db, ns, cutoff) ensures exists n :: n in db.topics && db.topics[n] == s.topic {}
  }

  lemma LateSubsNamed(db: Db, cutoff: int)
    requires NoLoss.Reachable(db)
    ensures forall subs: seq<Sub>
      | forall s | s in subs :: s in LateSubs(db.pending, cutoff) :: Nameable(db.topics, subs)
  {
    NoLoss.ReachableConsistent(db);
    forall s | s in LateSubs(db.pending, cutoff) ensures exists n :: n in db.topics && db.topics[n] == s.topic {
      var k := Slot(s, Least(ExpiredIds(db.pending, s, cutoff)));
      assert k in db.pending && HasTopic(db, k.sub.topic);
    }
  }

  function Scope(n: TopicName): Namespace {
    Namespace(n.tenant, n.namespace)
  }

  predicate Matches(ns: Namespace, ref: SubRef) {
    ref.topic.persistent && Scope(ref.topic.name) == ns && ref.name != ""
  }

  function TouchOps(ns: Namespace, refs: seq<SubRef>, now: int): seq<Op> {
    if refs == [] then []
    else
      var rest := TouchOps(ns, refs[1..], now);
      if Matches(ns, refs[0]) then [Touch(refs[0].topic.name, refs[0].name, now)] + rest else rest
  }

  lemma TouchOpsStep(ns: Namespace, refs: seq<SubRef>, now: int)
    requires refs != []
    ensures forall db :: (
      var d := if Matches(ns, refs[0]) then Apply(db, Touch(refs[0].topic.name, refs[0].name, now)) else db;
      ApplyAll(db, TouchOps(ns, refs, now)) == ApplyAll(d, TouchOps(ns, refs[1..], now)))
  {
    var rest := TouchOps(ns, refs[1..], now);
    if Matches(ns, refs[0]) {
      var op := Touch(refs[0].topic.name, refs[0].name, now);
      assert ([op] + rest)[1..] == rest;
    }
  }

  lemma SubmapSize<K, V>(a: map<K, V>, b: map<K, V>)
    requires forall k | k in a :: k in b
    ensures |a| <= |b|
    ensures (exists k :: k in b && k !in a) ==> |a| < |b|
  {
    var rest := b.Keys - a.Keys;
    SameSet(rest + a.Keys, b.Keys);
    assert |b.Keys| == |rest| + |a.Keys|;
    if k :| k in b && k !in a { assert k in rest; }
  }

  /** Pending rows, cursor and subscription go, in this order. */
  function Forget(db: Db, s: Sub): Db {
    var d := db.(pending := map k | k in db.pending && k.sub != s :: db.pending[k]);
    var e := d.(cursors := d.cursors - {s});
    e.(subs := e.subs - {s})
  }

  lemma DropOneMore(db: Db, gone: set<Sub>, s: Sub)
    ensures DropSubs(db, gone + {s}) == Forget(DropSubs(db, gone), s)
  {
    var d := DropSubs(db, gone);
    var e := DropSubs(db, gone + {s});
    assert e.subs == d.subs - {s};
    assert e.cursors == d.cursors - {s};
    assert e.pending == map k | k in d.pending && k.sub != s :: d.pending[k];
  }

  /** PruneStaleSubscriptions' loop: one subscription after another. */
  method DropEach(db: Db, stale: set<Sub>) returns (d: Db, dropped: seq<Sub>)
    ensures d == DropSubs(db, stale)
    ensures forall s :: s in dropped <==> s in stale
  {
    d, dropped := db, [];
    var todo := stale;
    ghost var done: set<Sub> := {};
    assert DropSubs(db, done) == db;
    hide DropSubs, Forget;
    while todo != {}
      invariant done !! todo && stale == done + todo
      invariant d == DropSubs(db, done)
      invariant forall s :: s in dropped <==> s in done
      decreases |todo|
    {
      ghost var some := AnyOf(todo);
      var s :| s in todo;
      MoveOne(done, todo, s);
      DropOneMore(db, done, s);
      d := Forget(d, s);
      dropped := dropped + [s];
      done, todo := done + {s}, todo - {s};
    }
    assert done == stale;
  }

  /** The transaction of PruneStaleSubscriptions on a copy of the tables. */
  method DropStaleRows(db: Db, ns: Namespace, cutoff: int) returns (d: Db, dropped: seq<Sub>)
    requires NoLoss.Reachable(db)
    ensures d == Apply(db, DropStale(ns, cutoff))
    ensures d == db.(subs := d.subs, cursors := d.cursors, pending := d.pending)
    ensures forall s :: s in dropped <==> s in StaleSubs(db, ns, cutoff)
    ensures Nameable(db.topics, dropped)
  {
    StaleSubsNamed(db, ns, cutoff);
    hide NoLoss.Reachable, StaleSubs, Nameable;
    d, dropped := DropEach(db, StaleSubs(db, ns, cutoff));
  }

  lemma LateRowsHaveCursors(db: Db, cutoff: int)
    requires NoLoss.Reachable(db)
    ensures forall k | k in db.pending :: k.id >= 1 && k.sub in db.cursors && db.cursors[k.sub] >= 1
  {
    NoLoss.ReachableConsistent(db);
    forall k | k in db.pending ensures k.id >= 1 && k.sub in db.cursors && db.cursors[k.sub] >= 1 {
      assert Stored(db, k.sub.topic, k.id);
    }
  }

  // ---------- the expiry loop ----------

  /** The tables after the groups in done have been requeued. */
  function RowsAfter(table: map<Slot, Holder>, cutoff: int, done: set<Sub>): map<Slot, Holder> {
    map k | k in table && !(k.sub in done && table[k].deliveredAt < cutoff) :: table[k]
  }

  function CursorsAfter(table: map<Slot, Holder>, cursors: map<Sub, int>, cutoff: int, done: set<Sub>): map<Sub, int> {
    map s | s in cursors ::
      var late := ExpiredIds(table, s, cutoff);
      if s !in done || late == {} then cursors[s] else Min(cursors[s], Least(late))
  }

  lemma NoGroupsDone(table: map<Slot, Holder>, cursors: map<Sub, int>, cutoff: int)
    ensures RowsAfter(table, cutoff, {}) == table && CursorsAfter(table, cursors, cutoff, {}) == cursors
  {
  }

  lemma GroupRows(table: map<Slot, Holder>, cutoff: int, done: set<Sub>, s: Sub)
    requires s !in done && ExpiredIds(table, s, cutoff) != {}
    ensures var rows := RowsAfter(table, cutoff, done);
      && (map k | k in rows && !(k.sub == s && rows[k].deliveredAt < cutoff) :: rows[k])
           == RowsAfter(table, cutoff, done + {s})
      && |RowsAfter(table, cutoff, done + {s})| < |rows|
  {
    var rows := RowsAfter(table, cutoff, done);
    var k := Slot(s, Least(ExpiredIds(table, s, cutoff)));
    assert k in rows && k !in RowsAfter(table, cutoff, done + {s});
    SubmapSize(RowsAfter(table, cutoff, done + {s}), rows);
  }

  lemma GroupCursor(table: map<Slot, Holder>, cursors: map<Sub, int>, cutoff: int, done: set<Sub>, s: Sub)
    requires s in cursors && s !in done && cursors[s] >= 1 && forall id | Slot(s, id) in table :: id >= 1
    requires ExpiredIds(table, s, cutoff) != {}
    ensures var next := CursorsAfter(table, cursors, cutoff, done);
            var least := Least(ExpiredIds(table, s, cutoff));
      && least > 0 && s in next && next[s] == cursors[s]
      && (if least < next[s] then next[s := least] else next) == CursorsAfter(table, cursors, cutoff, done + {s})
  {
  }

  function LateSubs(table: map<Slot, Holder>, cutoff: int): (r: set<Sub>)
    ensures forall s :: s in r <==> ExpiredIds(table, s, cutoff) != {}
  {
    var r := set k | k in table && table[k].deliveredAt < cutoff :: k.sub;
    assert forall s :: s in r <==> ExpiredIds(table, s, cutoff) != {} by { LateSubsExpire(table, cutoff, r); }
    r
  }

  lemma LateSubsExpire(table: map<Slot, Holder>, cutoff: int, r: set<Sub>)
    requires r == set k | k in table && table[k].deliveredAt < cutoff :: k.sub
    ensures forall s :: s in r <==> ExpiredIds(table, s, cutoff) != {}
  {
    forall s ensures s in r <==> ExpiredIds(table, s, cutoff) != {} {
      if ExpiredIds(table, s, cutoff) != {} {
        assert Slot(s, Least(ExpiredIds(table, s, cutoff))) in table;
      }
      if s in r {
        var k :| k in table && table[k].deliveredAt < cutoff && k.sub == s;
        assert k.id in ExpiredIds(table, s, cutoff);
      }
    }
  }

  /** Once every group is done, the tables are those of the expiry transaction. */
  lemma AllGroupsDone(db: Db, cutoff: int)
    ensures var groups := LateSubs(db.pending, cutoff);
      ExpirePending(db, cutoff) == db.(pending := RowsAfter(db.pending, cutoff, groups),
                                       cursors := CursorsAfter(db.pending, db.cursors, cutoff, groups))
  {
    var groups := LateSubs(db.pending, cutoff);
    forall k | k in db.pending && db.pending[k].deliveredAt < cutoff ensures k.sub in groups {
      assert k.id in ExpiredIds(db.pending, k.sub, cutoff);
    }
    assert ExpirePending(db, cutoff).pending == RowsAfter(db.pending, cutoff, groups);
    assert ExpirePending(db, cutoff).cursors == CursorsAfter(db.pending, db.cursors, cutoff, groups);
  }

  /** ExpirePendingBefore's loop over the groups, in whatever order the query lists them. */
  method RequeueExpired(table: map<Slot, Holder>, cursors: map<Sub, int>, cutoff: int)
    returns (rows: map<Slot, Holder>, next: map<Sub, int>, cleared: nat, affected: seq<Sub>)
    requires forall k | k in table :: k.id >= 1 && k.sub in cursors && cursors[k.sub] >= 1
    ensures rows == RowsAfter(table, cutoff, LateSubs(table, cutoff))
    ensures next == CursorsAfter(table, cursors, cutoff, LateSubs(table, cutoff))
    ensures cleared == |table| - |rows|
    ensures forall s :: s in affected <==> s in LateSubs(table, cutoff)
  {
    NoGroupsDone(table, cursors, cutoff);
    hide RowsAfter, CursorsAfter;
    var groups := LateSubs(table, cutoff);
    var todo := groups;
    ghost var done: set<Sub> := {};
    rows, next, cleared, affected := table, cursors, 0, [];
    while todo != {}
      invariant done !! todo && groups == done + todo
      invariant rows == RowsAfter(table, cutoff, done) && next == CursorsAfter(table, cursors, cutoff, done)
      invariant cleared == |table| - |rows|
      invariant forall s :: s in affected <==> s in done
      decreases |todo|
    {
      ghost var some := AnyOf(todo);
      var s :| s in todo;
      MoveOne(done, todo, s);
      assert s in groups;
      assert Slot(s, Least(ExpiredIds(table, s, cutoff))) in table;
      GroupRows(table, cutoff, done, s);
      GroupCursor(table, cursors, cutoff, done, s);
      var minId := Least(ExpiredIds(table, s, cutoff));
      var cur := next[s];
      var left := map k | k in rows && !(k.sub == s && rows[k].deliveredAt < cutoff) :: rows[k];
      var deleted := |rows| - |left|;
      rows := left;
      if deleted > 0 {
        cleared := cleared + deleted;
        if minId > 0 && (cur == 0 || minId < cur) { next := next[s := minId]; }
        affected := affected + [s];
      }
      done, todo := done + {s}, todo - {s};
    }
    assert done == groups;
  }

  /** The expiry transaction on a copy of the tables. */
  method ExpireRows(db: Db, cutoff: int) returns (d: Db, cleared: nat, groups: seq<Sub>)
    requires NoLoss.Reachable(db)
    ensures d == ExpirePending(db, cutoff) && cleared == |db.pending| - |d.pending|
    ensures forall s :: s in groups <==> ExpiredIds(db.pending, s, cutoff) != {}
    ensures Nameable(db.topics, groups)
  {
    LateRowsHaveCursors(db, cutoff);
    AllGroupsDone(db, cutoff);
    LateSubsNamed(db, cutoff);
    hide NoLoss.Reachable, RowsAfter, CursorsAfter, ExpiredIds, Nameable;
    var rows, next;
    rows, next, cleared, groups := RequeueExpired(db.pending, db.cursors, cutoff);
    d := db.(pending := rows, cursors := next);
  }

  /** RedeliverPending's loop: delete the listed rows one by one, keeping the least id that was really deleted. */
  method DeleteListed(table: map<Slot, Holder>, s: Sub, consumer: int, ids: seq<int>)
    returns (rows: map<Slot, Holder>, minId: int)
    requires forall id | Slot(s, id) in table :: id >= 1
    ensures rows == Without(table, s, ListedIds(table, s, consumer, ids))
    ensures minId == LeastOrZero(ListedIds(table, s, consumer, ids))
  {
    rows, minId := table, 0;
    for i := 0 to |ids|
      invariant rows == Without(table, s, ListedIds(table, s, consumer, ids[..i]))
      invariant minId == LeastOrZero(ListedIds(table, s, consumer, ids[..i]))
    {
      DeleteStep(table, s, consumer, ids, i);
      LeastStep(table, s, consumer, ids, i);
      var key := Slot(s, ids[i]);
      var affected := key in rows && rows[key].consumer == consumer;
      rows := map k | k in rows && !(k == key && rows[k].consumer == consumer) :: rows[k];
      if affected && (minId == 0 || ids[i] < minId) { minId := ids[i]; }
    }
    assert ids[..|ids|] == ids;
  }

  /**
   ClaimBatch's loop over its selection: no INSERT OR IGNORE is ever ignored, so everything
   selected is handed out.
   */
  method HoldAll(table: map<Slot, Holder>, messages: map<int, Message>, s: Sub, q: seq<int>, holder: Holder)
    returns (rows: map<Slot, Holder>, lastSeen: int, batch: seq<Delivery>)
    requires Ascending(q)
    requires forall id | id in q :: id in messages && Slot(s, id) !in table
    ensures rows == WithRows(table, s, q, holder)
    ensures Ids(batch) == q && forall x | x in batch :: x.id in messages && x.message == messages[x.id]
    ensures lastSeen == if q == [] then 0 else q[|q| - 1]
  {
    rows, lastSeen, batch := table, 0, [];
    for i := 0 to |q|
      invariant rows == WithRows(table, s, q[..i], holder)
      invariant Ids(batch) == q[..i]
      invariant forall x | x in batch :: x.id in messages && x.message == messages[x.id]
      invariant lastSeen == if i == 0 then 0 else q[i - 1]
    {
      lastSeen := q[i];
      assert q[i] in q;
      AddStep(table, s, q, i, holder);
      assert q[..i + 1] == q[..i] + [q[i]];
      var key := Slot(s, q[i]);
      if key !in rows {
        rows := rows[key := holder];
        batch := batch + [Delivery(q[i], messages[q[i]])];
      }
    }
    assert q[..|q|] == q;
  }

  /** What ClaimBatch works with: the selected ids are stored, not held and in order; its effect in parts. */
  lemma ClaimParts(db: Db, n: TopicName, name: string, consumer: int, limit: int, now: int)
    requires NoLoss.Reachable(db) && SubOf(db, n, name) in db.subs
    ensures SubOf(db, n, name) in db.cursors
    ensures var s := SubOf(db, n, name);
            var op := Claim(n, name, consumer, limit, now);
            var touched := TouchSub(db, s, now);
            var q := Selected(touched, s, limit);
      && Ascending(q)
      && (forall id | id in q :: id >= 1 && id in db.messages && Slot(s, id) !in db.pending)
      && Claims.Claimed(db, op, s) == q
      && Apply(db, op) == touched.(pending := WithRows(db.pending, s, q, Holder(consumer, now)),
                                   cursors := if q == [] then db.cursors else db.cursors[s := q[|q| - 1] + 1])
  {
    var s := SubOf(db, n, name);
    NoLoss.ReachableConsistent(db);
    Claims.TouchChangesNoQueue(db, s, now);
    NoLoss.SelectedAvailable(TouchSub(db, s, now), s, limit);
  }

  function LeastOrZero(ids: set<int>): int {
    if ids == {} then 0 else Least(ids)
  }

  /** One more DELETE of a listed row. */
  lemma DeleteStep(pending: map<Slot, Holder>, s: Sub, consumer: int, ids: seq<int>, i: nat)
    requires i < |ids|
    ensures var rows := Without(pending, s, ListedIds(pending, s, consumer, ids[..i]));
      (map k | k in rows && !(k == Slot(s, ids[i]) && rows[k].consumer == consumer) :: rows[k])
        == Without(pending, s, ListedIds(pending, s, consumer, ids[..i + 1]))
  {
    assert ids[..i + 1] == ids[..i] + [ids[i]];
  }

  /** The running minimum over the rows deleted so far; a repeated id affects no row the second time. */
  lemma LeastStep(pending: map<Slot, Holder>, s: Sub, consumer: int, ids: seq<int>, i: nat)
    requires i < |ids| && forall id | Slot(s, id) in pending :: id >= 1
    ensures var m := LeastOrZero(ListedIds(pending, s, consumer, ids[..i]));
            var rows := Without(pending, s, ListedIds(pending, s, consumer, ids[..i]));
            var key := Slot(s, ids[i]);
            var affected := key in rows && rows[key].consumer == consumer;
      LeastOrZero(ListedIds(pending, s, consumer, ids[..i + 1]))
        == if affected && (m == 0 || ids[i] < m) then ids[i] else m
  {
    var before, after := ListedIds(pending, s, consumer, ids[..i]), ListedIds(pending, s, consumer, ids[..i + 1]);
    assert ids[..i + 1] == ids[..i] + [ids[i]];
    if ids[i] in HeldBy(pending, s, consumer) {
      SameSet(after, before + {ids[i]});
    } else {
      SameSet(after, before);
    }
  }

  /** One more INSERT of a pending row, which was not there yet. */
  lemma AddStep(pending: map<Slot, Holder>, s: Sub, q: seq<int>, i: nat, holder: Holder)
    requires i < |q| && Ascending(q) && Slot(s, q[i]) !in pending
    ensures var rows := WithRows(pending, s, q[..i], holder);
      Slot(s, q[i]) !in rows && rows[Slot(s, q[i]) := holder] == WithRows(pending, s, q[..i + 1], holder)
  {
    hide WithRows;
    assert q[..i + 1] == q[..i] + [q[i]];
    forall j | 0 <= j < i ensures q[..i][j] != q[i] {}
    assert q[i] !in q[..i];
    OneRowMore(pending, s, q[..i], q[i], holder);
  }

  lemma OneRowMore(pending: map<Slot, Holder>, s: Sub, ids: seq<int>, id: int, holder: Holder)
    requires id !in ids && Slot(s, id) !in pending
    ensures var rows := WithRows(pending, s, ids, holder);
      Slot(s, id) !in rows && rows[Slot(s, id) := holder] == WithRows(pending, s, ids + [id], holder)
  {
    forall k ensures k in SlotsOf(s, ids + [id]) <==> k in SlotsOf(s, ids) || k == Slot(s, id) {}
  }
}
