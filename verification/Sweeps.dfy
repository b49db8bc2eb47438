/**
 What a whole namespace sweep (internal/broker/maintenance.go) leaves of each table, in the
 tables' own columns.
 */
module Sweeps {
  import opened Basics
  import opened TopicNames
  import opened Tables
  import opened Ledger
  import opened Storage
  import opened Effects
  import Retention
  import NoLoss

  /** One of the references names this subscription, of a topic of the namespace. */
  ghost predicate ListedFor(db: Db, ns: Namespace, refs: seq<SubRef>, s: Sub) {
    exists ref :: ref in refs && Names(db, ns, ref, s)
  }

  predicate Names(db: Db, ns: Namespace, ref: SubRef, s: Sub) {
    var n := ref.topic.name;
    ref.topic.persistent && ref.name != "" && n.tenant == ns.tenant && n.namespace == ns.name
    && n in db.topics && s == Sub(db.topics[n], ref.name)
  }

  /** When a subscription was last seen, those listed having just been. */
  ghost function Seen(db: Db, ns: Namespace, refs: seq<SubRef>, now: int, s: Sub): int
    requires s in db.subs
  {
    if ListedFor(db, ns, refs, s) then now else db.subs[s].lastConsumerAt
  }

  /** The touches change stamps only, and only those of the listed subscriptions. */
  ghost predicate Touched(db: Db, d: Db, ns: Namespace, refs: seq<SubRef>, now: int) {
    && d == db.(subs := d.subs) && d.subs.Keys == db.subs.Keys
    && forall s | s in db.subs :: d.subs[s] == SubRow(db.subs[s].kind, Seen(db, ns, refs, now, s))
  }

  /** The namespace's subscriptions not seen since go with all their rows; the others keep theirs. */
  ghost predicate SweptSubs(db: Db, d: Db, ns: Namespace, refs: seq<SubRef>, now: int, stale: Option<int>) {
    && d.subs.Keys <= db.subs.Keys && d.cursors.Keys <= db.cursors.Keys && d.pending.Keys <= db.pending.Keys
    && forall s | s in db.subs ::
         && (s !in d.subs <==>
               stale.Some? && TopicIn(db, s.topic, ns) && 0 < Seen(db, ns, refs, now, s) < stale.value)
         && (s in d.subs ==> Survives(db, d, s) && d.subs[s].lastConsumerAt == Seen(db, ns, refs, now, s))
         && (s !in d.subs ==> s !in d.cursors && forall id :: Slot(s, id) !in d.pending)
  }

  /** A subscription keeps its type, cursor and pending rows. */
  ghost predicate Survives(db: Db, d: Db, s: Sub)
    requires s in db.subs && s in d.subs
  {
    && d.subs[s].kind == db.subs[s].kind
    && (s in d.cursors <==> s in db.cursors) && (s in db.cursors ==> d.cursors[s] == db.cursors[s])
    && (forall id :: Slot(s, id) in d.pending <==> Slot(s, id) in db.pending)
    && (forall id | Slot(s, id) in d.pending :: d.pending[Slot(s, id)] == db.pending[Slot(s, id)])
  }

  /** The namespace's old messages that no surviving subscription wants go; the others stay as they are. */
  ghost predicate SweptMessages(db: Db, d: Db, ns: Namespace, cutoff: int) {
    && d.messages.Keys <= db.messages.Keys
    && forall id | id in db.messages ::
         var m := db.messages[id];
         && (id !in d.messages <==>
               && m.publishTime < cutoff && TopicIn(db, m.topic, ns)
               && forall s | s in d.subs && s.topic == m.topic :: !Wants(d, s, id))
         && (id in d.messages ==> d.messages[id] == m)
  }

  /** The namespace's topics left without messages and subscriptions go, unless they are in use. */
  ghost predicate SweptTopics(db: Db, d: Db, ns: Namespace, exclude: set<TopicName>) {
    && d.topics.Keys <= db.topics.Keys
    && forall n | n in db.topics ::
         && (n !in d.topics <==>
               && n.tenant == ns.tenant && n.namespace == ns.name && n !in exclude
               && (forall s | s in d.subs :: s.topic != db.topics[n])
               && (forall id | id in d.messages :: d.messages[id].topic != db.topics[n]))
         && (n in d.topics ==> d.topics[n] == db.topics[n])
  }

  ghost predicate Swept(db: Db, d: Db, ns: Namespace, refs: seq<SubRef>, now: int,
                        stale: Option<int>, cutoff: int, exclude: set<TopicName>) {
    && SweptSubs(db, d, ns, refs, now, stale) && SweptMessages(db, d, ns, cutoff) && SweptTopics(db, d, ns, exclude)
    && d.nextId == db.nextId && d.nextTopic == db.nextTopic
  }

  lemma NamesTouched(db: Db, ns: Namespace, ref: SubRef, s: Sub, now: int)
    requires NoLoss.Reachable(db) && s in db.subs
    ensures Names(db, ns, ref, s) <==> Matches(ns, ref) && SubOf(db, ref.topic.name, ref.name) == s
  {
    NoLoss.NoTopicZero(db, ref.name);
  }

  lemma ListedAlone(db: Db, ns: Namespace, ref: SubRef, s: Sub)
    ensures ListedFor(db, ns, [ref], s) <==> Names(db, ns, ref, s)
  {
    hide Names;
    assert ref in [ref];
  }

  lemma TouchKeepsRest(db: Db, ns: Namespace, ref: SubRef, now: int)
    ensures var d := Retention.TouchedFirst(db, ns, ref, now);
      d == db.(subs := d.subs) && d.subs.Keys == db.subs.Keys
  {
  }

  lemma TouchOneSub(db: Db, ns: Namespace, ref: SubRef, now: int, s: Sub)
    requires s in db.subs
    ensures var d := Retention.TouchedFirst(db, ns, ref, now);
            var named := Matches(ns, ref) && SubOf(db, ref.topic.name, ref.name) == s;
      s in d.subs && d.subs[s] == if named then SubRow(db.subs[s].kind, now) else db.subs[s]
  {
  }

  lemma TouchOne(db: Db, ns: Namespace, ref: SubRef, now: int)
    requires NoLoss.Reachable(db)
    ensures var d := Retention.TouchedFirst(db, ns, ref, now);
      NoLoss.Reachable(d) && Touched(db, d, ns, [ref], now)
  {
    var d := Retention.TouchedFirst(db, ns, ref, now);
    if Matches(ns, ref) { NoLoss.ReachableStep(db, Touch(ref.topic.name, ref.name, now)); }
    TouchKeepsRest(db, ns, ref, now);
    hide NoLoss.Reachable, Names, Retention.TouchedFirst, ListedFor;
    forall s | s in db.subs ensures d.subs[s] == SubRow(db.subs[s].kind, Seen(db, ns, [ref], now, s)) {
      NamesTouched(db, ns, ref, s, now);
      ListedAlone(db, ns, ref, s);
      TouchOneSub(db, ns, ref, now, s);
    }
  }

  lemma TouchedTogether(db: Db, d: Db, e: Db, ns: Namespace, refs: seq<SubRef>, now: int)
    requires refs != [] && Touched(db, d, ns, [refs[0]], now) && Touched(d, e, ns, refs[1..], now)
    ensures Touched(db, e, ns, refs, now)
  {
    forall s | s in db.subs ensures e.subs[s] == SubRow(db.subs[s].kind, Seen(db, ns, refs, now, s)) {
      forall ref ensures Names(d, ns, ref, s) <==> Names(db, ns, ref, s) {}
      assert refs == [refs[0]] + refs[1..];
      assert ListedFor(db, ns, refs, s) <==> ListedFor(db, ns, [refs[0]], s) || ListedFor(d, ns, refs[1..], s);
    }
  }

  lemma {:induction false} TouchesExactly(db: Db, ns: Namespace, refs: seq<SubRef>, now: int)
    requires NoLoss.Reachable(db)
    ensures var d := ApplyAll(db, TouchOps(ns, refs, now));
      NoLoss.Reachable(d) && Touched(db, d, ns, refs, now)
    decreases |refs|
  {
    if refs == [] {
      forall s | s in db.subs ensures !ListedFor(db, ns, refs, s) {}
    } else {
      hide NoLoss.Reachable, Touched;
      var d := Retention.TouchedFirst(db, ns, refs[0], now);
      TouchOpsStep(ns, refs, now);
      TouchOne(db, ns, refs[0], now);
      TouchesExactly(d, ns, refs[1..], now);
      TouchedTogether(db, d, ApplyAll(d, TouchOps(ns, refs[1..], now)), ns, refs, now);
    }
  }

  // ---------- the removals ----------

  /** The tables once the touches and the removal of stale subscriptions are done. */
  function Kept(db: Db, ns: Namespace, refs: seq<SubRef>, now: int, stale: Option<int>): Db {
    var touched := ApplyAll(db, TouchOps(ns, refs, now));
    if stale.Some? then Apply(touched, DropStale(ns, stale.value)) else touched
  }

  lemma KeptExactly(db: Db, ns: Namespace, refs: seq<SubRef>, now: int, stale: Option<int>)
    requires NoLoss.Reachable(db)
    ensures var d := Kept(db, ns, refs, now, stale);
      && NoLoss.Reachable(d) && SweptSubs(db, d, ns, refs, now, stale)
      && d.messages == db.messages && d.topics == db.topics && d.nextId == db.nextId && d.nextTopic == db.nextTopic
  {
    TouchesExactly(db, ns, refs, now);
    var t := ApplyAll(db, TouchOps(ns, refs, now));
    var d := Kept(db, ns, refs, now, stale);
    if stale.Some? {
      NoLoss.ReachableStep(t, DropStale(ns, stale.value));
      forall s | s in db.subs ensures TopicIn(t, s.topic, ns) <==> TopicIn(db, s.topic, ns) {}
      StaleGone(db, t, ns, refs, now, stale.value);
    }
  }

  lemma StaleGone(db: Db, t: Db, ns: Namespace, refs: seq<SubRef>, now: int, stale: int)
    requires Touched(db, t, ns, refs, now)
    ensures var d := Apply(t, DropStale(ns, stale));
      && SweptSubs(db, d, ns, refs, now, Some(stale))
      && d.messages == db.messages && d.topics == db.topics && d.nextId == db.nextId && d.nextTopic == db.nextTopic
  {
    var d := Apply(t, DropStale(ns, stale));
    forall s | s in db.subs
      ensures s !in d.subs <==> TopicIn(db, s.topic, ns) && 0 < Seen(db, ns, refs, now, s) < stale
      ensures s in d.subs ==> Survives(db, d, s) && d.subs[s].lastConsumerAt == Seen(db, ns, refs, now, s)
      ensures s !in d.subs ==> s !in d.cursors && forall id :: Slot(s, id) !in d.pending
    {
      DropStaleExactly(t, ns, stale, s);
    }
  }

  lemma MessagesGone(db: Db, ns: Namespace, cutoff: int)
    requires NoLoss.Reachable(db)
    ensures var d := Apply(Apply(db, DropConsumed(ns, cutoff)), DropOrphaned(ns, cutoff));
      d == db.(messages := d.messages) && SweptMessages(db, d, ns, cutoff)
  {
    var c := Apply(db, DropConsumed(ns, cutoff));
    var d := Apply(c, DropOrphaned(ns, cutoff));
    forall id | id in db.messages
      ensures id !in d.messages <==>
        && db.messages[id].publishTime < cutoff && TopicIn(db, db.messages[id].topic, ns)
        && forall s | s in d.subs && s.topic == db.messages[id].topic :: !Wants(d, s, id)
    {
      DropConsumedExactly(db, ns, cutoff, id);
      if id in c.messages { DropOrphanedExactly(c, ns, cutoff, id); }
      Unchanged(db, c, d, ns, id);
    }
  }

  lemma Unchanged(db: Db, c: Db, d: Db, ns: Namespace, id: int)
    requires c == db.(messages := c.messages) && d == db.(messages := d.messages)
    ensures forall topic :: TopicIn(c, topic, ns) <==> TopicIn(db, topic, ns)
    ensures forall topic :: Followed(c, topic) <==> Followed(db, topic)
    ensures forall s :: Wants(d, s, id) <==> Wants(db, s, id)
  {
  }

  lemma TopicsGone(db: Db, ns: Namespace, exclude: set<TopicName>)
    ensures var d := Apply(db, DropEmptyTopics(ns, exclude));
      d == db.(topics := d.topics) && SweptTopics(db, d, ns, exclude)
  {
    forall n | n in db.topics
      ensures var d := Apply(db, DropEmptyTopics(ns, exclude));
        && (n !in d.topics <==>
              && n.tenant == ns.tenant && n.namespace == ns.name && n !in exclude
              && (forall s | s in d.subs :: s.topic != db.topics[n])
              && (forall id | id in d.messages :: d.messages[id].topic != db.topics[n]))
        && (n in d.topics ==> d.topics[n] == db.topics[n])
    {
      DropEmptyExactly(db, ns, exclude, n);
    }
  }

  lemma SubsStay(db: Db, k: Db, d: Db, ns: Namespace, refs: seq<SubRef>, now: int, stale: Option<int>)
    requires SweptSubs(db, k, ns, refs, now, stale)
    requires d == k.(messages := d.messages, topics := d.topics)
    ensures SweptSubs(db, d, ns, refs, now, stale)
  {
  }

  lemma MessagesStay(db: Db, k: Db, m: Db, d: Db, ns: Namespace, cutoff: int)
    requires k.messages == db.messages && k.topics == db.topics
    requires m == k.(messages := m.messages) && d == m.(topics := d.topics) && SweptMessages(k, m, ns, cutoff)
    ensures SweptMessages(db, d, ns, cutoff)
  {
    forall topic ensures TopicIn(k, topic, ns) <==> TopicIn(db, topic, ns) {}
    forall s, id ensures Wants(m, s, id) <==> Wants(d, s, id) {}
    hide TopicIn, Wants;
  }

  lemma SweptTogether(db: Db, k: Db, m: Db, d: Db, ns: Namespace, refs: seq<SubRef>, now: int,
                      stale: Option<int>, cutoff: int, exclude: set<TopicName>)
    requires SweptSubs(db, k, ns, refs, now, stale)
    requires k.messages == db.messages && k.topics == db.topics && k.nextId == db.nextId && k.nextTopic == db.nextTopic
    requires m == k.(messages := m.messages) && SweptMessages(k, m, ns, cutoff)
    requires d == m.(topics := d.topics) && SweptTopics(m, d, ns, exclude)
    ensures Swept(db, d, ns, refs, now, stale, cutoff, exclude)
  {
    SubsStay(db, k, d, ns, refs, now, stale);
    MessagesStay(db, k, m, d, ns, cutoff);
    hide SweptSubs, SweptMessages;
  }

  /** A sweep removes exactly this, and touches nothing else. */
  lemma SweepExactly(db: Db, ns: Namespace, refs: seq<SubRef>, now: int,
                     stale: Option<int>, cutoff: int, exclude: set<TopicName>)
    requires NoLoss.Reachable(db)
    ensures Swept(db, ApplyAll(db, Retention.SweepOps(ns, refs, now, stale, cutoff, exclude)),
                  ns, refs, now, stale, cutoff, exclude)
  {
    Retention.SweepInParts(db, ns, refs, now, stale, cutoff, exclude);
    KeptExactly(db, ns, refs, now, stale);
    var k := Kept(db, ns, refs, now, stale);
    MessagesGone(k, ns, cutoff);
    var m := Apply(Apply(k, DropConsumed(ns, cutoff)), DropOrphaned(ns, cutoff));
    TopicsGone(m, ns, exclude);
    hide Apply, ApplyAll, SweptSubs, SweptMessages, SweptTopics, Swept, NoLoss.Reachable;
    SweptTogether(db, k, m, Apply(m, DropEmptyTopics(ns, exclude)), ns, refs, now, stale, cutoff, exclude);
  }

  /** Rows of other namespaces are as they were. */
  ghost predicate SameOutside(db: Db, d: Db, ns: Namespace) {
    && (forall s | s in db.subs && !TopicIn(db, s.topic, ns) :: KeepsRows(db, d, s))
    && (forall id | id in db.messages && !TopicIn(db, db.messages[id].topic, ns) ::
          id in d.messages && d.messages[id] == db.messages[id])
    && (forall n | n in db.topics && !(n.tenant == ns.tenant && n.namespace == ns.name) ::
          n in d.topics && d.topics[n] == db.topics[n])
  }

  lemma SweepStaysInside(db: Db, d: Db, ns: Namespace, refs: seq<SubRef>, now: int,
                         stale: Option<int>, cutoff: int, exclude: set<TopicName>)
    requires Swept(db, d, ns, refs, now, stale, cutoff, exclude)
    ensures SameOutside(db, d, ns)
  {
    forall s | s in db.subs && !TopicIn(db, s.topic, ns) ensures KeepsRows(db, d, s) {
      forall ref | ref in refs ensures !Names(db, ns, ref, s) {}
      assert !ListedFor(db, ns, refs, s);
    }
  }
}
