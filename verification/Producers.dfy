/**
 Producer arbitration (internal/broker/handlers.go, producer_access.go, server.go): who may
 publish on a topic, and who waits. The broker's lock makes each step below atomic; a waiting
 handler gives the lock up until a broadcast wakes it, and checks again when it has it back.
 */
module Producers {
  import opened Basics
  import opened TopicNames

  datatype Mode = Shared | Exclusive | WaitForExclusive | ExclusiveWithFencing | Unsupported

  /** A producer id is scoped by its connection. */
  datatype Key = Key(conn: int, id: nat)

  datatype Producer = Producer(topic: string, mode: Mode)

  /** A PRODUCER command blocked on its topic's condition variable. */
  datatype Waiter = Waiter(key: Key, topic: string)

  datatype Registry = Registry(producers: map<Key, Producer>, asleep: set<Waiter>, woken: set<Waiter>)

  const NOBODY: Registry := Registry(map[], {}, {})

  datatype Reply = Registered | Waiting | BadTopic(e: ParseError) | LimitReached | AlreadyConnected | BadMode

  function OnTopic(producers: map<Key, Producer>, topic: string): set<Key> {
    set k | k in producers && producers[k].topic == topic
  }

  predicate HasProducers(r: Registry, topic: string) {
    OnTopic(r.producers, topic) != {}
  }

  function Sleepers(r: Registry, topic: string): set<Waiter> {
    set w | w in r.asleep && w.topic == topic
  }

  /** Broadcast: everybody asleep on the topic's condition wakes up. */
  function Wake(r: Registry, topic: string): Registry {
    r.(asleep := r.asleep - Sleepers(r, topic), woken := r.woken + Sleepers(r, topic))
  }

  /** Enters a producer; whatever the key named before is overwritten without a signal. */
  function Put(r: Registry, key: Key, topic: string, mode: Mode): Registry {
    r.(producers := r.producers[key := Producer(topic, mode)])
  }

  function Fenced(r: Registry, topic: string): Registry {
    Wake(r.(producers := r.producers - OnTopic(r.producers, topic)), topic)
  }

  /** The PRODUCER command up to its registration, refusal or first wait. */
  function Arrived(r: Registry, key: Key, topic: string, mode: Mode, max: int): (Registry, Reply) {
    if max > 0 && |r.producers| >= max then (r, LimitReached)
    else match mode
      case Shared => (Put(r, key, topic, mode), Registered)
      case Exclusive => if HasProducers(r, topic) then (r, AlreadyConnected) else (Put(r, key, topic, mode), Registered)
      case WaitForExclusive =>
        if HasProducers(r, topic) then (r.(asleep := r.asleep + {Waiter(key, topic)}), Waiting)
        else (Put(r, key, topic, mode), Registered)
      case ExclusiveWithFencing => (Put(Fenced(r, topic), key, topic, mode), Registered)
      case Unsupported => (r, BadMode)
  }

  /** A woken waiter with the lock again: registered if the topic is free, else asleep once more. */
  function Resumed(r: Registry, w: Waiter): Registry {
    var d := r.(woken := r.woken - {w});
    if HasProducers(r, w.topic) then d.(asleep := d.asleep + {w}) else Put(d, w.key, w.topic, WaitForExclusive)
  }

  function Closed(r: Registry, key: Key): Registry {
    if key in r.producers then Wake(r.(producers := r.producers - {key}), r.producers[key].topic) else r
  }

  datatype Act = Arrive(key: Key, topic: string, mode: Mode, max: int) | Resume(w: Waiter) | Close(key: Key)

  predicate CanDo(r: Registry, act: Act) {
    act.Resume? ==> act.w in r.woken
  }

  function Do(r: Registry, act: Act): Registry {
    match act
    case Arrive(key, topic, mode, max) => Arrived(r, key, topic, mode, max).0
    case Resume(w) => Resumed(r, w)
    case Close(key) => Closed(r, key)
  }

  ghost predicate CanRun(r: Registry, acts: seq<Act>)
    decreases |acts|
  {
    acts != [] ==> CanDo(r, acts[0]) && CanRun(Do(r, acts[0]), acts[1..])
  }

  function RunActs(r: Registry, acts: seq<Act>): Registry
    decreases |acts|
  {
    if acts == [] then r else RunActs(Do(r, acts[0]), acts[1..])
  }

  // ---------- what each step does to the registry ----------

  ghost predicate Occupied(producers: map<Key, Producer>, topic: string) {
    exists k :: k in producers && producers[k].topic == topic
  }

  lemma OccupiedIsHasProducers(r: Registry, topic: string)
    ensures HasProducers(r, topic) <==> Occupied(r.producers, topic)
  {
    if HasProducers(r, topic) {
      var k := AnyOf(OnTopic(r.producers, topic));
      assert k in r.producers && r.producers[k].topic == topic;
    }
    if k :| k in r.producers && r.producers[k].topic == topic { assert k in OnTopic(r.producers, topic); }
  }

  /** Who is let in, refused, or made to wait. */
  ghost predicate AnswerDue(r: Registry, topic: string, mode: Mode, max: int, reply: Reply) {
    var full := max > 0 && |r.producers| >= max;
    var taken := Occupied(r.producers, topic);
    && (reply == LimitReached <==> full)
    && (reply == AlreadyConnected <==> !full && mode == Exclusive && taken)
    && (reply == Waiting <==> !full && mode == WaitForExclusive && taken)
    && (reply == BadMode <==> !full && mode == Unsupported)
    && !reply.BadTopic?
  }

  /** Everybody asleep on the topic, and nobody else, is woken. */
  ghost predicate OnlyWakes(r: Registry, d: Registry, topic: string) {
    && (forall w :: w in d.asleep <==> w in r.asleep && w.topic != topic)
    && (forall w :: w in d.woken <==> w in r.woken || (w in r.asleep && w.topic == topic))
  }

  ghost predicate NobodyWakes(r: Registry, d: Registry) {
    d.asleep == r.asleep && d.woken == r.woken
  }

  /** What the answer means for the registry. */
  ghost predicate AnswerDone(r: Registry, d: Registry, key: Key, topic: string, mode: Mode, reply: Reply) {
    match reply
    case Registered =>
      && key in d.producers && d.producers[key] == Producer(topic, mode)
      && (forall k | k != key :: k in d.producers <==>
            k in r.producers && !(mode == ExclusiveWithFencing && r.producers[k].topic == topic))
      && (forall k | k != key && k in d.producers :: d.producers[k] == r.producers[k])
      && (if mode == ExclusiveWithFencing then OnlyWakes(r, d, topic) else NobodyWakes(r, d))
    case Waiting =>
      d.producers == r.producers && d.woken == r.woken && d.asleep == r.asleep + {Waiter(key, topic)}
    case _ => d == r
  }

  lemma ArrivedExactly(r: Registry, key: Key, topic: string, mode: Mode, max: int)
    ensures var (d, reply) := Arrived(r, key, topic, mode, max);
      AnswerDue(r, topic, mode, max, reply) && AnswerDone(r, d, key, topic, mode, reply)
  {
    OccupiedIsHasProducers(r, topic);
  }

  /** A woken waiter registers when nobody is on its topic, and sleeps again otherwise. */
  lemma ResumedExactly(r: Registry, w: Waiter)
    ensures var d := Resumed(r, w);
      && d.woken == r.woken - {w}
      && (Occupied(r.producers, w.topic) ==> d.producers == r.producers && d.asleep == r.asleep + {w})
      && (!Occupied(r.producers, w.topic) ==>
            d.producers == r.producers[w.key := Producer(w.topic, WaitForExclusive)] && d.asleep == r.asleep)
  {
    OccupiedIsHasProducers(r, w.topic);
  }

  /** A closed producer goes, and the waiters of its topic wake. */
  lemma ClosedExactly(r: Registry, key: Key)
    ensures var d := Closed(r, key);
      && d.producers == r.producers - {key}
      && if key in r.producers then OnlyWakes(r, d, r.producers[key].topic) else NobodyWakes(r, d)
  {
  }

  /** Some keys' producers have been closed one after another. */
  ghost predicate ClosedSoFar(before: Registry, r: Registry, done: set<Key>) {
    && r.producers == before.producers - done
    && r.asleep == (set w | w in before.asleep
         && !(exists k | k in done :: k in before.producers && before.producers[k].topic == w.topic))
    && r.asleep + r.woken == before.asleep + before.woken
  }

  lemma ClosedOneMore(before: Registry, r: Registry, done: set<Key>, key: Key)
    requires ClosedSoFar(before, r, done) && key in before.producers && key !in done
    ensures ClosedSoFar(before, Closed(r, key), done + {key})
  {
  }

  // ---------- exclusion ----------

  /** No two producers of a topic both came by an exclusive mode. */
  ghost predicate OneExclusive(r: Registry) {
    forall a, b | a in r.producers && b in r.producers && r.producers[a].topic == r.producers[b].topic ::
      a == b || r.producers[a].mode == Shared || r.producers[b].mode == Shared
  }

  ghost predicate OneProducer(r: Registry) {
    forall a, b | a in r.producers && b in r.producers && r.producers[a].topic == r.producers[b].topic :: a == b
  }

  predicate NoShared(act: Act) {
    act.Arrive? ==> act.mode != Shared
  }

  lemma NobodyOn(r: Registry, topic: string)
    requires !HasProducers(r, topic)
    ensures forall k | k in r.producers :: r.producers[k].topic != topic
  {
    forall k | k in r.producers ensures r.producers[k].topic != topic {
      assert k !in OnTopic(r.producers, topic);
    }
  }

  /** Entering a producer on a topic that nobody is on, others having left at most. */
  lemma PutOnFree(r: Registry, d: Registry, key: Key, topic: string, mode: Mode)
    requires !HasProducers(d, topic)
    requires forall k | k in d.producers :: k in r.producers && d.producers[k] == r.producers[k]
    ensures OneExclusive(r) ==> OneExclusive(Put(d, key, topic, mode))
    ensures OneProducer(r) ==> OneProducer(Put(d, key, topic, mode))
  {
    NobodyOn(d, topic);
  }

  lemma FencedIsFree(r: Registry, topic: string)
    ensures !HasProducers(Fenced(r, topic), topic)
    ensures forall k | k in Fenced(r, topic).producers ::
      k in r.producers && Fenced(r, topic).producers[k] == r.producers[k]
  {
    var d := Fenced(r, topic);
    forall k ensures k !in OnTopic(d.producers, topic) {
      assert k in r.producers && r.producers[k].topic == topic ==> k in OnTopic(r.producers, topic);
    }
    SameSet(OnTopic(d.producers, topic), {});
  }

  lemma StepExclusive(r: Registry, act: Act)
    requires OneExclusive(r)
    ensures OneExclusive(Do(r, act))
    ensures OneProducer(r) && NoShared(act) ==> OneProducer(Do(r, act))
  {
    match act
    case Arrive(key, topic, mode, max) =>
      if mode == ExclusiveWithFencing {
        FencedIsFree(r, topic);
        PutOnFree(r, Fenced(r, topic), key, topic, mode);
      } else if !HasProducers(r, topic) {
        PutOnFree(r, r, key, topic, mode);
      }
    case Resume(w) =>
      var d := r.(woken := r.woken - {w});
      if !HasProducers(d, w.topic) { PutOnFree(r, d, w.key, w.topic, WaitForExclusive); }
    case Close(key) =>
  }

  /**
   Mutual exclusion on every run, for any number of waiters and any interleaving: at most one
   producer of a topic holds it by an exclusive mode, and as long as none registers as shared,
   at most one producer is on a topic at all.
   */
  lemma {:induction false} ExclusiveOnEveryRun(r: Registry, acts: seq<Act>)
    requires OneExclusive(r)
    ensures OneExclusive(RunActs(r, acts))
    ensures OneProducer(r) && (forall act | act in acts :: NoShared(act)) ==> OneProducer(RunActs(r, acts))
    decreases |acts|
  {
    if acts == [] {
    } else {
      assert acts[0] in acts;
      StepExclusive(r, acts[0]);
      ExclusiveOnEveryRun(Do(r, acts[0]), acts[1..]);
      if forall act | act in acts :: NoShared(act) {
        forall act | act in acts[1..] ensures NoShared(act) { assert act in acts; }
      }
    }
  }

  /** What an exclusive registration finds or makes: a topic with nobody else on it. */
  lemma ExclusiveIsAlone(r: Registry, key: Key, topic: string, mode: Mode, max: int)
    requires mode != Shared && Arrived(r, key, topic, mode, max).1 == Registered
    ensures OnTopic(Arrived(r, key, topic, mode, max).0.producers, topic) == {key}
  {
    var d := Arrived(r, key, topic, mode, max).0;
    if mode != ExclusiveWithFencing { NobodyOn(r, topic); }
    forall k ensures k in OnTopic(d.producers, topic) <==> k == key {
      if mode == ExclusiveWithFencing && k in r.producers && r.producers[k].topic == topic {
        assert k in OnTopic(r.producers, topic);
      }
    }
  }

  // ---------- waking up ----------

  /** Nobody sleeps on a topic that is free. */
  ghost predicate NobodyStuck(r: Registry) {
    forall w | w in r.asleep :: HasProducers(r, w.topic)
  }

  /** The key an action enters into the table, with its new topic. */
  function Entered(r: Registry, act: Act): Option<(Key, string)> {
    match act
    case Arrive(key, topic, mode, max) =>
      if Arrived(r, key, topic, mode, max).1 == Registered then Some((key, topic)) else None
    case Resume(w) => if HasProducers(r, w.topic) then None else Some((w.key, w.topic))
    case Close(_) => None
  }

  /** The action reuses the key of the last producer of some other topic that somebody is waiting for. */
  predicate OverwritesLast(r: Registry, act: Act) {
    match Entered(r, act)
    case None => false
    case Some((key, topic)) =>
      key in r.producers && r.producers[key].topic != topic &&
      OnTopic(r.producers, r.producers[key].topic) == {key} && Sleepers(r, r.producers[key].topic) != {}
  }

  lemma MemberIsProducer(r: Registry, topic: string, k: Key)
    requires k in r.producers && r.producers[k].topic == topic
    ensures HasProducers(r, topic)
  {
    assert k in OnTopic(r.producers, topic);
  }

  lemma OtherProducer(r: Registry, topic: string, key: Key) returns (k: Key)
    requires HasProducers(r, topic) && OnTopic(r.producers, topic) != {key}
    ensures k != key && k in r.producers && r.producers[k].topic == topic
  {
    if key in OnTopic(r.producers, topic) {
      if OnTopic(r.producers, topic) - {key} == {} {
        SameSet(OnTopic(r.producers, topic), {key});
      }
      k := AnyOf(OnTopic(r.producers, topic) - {key});
    } else {
      k := AnyOf(OnTopic(r.producers, topic));
    }
  }

  /** The key, now entered on one topic, named the last producer of another. */
  predicate TakesLast(r: Registry, key: Key, topic: string, other: string) {
    key in r.producers && r.producers[key].topic == other && other != topic && OnTopic(r.producers, other) == {key}
  }

  /** Entering a key leaves a topic free exactly when the key named its last producer. */
  lemma PutFrees(r: Registry, key: Key, topic: string, mode: Mode, other: string)
    requires HasProducers(r, other)
    ensures HasProducers(Put(r, key, topic, mode), other) <==> !TakesLast(r, key, topic, other)
  {
    var d := Put(r, key, topic, mode);
    if other == topic {
      MemberIsProducer(d, other, key);
    } else if OnTopic(r.producers, other) == {key} {
      assert key in OnTopic(r.producers, other);
      forall k ensures k !in OnTopic(d.producers, other) {
        assert k in d.producers && k != key ==> k !in OnTopic(r.producers, other);
      }
      SameSet(OnTopic(d.producers, other), {});
    } else {
      var k := OtherProducer(r, other, key);
      MemberIsProducer(d, other, k);
    }
  }

  lemma PutStuck(r: Registry, key: Key, topic: string, mode: Mode)
    requires NobodyStuck(r)
    ensures NobodyStuck(Put(r, key, topic, mode))
       <==> !(key in r.producers && r.producers[key].topic != topic
              && OnTopic(r.producers, r.producers[key].topic) == {key} && Sleepers(r, r.producers[key].topic) != {})
  {
    var d := Put(r, key, topic, mode);
    forall w | w in r.asleep
      ensures HasProducers(d, w.topic) <==> !TakesLast(r, key, topic, w.topic)
    {
      PutFrees(r, key, topic, mode, w.topic);
    }
    if key in r.producers && Sleepers(r, r.producers[key].topic) != {} {
      var w := AnyOf(Sleepers(r, r.producers[key].topic));
      assert w in r.asleep && w in d.asleep;
    }
    forall w | w in r.asleep ensures Sleepers(r, w.topic) != {} { assert w in Sleepers(r, w.topic); }
  }

  lemma RemovedStuck(r: Registry, gone: set<Key>, topic: string)
    requires NobodyStuck(r) && gone <= OnTopic(r.producers, topic)
    ensures NobodyStuck(Wake(r.(producers := r.producers - gone), topic))
  {
    var d := Wake(r.(producers := r.producers - gone), topic);
    forall w | w in d.asleep ensures HasProducers(d, w.topic) {
      var k := AnyOf(OnTopic(r.producers, w.topic));
      assert w !in Sleepers(r, topic);
      assert k !in gone;
      MemberIsProducer(d, w.topic, k);
    }
  }

  lemma FencedElsewhere(r: Registry, topic: string, other: string)
    requires other != topic
    ensures OnTopic(Fenced(r, topic).producers, other) == OnTopic(r.producers, other)
    ensures Sleepers(Fenced(r, topic), other) == Sleepers(r, other)
  {
    SameSet(OnTopic(Fenced(r, topic).producers, other), OnTopic(r.producers, other));
    SameSet(Sleepers(Fenced(r, topic), other), Sleepers(r, other));
  }

  lemma ArriveStuck(r: Registry, key: Key, topic: string, mode: Mode, max: int)
    requires NobodyStuck(r)
    ensures NobodyStuck(Arrived(r, key, topic, mode, max).0) <==> !OverwritesLast(r, Arrive(key, topic, mode, max))
  {
    PutStuck(r, key, topic, mode);
    if mode == ExclusiveWithFencing {
      var d := Fenced(r, topic);
      RemovedStuck(r, OnTopic(r.producers, topic), topic);
      PutStuck(d, key, topic, mode);
      assert key in d.producers <==> key in r.producers && r.producers[key].topic != topic;
      if key in d.producers { FencedElsewhere(r, topic, r.producers[key].topic); }
    }
  }

  lemma ResumeStuck(r: Registry, w: Waiter)
    requires NobodyStuck(r)
    ensures NobodyStuck(Resumed(r, w)) <==> !OverwritesLast(r, Resume(w))
  {
    var d := r.(woken := r.woken - {w});
    assert NobodyStuck(d) by {
      forall x | x in d.asleep ensures HasProducers(d, x.topic) { assert HasProducers(r, x.topic); }
    }
    PutStuck(d, w.key, w.topic, WaitForExclusive);
    if HasProducers(r, w.topic) {
      forall x | x in Resumed(r, w).asleep ensures HasProducers(Resumed(r, w), x.topic) {
        assert HasProducers(r, x.topic);
      }
    } else if w.key in r.producers {
      SameSet(Sleepers(d, r.producers[w.key].topic), Sleepers(r, r.producers[w.key].topic));
    }
  }

  /**
   A step leaves somebody asleep on a free topic exactly when it overwrites the last producer of a
   topic with sleepers.
   */
  lemma StepStuck(r: Registry, act: Act)
    requires NobodyStuck(r)
    ensures NobodyStuck(Do(r, act)) <==> !OverwritesLast(r, act)
  {
    match act
    case Arrive(key, topic, mode, max) => ArriveStuck(r, key, topic, mode, max);
    case Resume(w) => ResumeStuck(r, w);
    case Close(key) => if key in r.producers { RemovedStuck(r, {key}, r.producers[key].topic); }
  }

  ghost predicate NeverOverwritesLast(r: Registry, acts: seq<Act>)
    decreases |acts|
  {
    acts != [] ==> !OverwritesLast(r, acts[0]) && NeverOverwritesLast(Do(r, acts[0]), acts[1..])
  }

  /** If no action reuses such a key, then on every run whoever sleeps has somebody to wait for. */
  lemma {:induction false} NobodyStuckOnEveryRun(r: Registry, acts: seq<Act>)
    requires NobodyStuck(r) && CanRun(r, acts) && NeverOverwritesLast(r, acts)
    ensures NobodyStuck(RunActs(r, acts))
    decreases |acts|
  {
    if acts == [] {
    } else {
      StepStuck(r, acts[0]);
      NobodyStuckOnEveryRun(Do(r, acts[0]), acts[1..]);
    }
  }

  /** A client that moves its producer id to another topic without closing it first loses the waiter's wake-up. */
  lemma KeyReuseStrandsWaiter(a: string, b: string)
    requires a != b
    ensures var acts := [Arrive(Key(1, 0), a, Shared, 0), Arrive(Key(2, 0), a, WaitForExclusive, 0),
                         Arrive(Key(1, 0), b, Shared, 0)];
            var r := RunActs(NOBODY, acts);
      CanRun(NOBODY, acts) && Waiter(Key(2, 0), a) in r.asleep && !HasProducers(r, a)
  {
    var first, second, third :=
      Arrive(Key(1, 0), a, Shared, 0), Arrive(Key(2, 0), a, WaitForExclusive, 0), Arrive(Key(1, 0), b, Shared, 0);
    var acts := [first, second, third];
    assert acts[1..] == [second, third] && acts[1..][1..] == [third] && acts[1..][1..][1..] == [];
    var r1 := Do(NOBODY, first);
    assert Key(1, 0) in OnTopic(r1.producers, a);
    var r2 := Do(r1, second);
    var r3 := Do(r2, third);
    SameSet(OnTopic(r3.producers, a), {});
    assert RunActs(NOBODY, acts) == r3 by {
      assert RunActs(r3, []) == r3;
      assert RunActs(r2, [third]) == r3;
      assert RunActs(r1, [second, third]) == r3;
    }
    assert CanRun(NOBODY, acts) by {
      assert CanRun(r3, []);
      assert CanRun(r2, [third]);
      assert CanRun(r1, [second, third]);
    }
  }

  // ---------- one broadcast, many waiters ----------

  function ResumeAll(r: Registry, ws: seq<Waiter>): Registry
    decreases |ws|
  {
    if ws == [] then r else ResumeAll(Resumed(r, ws[0]), ws[1..])
  }

  lemma {:induction false} LosersSleepAgain(r: Registry, ws: seq<Waiter>, topic: string)
    requires HasProducers(r, topic) && forall w | w in ws :: w.topic == topic
    ensures var d := ResumeAll(r, ws);
      d.producers == r.producers && d.asleep == r.asleep + (set w | w in ws) && d.woken == r.woken - (set w | w in ws)
    decreases |ws|
  {
    if ws == [] {
      SameSet(r.asleep + (set w | w in ws), r.asleep);
      SameSet(r.woken - (set w | w in ws), r.woken);
    } else {
      assert ws[0] in ws;
      forall w | w in ws[1..] ensures w.topic == topic { assert w in ws; }
      var d := Resumed(r, ws[0]);
      LosersSleepAgain(d, ws[1..], topic);
      forall w ensures w in ws <==> w == ws[0] || w in ws[1..] { assert ws == [ws[0]] + ws[1..]; }
      SameSet(d.asleep + (set w | w in ws[1..]), r.asleep + (set w | w in ws));
      SameSet(d.woken - (set w | w in ws[1..]), r.woken - (set w | w in ws));
    }
  }

  /**
   However many waiters one broadcast wakes on a free topic, and in whatever order they get the
   lock, the first is registered, alone on the topic, and all the others sleep again.
   */
  lemma OneWinner(r: Registry, ws: seq<Waiter>, topic: string)
    requires ws != [] && !HasProducers(r, topic) && forall w | w in ws :: w.topic == topic
    ensures var d := ResumeAll(r, ws);
      && d.producers == r.producers[ws[0].key := Producer(topic, WaitForExclusive)]
      && OnTopic(d.producers, topic) == {ws[0].key}
      && d.asleep == r.asleep + (set w | w in ws[1..])
  {
    assert ws[0] in ws;
    var d := Resumed(r, ws[0]);
    MemberIsProducer(d, topic, ws[0].key);
    forall w | w in ws[1..] ensures w.topic == topic { assert w in ws; }
    LosersSleepAgain(d, ws[1..], topic);
    NobodyOn(r, topic);
    SameSet(OnTopic(d.producers, topic), {ws[0].key});
  }

  // ---------- the broker's tables ----------

  class Arbiter {
    const maxProducers: int
    var producers: map<Key, Producer>
    var asleep: set<Waiter>
    var woken: set<Waiter>

    function View(): Registry
      reads this
    {
      Registry(producers, asleep, woken)
    }

    constructor (maxProducers: int)
      ensures this.maxProducers == maxProducers && View() == NOBODY
    {
      this.maxProducers := maxProducers;
      producers, asleep, woken := map[], {}, {};
    }

    method TopicHasProducers(topic: string) returns (found: bool)
      ensures found <==> HasProducers(View(), topic)
    {
      var todo := producers.Keys;
      while todo != {}
        invariant todo <= producers.Keys && OnTopic(producers, topic) <= todo
        decreases |todo|
      {
        ghost var some := AnyOf(todo);
        var k :| k in todo;
        if producers[k].topic == topic {
          MemberIsProducer(View(), topic, k);
          return true;
        }
        todo := todo - {k};
      }
      assert OnTopic(producers, topic) == {};
      found := false;
    }

    method Signal(topic: string)
      modifies this`asleep, this`woken
      ensures View() == Wake(old(View()), topic)
    {
      var sleepers := Sleepers(View(), topic);
      asleep, woken := asleep - sleepers, woken + sleepers;
    }

    method Fence(topic: string)
      modifies this
      ensures View() == Fenced(old(View()), topic)
    {
      var todo, left := producers.Keys, producers;
      while todo != {}
        invariant View() == old(View()) && todo <= producers.Keys
        invariant left == producers - (OnTopic(producers, topic) - todo)
        decreases |todo|
      {
        ghost var some := AnyOf(todo);
        var k :| k in todo;
        if producers[k].topic == topic { left := left - {k}; }
        todo := todo - {k};
      }
      assert OnTopic(producers, topic) - todo == OnTopic(producers, topic);
      producers := left;
      Signal(topic);
    }

    /** The PRODUCER command, up to where it is answered or starts to wait. */
    method HandleProducer(key: Key, raw: string, mode: Mode) returns (reply: Reply)
      modifies this
      ensures match Parse(raw)
              case Failure(e) => reply == BadTopic(e) && View() == old(View())
              case Success(info) =>
                && (View(), reply) == Arrived(old(View()), key, info.fullName, mode, maxProducers)
                && AnswerDue(old(View()), info.fullName, mode, maxProducers, reply)
                && AnswerDone(old(View()), View(), key, info.fullName, mode, reply)
    {
      var parsed := Parse(raw);
      if parsed.Failure? { return BadTopic(parsed.error); }
      var topic := parsed.value.fullName;
      ArrivedExactly(View(), key, topic, mode, maxProducers);
      hide AnswerDue, AnswerDone;
      if maxProducers > 0 && |producers| >= maxProducers { return LimitReached; }
      match mode {
        case Shared =>
        case Exclusive =>
          var taken := TopicHasProducers(topic);
          if taken { return AlreadyConnected; }
        case WaitForExclusive =>
          var taken := TopicHasProducers(topic);
          if taken {
            asleep := asleep + {Waiter(key, topic)};
            return Waiting;
          }
        case ExclusiveWithFencing => Fence(topic);
        case Unsupported => return BadMode;
      }
      producers := producers[key := Producer(topic, mode)];
      reply := Registered;
    }

    /** A waiting command that a broadcast woke, once it holds the lock again. */
    method Recheck(w: Waiter) returns (reply: Reply)
      requires w in woken
      modifies this
      ensures View() == Resumed(old(View()), w)
      ensures reply == if Occupied(old(producers), w.topic) then Waiting else Registered
    {
      OccupiedIsHasProducers(View(), w.topic);
      var taken := TopicHasProducers(w.topic);
      woken := woken - {w};
      if taken {
        asleep := asleep + {w};
        return Waiting;
      }
      producers := producers[w.key := Producer(w.topic, WaitForExclusive)];
      reply := Registered;
    }

    method CloseProducer(key: Key)
      modifies this
      ensures View() == Closed(old(View()), key)
    {
      if key in producers {
        var topic := producers[key].topic;
        producers := producers - {key};
        Signal(topic);
      }
    }

    /**
     cleanupConnection, with nobody in between: the connection's producers go, and everybody waiting
     for their topics wakes.
     */
    method DropConnection(conn: int)
      modifies this
      ensures producers == map k | k in old(producers) && k.conn != conn :: old(producers)[k]
      ensures asleep == set w | w in old(asleep)
        && !(exists k | k in old(producers) :: k.conn == conn && old(producers)[k].topic == w.topic)
      ensures asleep + woken == old(asleep + woken)
    {
      ghost var before := View();
      var todo := set k | k in producers && k.conn == conn;
      ghost var done: set<Key> := {};
      while todo != {}
        invariant todo !! done && todo + done == set k | k in before.producers && k.conn == conn
        invariant ClosedSoFar(before, View(), done)
        decreases |todo|
      {
        ghost var some := AnyOf(todo);
        var k :| k in todo;
        ClosedOneMore(before, View(), done, k);
        CloseProducer(k);
        done, todo := done + {k}, todo - {k};
      }
    }
  }
}
