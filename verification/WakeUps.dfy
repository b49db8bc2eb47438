/**
 When a wake-up is lost (internal/broker/delivery.go). Whatever makes a message deliverable is
 followed by a kick, which starts a loop unless one runs. A loop that has decided to return runs
 until it lowers its flag, and a kick in between has no effect. This module adds to the
 dispatcher's state the kicks still to come, and tells exactly when delivery stalls.
 */
module WakeUps {
  import opened Basics
  import opened Tables
  import opened Ledger
  import opened Dispatch
  import NoLoss
  import Claims

  /**
   The dispatcher with the consumers its subscription type lets it serve (all of them, the owner,
   or the primary) and the number of kicks that handlers have still to make.
   */
  datatype Watch = Watch(m: Machine, eligible: set<int>, due: nat)

  /** A step of an actor, with the eligible consumers after it. */
  datatype Move = Move(step: Step, eligible: set<int>)

  ghost predicate Ready(v: Watch) {
    exists uid :: uid in v.eligible && HasPermits(v.m, uid)
  }

  ghost predicate Unclaimed(m: Machine) {
    Key(m) in m.world.db.cursors && Available(m.world.db, Key(m)) != {}
  }

  /** There is a message to hand out and somebody to hand it to. */
  ghost predicate Deliverable(v: Watch) {
    Ready(v) && Unclaimed(v.m)
  }

  /** A loop runs that has not decided to return. */
  predicate Active(m: Machine) {
    m.loops != [] && !m.loops[0].Returned?
  }

  /** A kick is still to come: from a handler, or at the end of a removal. */
  predicate KickDue(v: Watch) {
    v.due > 0 || v.m.leaving != {}
  }

  /** Nothing deliverable is left without a loop or a kick to come. */
  ghost predicate Awake(v: Watch) {
    Deliverable(v) ==> KickDue(v) || Active(v.m)
  }

  /** The operations whose handlers kick this subscription afterwards; a seek that fails is answered without a kick. */
  predicate Kicks(m: Machine, op: Op) {
    match op
    case Insert(n, _, _) => n == m.topic
    case Seek(n, name, _) => n == m.topic && name == m.name && (Key(m) in m.world.db.subs || n !in m.world.db.topics)
    case Redeliver(n, name, _, _) => n == m.topic && name == m.name
    case AckIds(n, name, _, _) => n == m.topic && name == m.name
    case AckUpTo(n, name, _, _) => n == m.topic && name == m.name
    case Drop(n, name, _) => n == m.topic && name == m.name
    case Expire(cutoff) => ExpiredIds(m.world.db.pending, Key(m), cutoff) != {}
    case _ => false
  }

  /** The subscription comes into being: for the first time, or again after a sweep has dropped it. */
  predicate Creates(m: Machine, op: Op) {
    op.Subscribe? && op.topic == m.topic && op.name == m.name && Key(m) !in m.world.db.subs
  }

  /**
   What each step needs. A selection comes up empty, and a kick finds nobody ready, when no eligible
   consumer has permits, or only ones granted while it was looking, whose kick is still to come.
   */
  ghost predicate CanMove(v: Watch, move: Move) {
    Enabled(v.m, move.step) &&
    match move.step
    case Attach(uid) => move.eligible <= v.eligible + {uid}
    case Detach(uid) => move.eligible <= v.m.attached - {uid}
    case Kick(start) =>
      v.due > 0 && move.eligible == v.eligible &&
      if start then !v.m.delivering && Ready(v) else v.m.delivering || v.due > 1 || !Ready(v)
    case Choose(_, found) =>
      move.eligible == v.eligible && if found.Some? then found.value in v.eligible else KickDue(v) || !Ready(v)
    case Crash => move.eligible == {}
    case _ => move.eligible == v.eligible
  }

  function Due(v: Watch, step: Step): nat
    requires step.Kick? ==> v.due > 0
  {
    match step
    case Flow(_, _) | DropRows(_) => v.due + 1
    case Kick(_) => v.due - 1
    case Elsewhere(op) => if Kicks(v.m, op) then v.due + 1 else v.due
    case Crash => 0
    case _ => v.due
  }

  ghost function Moved(v: Watch, move: Move): Watch
    requires CanMove(v, move)
  {
    Watch(Take(v.m, move.step), move.eligible, Due(v, move.step))
  }

  // ---------- what does not make messages available ----------

  /** Nothing becomes available to a subscription that was not available before. */
  ghost predicate NoMore(db: Db, s: Sub, d: Db, t: Sub) {
    t in d.cursors ==> s in db.cursors && forall id | id in Available(d, t) :: id in Available(db, s)
  }

  lemma SameSubOrNone(db: Db, d: Db, n: TopicNames.TopicName, name: string)
    requires NoLoss.Reachable(db) && NoLoss.Reachable(d)
    requires n in db.topics && n in d.topics ==> db.topics[n] == d.topics[n]
    requires n in d.topics && n !in db.topics ==> d.topics[n] == db.nextTopic && Sub(db.nextTopic, name) !in d.subs
    ensures SubOf(d, n, name) in d.cursors ==>
      SubOf(d, n, name) == SubOf(db, n, name) && n in db.topics && n in d.topics
  {
    NoLoss.NoTopicZero(d, name);
    NoLoss.CursorsMatchSubs(d);
  }

  lemma OtherTopicId(db: Db, n: TopicNames.TopicName, other: TopicNames.TopicName)
    requires NoLoss.Reachable(db) && n in db.topics && other != n
    ensures EnsureTopic(db, other).topics[other] != db.topics[n]
    ensures TopicId(db, other) != db.topics[n]
  {
    NoLoss.ReachableConsistent(db);
  }

  /** A subscribe adds at most the one cursor. */
  lemma SubscribeShape(db: Db, op: Op)
    requires db.cursors.Keys == db.subs.Keys && op.Subscribe?
    ensures var d := Apply(db, op);
            var r := Sub(EnsureTopic(db, op.topic).topics[op.topic], op.name);
      && d.messages == db.messages && d.pending == db.pending
      && (d.topics == db.topics || d.topics == EnsureTopic(db, op.topic).topics)
      && (forall s | s in db.cursors :: s in d.cursors && d.cursors[s] == db.cursors[s])
      && (forall s | s in d.cursors && s !in db.cursors :: s == r && r !in db.subs)
  {
    NoLoss.SubscribeCases(db, Book(map[], map[], map[]), op);
  }

  lemma SubscribeAddsNoMore(db: Db, op: Op, n: TopicNames.TopicName, name: string)
    requires NoLoss.Reachable(db) && op.Subscribe?
    requires !(op.topic == n && op.name == name && SubOf(db, n, name) !in db.subs)
    ensures NoMore(db, SubOf(db, n, name), Apply(db, op), SubOf(Apply(db, op), n, name))
  {
    NoLoss.ReachableStep(db, op);
    NoLoss.NewTopicIsUnused(db);
    NoLoss.NoTopicZero(db, name);
    NoLoss.CursorsMatchSubs(db);
    NoLoss.CursorsMatchSubs(Apply(db, op));
    SubscribeShape(db, op);
    hide Apply, NoLoss.Reachable;
    if n in db.topics && op.topic != n { OtherTopicId(db, n, op.topic); }
    SameSubOrNone(db, Apply(db, op), n, name);
  }

  /** A claim for another subscription. */
  lemma ClaimShape(db: Db, op: Op, s: Sub)
    requires op.Claim? && s != SubOf(db, op.topic, op.name)
    ensures var d := Apply(db, op);
      && d.messages == db.messages && d.topics == db.topics
      && (s in d.cursors <==> s in db.cursors) && (s in db.cursors ==> d.cursors[s] == db.cursors[s])
      && (forall id :: Slot(s, id) in d.pending <==> Slot(s, id) in db.pending)
  {
    hide Selected;
  }

  lemma ClaimAddsNoMore(db: Db, op: Op, n: TopicNames.TopicName, name: string)
    requires NoLoss.Reachable(db) && op.Claim? && !(op.topic == n && op.name == name)
    ensures NoMore(db, SubOf(db, n, name), Apply(db, op), SubOf(Apply(db, op), n, name))
  {
    NoLoss.ReachableStep(db, op);
    NoLoss.NoTopicZero(Apply(db, op), name);
    if n in db.topics {
      if op.topic != n { OtherTopicId(db, n, op.topic); }
      ClaimShape(db, op, SubOf(db, n, name));
    } else {
      ClaimKeepsTopics(db, op);
    }
    hide NoLoss.Reachable, Apply;
  }

  lemma ClaimKeepsTopics(db: Db, op: Op)
    requires op.Claim?
    ensures Apply(db, op).topics == db.topics
  {
    hide Selected;
  }

  /** Operations on the rows and cursor of one subscription leave the others'. */
  lemma RowsShape(db: Db, op: Op, s: Sub)
    requires NoLoss.Reachable(db) && (op.Seek? || op.Redeliver? || op.AckIds? || op.AckUpTo? || op.Drop?)
    requires s != SubOf(db, op.topic, op.name)
    ensures var d := Apply(db, op);
      && d.messages == db.messages && d.topics == db.topics
      && (s in d.cursors <==> s in db.cursors) && (s in db.cursors ==> d.cursors[s] == db.cursors[s])
      && (forall id :: Slot(s, id) in d.pending <==> Slot(s, id) in db.pending)
  {
    if op.Drop? { NoLoss.ReachableDrop(db, SubOf(db, op.topic, op.name), op.consumer); }
  }

  lemma ElsewhereAddsNoMore(db: Db, op: Op, n: TopicNames.TopicName, name: string)
    requires NoLoss.Reachable(db) && (op.Seek? || op.Redeliver? || op.AckIds? || op.AckUpTo? || op.Drop?)
    requires !(op.topic == n && op.name == name)
    ensures NoMore(db, SubOf(db, n, name), Apply(db, op), SubOf(Apply(db, op), n, name))
  {
    NoLoss.ReachableStep(db, op);
    var s, r := SubOf(db, n, name), SubOf(db, op.topic, op.name);
    if n in db.topics {
      if op.topic != n { OtherTopicId(db, n, op.topic); }
      RowsShape(db, op, s);
    } else {
      NoLoss.NoTopicZero(Apply(db, op), name);
    }
    hide NoLoss.Reachable;
  }

  /** Rows, cursors and topic rows may go, nothing comes and no cursor that stays moves. */
  ghost predicate OnlyLess(db: Db, s: Sub, d: Db) {
    (forall id | id in d.messages :: id in db.messages && d.messages[id] == db.messages[id]) &&
    (forall n | n in d.topics :: n in db.topics && d.topics[n] == db.topics[n]) &&
    (s in d.cursors ==> s in db.cursors && d.cursors[s] == db.cursors[s]
                        && forall id :: Slot(s, id) in d.pending <==> Slot(s, id) in db.pending)
  }

  lemma PruneShape(db: Db, op: Op, s: Sub)
    requires op.DropConsumed? || op.DropOrphaned? || op.DropEmptyTopics? || op.DropStale?
    ensures OnlyLess(db, s, Apply(db, op))
  {
    hide Consumed, Orphaned, EmptyTopic, StaleSubs;
  }

  lemma ExpireShape(db: Db, op: Op, s: Sub)
    requires op.Expire? && ExpiredIds(db.pending, s, op.cutoff) == {}
    ensures OnlyLess(db, s, Apply(db, op))
  {
    assert forall id :: id !in ExpiredIds(db.pending, s, op.cutoff);
  }

  lemma RestShape(db: Db, op: Op, s: Sub)
    requires NoLoss.Reachable(db)
    requires op.Touch? || op.DropStale? || op.DropConsumed? || op.DropOrphaned? || op.DropEmptyTopics?
          || op.RepairRows? || op.Restart?
      || (op.Expire? && ExpiredIds(db.pending, s, op.cutoff) == {})
    ensures OnlyLess(db, s, Apply(db, op))
  {
    hide NoLoss.Reachable, ExpiredIds;
    match op
    case DropStale(_, _) | DropConsumed(_, _) | DropOrphaned(_, _) | DropEmptyTopics(_, _) => PruneShape(db, op, s);
    case Expire(cutoff) => ExpireShape(db, op, s);
    case RepairRows(ns) => NoLoss.ReachableRepair(db, ns);
    case _ =>
  }

  lemma RestAddsNoMore(db: Db, op: Op, n: TopicNames.TopicName, name: string)
    requires NoLoss.Reachable(db)
    requires op.Touch? || op.DropStale? || op.DropConsumed? || op.DropOrphaned? || op.DropEmptyTopics?
          || op.RepairRows? || op.Restart?
      || (op.Expire? && ExpiredIds(db.pending, SubOf(db, n, name), op.cutoff) == {})
    ensures NoMore(db, SubOf(db, n, name), Apply(db, op), SubOf(Apply(db, op), n, name))
  {
    NoLoss.ReachableStep(db, op);
    NoLoss.NoTopicZero(Apply(db, op), name);
    RestShape(db, op, SubOf(db, n, name));
    hide Apply, NoLoss.Reachable;
  }

  lemma FailedSeek(db: Db, op: Op)
    requires NoLoss.Reachable(db) && op.Seek? && SubOf(db, op.topic, op.name) !in db.subs
    ensures NoMore(db, SubOf(db, op.topic, op.name), Apply(db, op), SubOf(Apply(db, op), op.topic, op.name))
  {
    NoLoss.CursorsMatchSubs(db);
  }

  /** Only the operations that kick, and its own creation, make messages available to a subscription. */
  lemma OthersAddNoMore(m: Machine, op: Op)
    requires NoLoss.Reachable(m.world.db) && !OwnClaim(m, op) && !Kicks(m, op) && !Creates(m, op)
    ensures NoMore(m.world.db, Key(m), Apply(m.world.db, op), SubOf(Apply(m.world.db, op), m.topic, m.name))
  {
    hide Apply, NoMore, NoLoss.Reachable;
    match op
    case Insert(_, _, _) => InsertAddsNoMore(m.world.db, op, m.topic, m.name);
    case Subscribe(_, _, _, _, _, _) => SubscribeAddsNoMore(m.world.db, op, m.topic, m.name);
    case Claim(_, _, _, _, _) => ClaimAddsNoMore(m.world.db, op, m.topic, m.name);
    case Seek(n, name, _) =>
      if n == m.topic && name == m.name { FailedSeek(m.world.db, op); }
      else { ElsewhereAddsNoMore(m.world.db, op, m.topic, m.name); }
    case Redeliver(_, _, _, _) | AckIds(_, _, _, _) | AckUpTo(_, _, _, _) | Drop(_, _, _) =>
      ElsewhereAddsNoMore(m.world.db, op, m.topic, m.name);
    case _ => RestAddsNoMore(m.world.db, op, m.topic, m.name);
  }

  lemma InsertAddsNoMore(db: Db, op: Op, n: TopicNames.TopicName, name: string)
    requires NoLoss.Reachable(db) && op.Insert? && op.topic != n
    ensures NoMore(db, SubOf(db, n, name), Apply(db, op), SubOf(Apply(db, op), n, name))
  {
    NoLoss.ReachableStep(db, op);
    SameSubOrNone(db, Apply(db, op), n, name);
    if n in db.topics { OtherTopicId(db, n, op.topic); }
  }

  // ---------- exactly when delivery stalls ----------

  /** The last kick to come falls between a loop's decision to return and the lowering of its flag. */
  ghost predicate LosesKick(v: Watch, move: Move) {
    move.step.Kick? && v.due == 1 && v.m.leaving == {} && v.m.delivering && !Active(v.m) && Deliverable(v)
  }

  /** A write fails while others could be served and nobody is going to kick. */
  ghost predicate Abandons(v: Watch, move: Move) {
    move.step.Write? && !move.step.ok && !KickDue(v) && Deliverable(v)
  }

  /** What is stored from the position of a subscription that a SUBSCRIBE creates. */
  function CreatedBacklog(db: Db, op: Op): set<int>
    requires op.Subscribe?
  {
    var d := EnsureTopic(db, op.topic);
    StoredFrom(d, d.topics[op.topic], StartOf(d, d.topics[op.topic], op.latest, op.startId))
  }

  /**
   A dropped subscription is created again over stored messages while somebody attached to it is
   ready, no loop runs and nobody is going to kick: SUBSCRIBE itself does not.
   */
  ghost predicate Recreates(v: Watch, move: Move) {
    move.step.Elsewhere? && Creates(v.m, move.step.op) && Ready(v) && !KickDue(v) && !Active(v.m)
    && CreatedBacklog(v.m.world.db, move.step.op) != {}
  }

  lemma KickAwake(v: Watch, move: Move)
    requires Solvent(v.m) && CanMove(v, move) && move.step.Kick?
    ensures Awake(Moved(v, move)) <==> !LosesKick(v, move)
  {
    var d := Moved(v, move);
    assert d.m.world == v.m.world && d.m.accounts == v.m.accounts && d.m.leaving == v.m.leaving;
    SameReady(v, d);
    if v.m.loops != [] { OnlyLoop(v.m, 0); }
  }

  /** Who is ready depends on the eligible consumers' permits only. */
  lemma SameReady(v: Watch, d: Watch)
    requires d.eligible == v.eligible && forall uid :: HasPermits(d.m, uid) <==> HasPermits(v.m, uid)
    ensures Ready(d) <==> Ready(v)
  {
    if uid :| uid in v.eligible && HasPermits(v.m, uid) { assert HasPermits(d.m, uid); }
    if uid :| uid in d.eligible && HasPermits(d.m, uid) { assert HasPermits(v.m, uid); }
  }

  lemma FetchAwake(v: Watch, move: Move)
    requires Solvent(v.m) && NoLoss.Reachable(v.m.world.db) && CanMove(v, move) && move.step.Fetch?
    ensures Awake(Moved(v, move))
  {
    OnlyLoop(v.m, move.step.i);
    var loop, s := v.m.loops[0], Key(v.m);
    if Batch(v.m, loop, move.step.now) == [] {
      EmptyClaim(v.m.world.db, ClaimOp(v.m, loop.uid, loop.limit, move.step.now));
    }
  }

  /** A claim that hands out nothing found nothing, and leaves nothing. */
  lemma EmptyClaim(db: Db, op: Op)
    requires NoLoss.Reachable(db) && op.Claim? && op.limit >= 1
    requires Claims.Claimed(db, op, SubOf(db, op.topic, op.name)) == []
    ensures var s := SubOf(db, op.topic, op.name);
            var d := Apply(db, op);
      SubOf(d, op.topic, op.name) == s && (s in d.cursors ==> Available(d, s) == {})
  {
    var s := SubOf(db, op.topic, op.name);
    NoLoss.CursorsMatchSubs(db);
    if s in db.subs {
      Claims.ClaimTakesFront(db, s, op.consumer, op.limit, op.now);
      EmptyQueue(Apply(db, op), s);
    }
  }

  lemma EmptyQueue(db: Db, s: Sub)
    requires s in db.cursors && Claims.Queue(db, s) == []
    ensures Available(db, s) == {}
  {
    forall id ensures id !in Available(db, s) { assert id in Claims.Queue(db, s) <==> id in Available(db, s); }
    SameSet(Available(db, s), {});
  }

  lemma LoopAwake(v: Watch, move: Move)
    requires Solvent(v.m) && Awake(v) && CanMove(v, move)
    requires move.step.Choose? || move.step.ReadPermits? || move.step.Charge? || move.step.Clear?
    ensures Awake(Moved(v, move))
  {
    OnlyLoop(v.m, move.step.i);
    var d := Moved(v, move);
    if move.step.Choose? || move.step.Clear? {
      assert d.m.world == v.m.world && d.m.accounts == v.m.accounts;
      SameReady(v, d);
    }
  }

  lemma WriteAwake(v: Watch, move: Move)
    requires Solvent(v.m) && CanMove(v, move) && move.step.Write?
    ensures Awake(Moved(v, move)) <==> !Abandons(v, move)
  {
    OnlyLoop(v.m, move.step.i);
    var d := Moved(v, move);
    if !move.step.ok {
      assert d.m.world == v.m.world && d.m.accounts == v.m.accounts;
      SameReady(v, d);
    }
  }

  lemma GrantAwake(v: Watch, move: Move)
    requires Awake(v) && CanMove(v, move)
    requires move.step.Attach? || move.step.Flow? || move.step.Detach? || move.step.DropRows? || move.step.Crash?
    ensures Awake(Moved(v, move))
  {
    var d := Moved(v, move);
    if move.step.Attach? {
      if uid :| uid in d.eligible && HasPermits(d.m, uid) { assert uid in v.eligible && HasPermits(v.m, uid); }
      assert d.m.world == v.m.world;
    }
    if move.step.Detach? { assert move.step.uid in d.m.leaving; }
  }

  lemma ElsewhereAwake(v: Watch, move: Move)
    requires Awake(v) && NoLoss.Reachable(v.m.world.db) && CanMove(v, move) && move.step.Elsewhere?
    ensures Awake(Moved(v, move)) <==> !Recreates(v, move)
  {
    var op, d := move.step.op, Moved(v, move);
    SameReady(v, d);
    if Creates(v.m, op) {
      CreatedAvailable(v.m.world.db, op);
    } else if !Kicks(v.m, op) {
      OthersAddNoMore(v.m, op);
      if Unclaimed(d.m) { SomeAvailable(v.m, d.m); }
    }
  }

  /** A subscription that comes into being can claim exactly what is stored from its position on. */
  lemma CreatedAvailable(db: Db, op: Op)
    requires NoLoss.Reachable(db) && op.Subscribe? && SubOf(db, op.topic, op.name) !in db.subs
    ensures var d := Apply(db, op);
            var s := SubOf(d, op.topic, op.name);
      s in d.cursors && Available(d, s) == CreatedBacklog(db, op)
  {
    var e := EnsureTopic(db, op.topic);
    var s := Sub(e.topics[op.topic], op.name);
    NoLoss.NewTopicIsUnused(db);
    NoLoss.HeldRows(db, s);
    NoLoss.SubscribeCases(db, Book(map[], map[], map[]), op);
    var start := StartOf(e, s.topic, op.latest, op.startId);
    hide NoLoss.Reachable, Apply, LastId, StartOf;
    NewSubAvailable(e, s, if op.kind.Some? then op.kind.value else Shared, start, op.now);
  }

  lemma NewSubAvailable(db: Db, s: Sub, kind: SubType, start: int, now: int)
    requires forall id :: Slot(s, id) !in db.pending
    ensures s in AddSub(db, s, kind, start, now).cursors
    ensures Available(AddSub(db, s, kind, start, now), s) == StoredFrom(db, s.topic, start)
  {
    SameSet(Available(AddSub(db, s, kind, start, now), s), StoredFrom(db, s.topic, start));
  }

  lemma SomeAvailable(m: Machine, d: Machine)
    requires NoMore(m.world.db, Key(m), d.world.db, Key(d)) && Unclaimed(d)
    ensures Unclaimed(m)
  {
    var id := AnyOf(Available(d.world.db, Key(d)));
    assert id in Available(m.world.db, Key(m));
  }

  /** What makes delivery stall. */
  ghost predicate Stalls(v: Watch, move: Move) {
    LosesKick(v, move) || Abandons(v, move) || Recreates(v, move)
  }

  /**
   Delivery stalls exactly when a step loses the last kick, abandons a batch, or creates a dropped
   subscription again over stored messages; every other step keeps it awake.
   */
  lemma StepAwake(v: Watch, move: Move)
    requires Solvent(v.m) && NoLoss.Possible(v.m.world) && Awake(v) && CanMove(v, move)
    ensures Awake(Moved(v, move)) <==> !Stalls(v, move)
  {
    NoLoss.PossibleReachable(v.m.world);
    hide Awake, Moved, Take, Deliverable;
    match move.step
    case Kick(_) => KickAwake(v, move);
    case Fetch(_, _) => FetchAwake(v, move);
    case Write(_, _) => WriteAwake(v, move);
    case Elsewhere(_) => ElsewhereAwake(v, move);
    case Choose(_, _) | ReadPermits(_) | Charge(_) | Clear(_) => LoopAwake(v, move);
    case _ => GrantAwake(v, move);
  }

  ghost predicate CanGo(v: Watch, moves: seq<Move>)
    decreases |moves|
  {
    moves != [] ==> CanMove(v, moves[0]) && CanGo(Moved(v, moves[0]), moves[1..])
  }

  ghost function Gone(v: Watch, moves: seq<Move>): Watch
    requires CanGo(v, moves)
    decreases |moves|
  {
    if moves == [] then v else Gone(Moved(v, moves[0]), moves[1..])
  }

  ghost predicate NeverStalls(v: Watch, moves: seq<Move>)
    requires CanGo(v, moves)
    decreases |moves|
  {
    moves != [] ==> !Stalls(v, moves[0]) && NeverStalls(Moved(v, moves[0]), moves[1..])
  }

  lemma {:induction false} GoneAwake(v: Watch, moves: seq<Move>)
    requires Solvent(v.m) && NoLoss.Possible(v.m.world) && Awake(v) && CanGo(v, moves) && NeverStalls(v, moves)
    ensures Awake(Gone(v, moves))
    decreases |moves|
  {
    if moves == [] {
    } else {
      hide Awake, Solvent, CanMove, Stalls;
      StepAwake(v, moves[0]);
      MovedSound(v, moves[0]);
      GoneAwake(Moved(v, moves[0]), moves[1..]);
    }
  }

  lemma MovedSound(v: Watch, move: Move)
    requires Solvent(v.m) && NoLoss.Possible(v.m.world) && CanMove(v, move)
    ensures Solvent(Moved(v, move).m) && NoLoss.Possible(Moved(v, move).m.world)
  {
    StepSolvent(v.m, move.step);
    StepPossible(v.m, move.step);
  }

  function Asleep(topic: TopicNames.TopicName, name: string): Watch {
    Watch(Init(topic, name), {}, 0)
  }

  /**
   On every interleaving without such a step: once no loop runs, no removal is under way and no
   kick is still to come, nothing is left that could be delivered to anybody.
   */
  lemma NothingLeftBehind(topic: TopicNames.TopicName, name: string, moves: seq<Move>)
    requires CanGo(Asleep(topic, name), moves) && NeverStalls(Asleep(topic, name), moves)
    requires var v := Gone(Asleep(topic, name), moves); !v.m.delivering && !KickDue(v)
    ensures !Deliverable(Gone(Asleep(topic, name), moves))
  {
    var v := Asleep(topic, name);
    NoLoss.StartPossible();
    assert Solvent(v.m) && Awake(v);
    GoneAwake(v, moves);
    GoneSolvent(v, moves);
  }

  lemma {:induction false} GoneSolvent(v: Watch, moves: seq<Move>)
    requires Solvent(v.m) && NoLoss.Possible(v.m.world) && CanGo(v, moves)
    ensures Solvent(Gone(v, moves).m)
    decreases |moves|
  {
    if moves == [] {
    } else {
      hide Solvent, CanMove;
      MovedSound(v, moves[0]);
      GoneSolvent(Moved(v, moves[0]), moves[1..]);
    }
  }

  // ---------- a kick that is lost ----------

  lemma {:induction false} OneMoveMore(v: Watch, moves: seq<Move>, move: Move)
    requires CanGo(v, moves) && CanMove(Gone(v, moves), move)
    ensures CanGo(v, moves + [move]) && Gone(v, moves + [move]) == Moved(Gone(v, moves), move)
    decreases |moves|
  {
    hide Moved, CanMove;
    if moves == [] {
      assert moves + [move] == [move] && [move][1..] == [];
      assert CanGo(Moved(v, move), []);
    } else {
      assert (moves + [move])[1..] == moves[1..] + [move];
      OneMoveMore(Moved(v, moves[0]), moves[1..], move);
    }
  }

  /** Some interleaving leads to this state. */
  ghost predicate Comes(topic: TopicNames.TopicName, name: string, v: Watch) {
    exists moves :: CanGo(Asleep(topic, name), moves) && Gone(Asleep(topic, name), moves) == v
  }

  lemma ComesMove(topic: TopicNames.TopicName, name: string, v: Watch, move: Move) returns (d: Watch)
    requires Comes(topic, name, v) && CanMove(v, move)
    ensures d == Moved(v, move) && Comes(topic, name, d)
  {
    hide Moved, CanMove;
    var moves :| CanGo(Asleep(topic, name), moves) && Gone(Asleep(topic, name), moves) == v;
    OneMoveMore(Asleep(topic, name), moves, move);
    d := Moved(v, move);
    assert Gone(Asleep(topic, name), moves + [move]) == d;
  }

  /** A subscription positioned at the start of an empty topic. */
  function NoMessage(topic: TopicNames.TopicName, name: string, stamp: int): Db {
    Db(2, map[topic := 1], 1, map[], map[Sub(1, name) := SubRow(Shared, stamp)], map[Sub(1, name) := 1], map[])
  }

  lemma NoMessageStored(topic: TopicNames.TopicName, name: string)
    ensures Apply(EMPTY, Subscribe(topic, name, false, None, None, 7)) == NoMessage(topic, name, 7)
  {
  }

  lemma NoMessageClaimed(topic: TopicNames.TopicName, name: string, uid: int)
    ensures var db := NoMessage(topic, name, 7);
            var op := Claim(topic, name, uid, 1, 8);
      Claims.Claimed(db, op, SubOf(db, topic, name)) == [] && Apply(db, op) == NoMessage(topic, name, 8)
  {
    var db, s := NoMessage(topic, name, 7), Sub(1, name);
    var d := TouchSub(db, s, 8);
    SameSet(Available(d, s), {});
    assert d == NoMessage(topic, name, 8) by {
      assert map[s := SubRow(Shared, 7)][s := SubRow(Shared, 8)] == map[s := SubRow(Shared, 8)];
    }
    assert WithRows(map[], s, [], Holder(uid, 8)) == map[];
  }

  lemma ThenInserted(topic: TopicNames.TopicName, name: string, content: Content)
    ensures var db := Apply(NoMessage(topic, name, 8), Insert(topic, 5, content));
      SubOf(db, topic, name) in db.cursors && Available(db, SubOf(db, topic, name)) != {}
  {
    var db := Apply(NoMessage(topic, name, 8), Insert(topic, 5, content));
    assert 1 in Available(db, Sub(1, name));
  }

  lemma SubscribedComes(topic: TopicNames.TopicName, name: string) returns (v: Watch)
    ensures Comes(topic, name, v) && v.m == Init(topic, name).(world := v.m.world) && v.due == 0 && v.eligible == {}
    ensures v.m.world.db == NoMessage(topic, name, 7)
  {
    v := Asleep(topic, name);
    assert CanGo(v, []) && Gone(v, []) == v;
    NoMessageStored(topic, name);
    v := ComesMove(topic, name, v, Move(Elsewhere(Subscribe(topic, name, false, None, None, 7)), {}));
  }

  lemma ReturningComes(topic: TopicNames.TopicName, name: string) returns (v: Watch)
    ensures Comes(topic, name, v) && v.m.topic == topic && v.m.name == name && v.m.world.db == NoMessage(topic, name, 8)
    ensures v.due == 0 && v.m.leaving == {} && v.m.loops == [Returned] && v.m.delivering
    ensures v.eligible == {1} && 1 in v.m.attached && 1 in v.m.accounts && v.m.accounts[1].permits == 1
  {
    v := SubscribedComes(topic, name);
    v := ChosenComes(topic, name, v);
    NoMessageClaimed(topic, name, 1);
    hide Comes, Apply, Claims.Claimed, NoMessage;
    v := ComesMove(topic, name, v, Move(Fetch(0, 8), {1}));
  }

  lemma ChosenComes(topic: TopicNames.TopicName, name: string, v0: Watch) returns (v: Watch)
    requires Comes(topic, name, v0) && v0.m.accounts == map[] && v0.m.attached == {} && v0.m.leaving == {}
    requires v0.due == 0 && v0.eligible == {} && v0.m.loops == [] && !v0.m.delivering
    ensures Comes(topic, name, v) && v.m.world == v0.m.world && v.m.topic == v0.m.topic && v.m.name == v0.m.name
    ensures v.due == 0 && v.m.leaving == {} && v.m.loops == [AtClaim(1, 1)] && v.m.delivering
    ensures v.eligible == {1} && 1 in v.m.attached && 1 in v.m.accounts && v.m.accounts[1].permits == 1
  {
    hide Comes;
    v := ComesMove(topic, name, v0, Move(Attach(1), {1}));
    v := ComesMove(topic, name, v, Move(Flow(1, 1), {1}));
    assert 1 in v.eligible && 1 in v.m.attached && HasPermits(v.m, 1);
    v := ComesMove(topic, name, v, Move(Kick(true), {1}));
    v := ComesMove(topic, name, v, Move(Choose(0, Some(1)), {1}));
    v := ComesMove(topic, name, v, Move(ReadPermits(0), {1}));
  }

  /** A message stored between a loop's last, empty claim and its end: its kick has no effect, and it stays behind. */
  lemma KickCanBeLost(topic: TopicNames.TopicName, name: string, content: Content)
    ensures exists v :: Comes(topic, name, v) && !v.m.delivering && !KickDue(v) && Deliverable(v)
  {
    var v := ReturningComes(topic, name);
    ThenInserted(topic, name, content);
    v := ComesMove(topic, name, v, Move(Elsewhere(Insert(topic, 5, content)), {1}));
    assert Unclaimed(v.m) && HasPermits(v.m, 1);
    v := ComesMove(topic, name, v, Move(Kick(false), {1}));
    v := ComesMove(topic, name, v, Move(Clear(0), {1}));
    assert 1 in v.eligible && HasPermits(v.m, 1) && Unclaimed(v.m);
  }

  // ---------- a subscription created again ----------

  function TopicSpace(topic: TopicNames.TopicName): Namespace {
    Namespace(topic.tenant, topic.namespace)
  }

  /** The topic has a row, and no subscription. */
  function NoSubscription(topic: TopicNames.TopicName, nextId: int, messages: map<int, Message>): Db {
    Db(2, map[topic := 1], nextId, messages, map[], map[], map[])
  }

  lemma StaleDropped(topic: TopicNames.TopicName, name: string)
    ensures Apply(NoMessage(topic, name, 8), DropStale(TopicSpace(topic), 9)) == NoSubscription(topic, 1, map[])
  {
    var db, s := NoMessage(topic, name, 8), Sub(1, name);
    assert topic in db.topics && db.topics[topic] == 1;
    assert InNamespace(db, 1, TopicSpace(topic));
    SameSet(StaleSubs(db, TopicSpace(topic), 9), {s});
    assert map[s := SubRow(Shared, 8)] - {s} == map[] && map[s := 1] - {s} == map[];
  }

  lemma InsertedAlone(topic: TopicNames.TopicName, name: string, content: Content)
    ensures Apply(NoSubscription(topic, 1, map[]), Insert(topic, 5, content))
         == NoSubscription(topic, 2, map[1 := Message(1, 5, content)])
  {
  }

  /** Nobody can claim from it, and creating a subscription at the start finds the message. */
  lemma CreatedOverMessage(topic: TopicNames.TopicName, name: string, content: Content, uid: int)
    ensures var db := NoSubscription(topic, 2, map[1 := Message(1, 5, content)]);
      && SubOf(db, topic, name) !in db.subs
      && Claims.Claimed(db, Claim(topic, name, uid, 1, 9), SubOf(db, topic, name)) == []
      && Apply(db, Claim(topic, name, uid, 1, 9)) == db
      && CreatedBacklog(db, Subscribe(topic, name, false, None, None, 10)) != {}
  {
    var db := NoSubscription(topic, 2, map[1 := Message(1, 5, content)]);
    assert 1 in CreatedBacklog(db, Subscribe(topic, name, false, None, None, 10));
  }

  /** Idle, with a ready consumer, and the subscription dropped under it. */
  lemma DroppedComes(topic: TopicNames.TopicName, name: string) returns (v: Watch)
    ensures Comes(topic, name, v) && v.m.topic == topic && v.m.name == name
    ensures v.m.world.db == NoSubscription(topic, 1, map[])
    ensures v.due == 0 && v.m.leaving == {} && v.m.loops == [] && !v.m.delivering
    ensures v.eligible == {1} && 1 in v.m.attached && 1 in v.m.accounts && v.m.accounts[1].permits == 1
  {
    v := ReturningComes(topic, name);
    StaleDropped(topic, name);
    hide Comes, Apply;
    v := ComesMove(topic, name, v, Move(Clear(0), {1}));
    v := ComesMove(topic, name, v, Move(Elsewhere(DropStale(TopicSpace(topic), 9)), {1}));
  }

  lemma KickedComes(topic: TopicNames.TopicName, name: string, content: Content) returns (v: Watch)
    ensures Comes(topic, name, v) && v.m.topic == topic && v.m.name == name
    ensures v.m.world.db == NoSubscription(topic, 2, map[1 := Message(1, 5, content)])
    ensures v.due == 0 && v.m.leaving == {} && v.m.loops == [AtSelect] && v.m.delivering
    ensures v.eligible == {1} && 1 in v.m.attached && 1 in v.m.accounts && v.m.accounts[1].permits == 1
  {
    v := DroppedComes(topic, name);
    InsertedAlone(topic, name, content);
    hide Comes, Apply, NoSubscription;
    v := ComesMove(topic, name, v, Move(Elsewhere(Insert(topic, 5, content)), {1}));
    assert 1 in v.eligible && 1 in v.m.attached && HasPermits(v.m, 1);
    v := ComesMove(topic, name, v, Move(Kick(true), {1}));
  }

  /** A message came and was kicked for, but the loop found no subscription to claim for. */
  lemma MissedComes(topic: TopicNames.TopicName, name: string, content: Content) returns (v: Watch)
    ensures Comes(topic, name, v) && v.m.topic == topic && v.m.name == name
    ensures v.m.world.db == NoSubscription(topic, 2, map[1 := Message(1, 5, content)])
    ensures v.due == 0 && v.m.leaving == {} && v.m.loops == [] && !v.m.delivering
    ensures v.eligible == {1} && HasPermits(v.m, 1)
  {
    v := KickedComes(topic, name, content);
    CreatedOverMessage(topic, name, content, 1);
    hide Comes, Apply, Claims.Claimed, NoSubscription;
    v := ComesMove(topic, name, v, Move(Choose(0, Some(1)), {1}));
    v := ComesMove(topic, name, v, Move(ReadPermits(0), {1}));
    v := ComesMove(topic, name, v, Move(Fetch(0, 9), {1}));
    v := ComesMove(topic, name, v, Move(Clear(0), {1}));
  }

  /** A subscription dropped and created again under an attached consumer: nothing wakes delivery of what is stored. */
  lemma RecreationCanStall(topic: TopicNames.TopicName, name: string, content: Content)
    ensures exists v, move ::
      Comes(topic, name, v) && CanMove(v, move) && Awake(v) && Recreates(v, move) && !Awake(Moved(v, move))
  {
    var v := MissedComes(topic, name, content);
    CreatedOverMessage(topic, name, content, 1);
    var move := Move(Elsewhere(Subscribe(topic, name, false, None, None, 10)), {1});
    assert 1 in v.eligible && HasPermits(v.m, 1);
    assert CanMove(v, move) && Recreates(v, move);
    ComesPossible(topic, name, v);
    assert Awake(v);
    ElsewhereAwake(v, move);
  }

  lemma {:induction false} GonePossible(v: Watch, moves: seq<Move>)
    requires Solvent(v.m) && NoLoss.Possible(v.m.world) && CanGo(v, moves)
    ensures NoLoss.Possible(Gone(v, moves).m.world)
    decreases |moves|
  {
    if moves == [] {
    } else {
      hide Solvent, CanMove;
      MovedSound(v, moves[0]);
      GonePossible(Moved(v, moves[0]), moves[1..]);
    }
  }

  lemma ComesPossible(topic: TopicNames.TopicName, name: string, v: Watch)
    requires Comes(topic, name, v)
    ensures NoLoss.Reachable(v.m.world.db)
  {
    var moves :| CanGo(Asleep(topic, name), moves) && Gone(Asleep(topic, name), moves) == v;
    NoLoss.StartPossible();
    GonePossible(Asleep(topic, name), moves);
    NoLoss.PossibleReachable(v.m.world);
  }

  // ---------- a batch that is abandoned ----------

  /** One message held by the consumer that claimed it. */
  function OneHeld(topic: TopicNames.TopicName, name: string, content: Content, uid: int): Db {
    OneMessage(topic, name, content).(
      subs := map[Sub(1, name) := SubRow(Shared, 8)], cursors := map[Sub(1, name) := 2],
      pending := map[Slot(Sub(1, name), 1) := Holder(uid, 8)])
  }

  lemma SoleSorted(x: int)
    ensures Sorted({x}) == [x]
  {
    var q := Sorted({x});
    assert q[0] in q;
  }

  lemma OneSelected(topic: TopicNames.TopicName, name: string, content: Content)
    ensures Selected(TouchSub(OneMessage(topic, name, content), Sub(1, name), 8), Sub(1, name), 1) == [1]
  {
    var d := TouchSub(OneMessage(topic, name, content), Sub(1, name), 8);
    SameSet(Available(d, Sub(1, name)), {1});
    SoleSorted(1);
  }

  lemma OneClaimed(topic: TopicNames.TopicName, name: string, content: Content, uid: int)
    ensures var db := OneMessage(topic, name, content);
            var op := Claim(topic, name, uid, 1, 8);
      Claims.Claimed(db, op, SubOf(db, topic, name)) == [1] && Apply(db, op) == OneHeld(topic, name, content, uid)
  {
    hide Selected;
    var s := Sub(1, name);
    OneSelected(topic, name, content);
    assert map[s := SubRow(Shared, 7)][s := SubRow(Shared, 8)] == map[s := SubRow(Shared, 8)];
    assert map[s := 1][s := 2] == map[s := 2];
    assert WithRows(map[], s, [1], Holder(uid, 8)) == map[Slot(s, 1) := Holder(uid, 8)];
  }

  lemma FirstInserted(topic: TopicNames.TopicName, name: string, content: Content)
    ensures Apply(NoMessage(topic, name, 7), Insert(topic, 5, content)) == OneMessage(topic, name, content)
  {
  }

  lemma SecondInserted(topic: TopicNames.TopicName, name: string, content: Content, uid: int)
    ensures var db := Apply(OneHeld(topic, name, content, uid), Insert(topic, 6, content));
      SubOf(db, topic, name) in db.cursors && Available(db, SubOf(db, topic, name)) != {}
  {
    var db := Apply(OneHeld(topic, name, content, uid), Insert(topic, 6, content));
    assert 2 in Available(db, Sub(1, name));
  }

  lemma SendingComes(topic: TopicNames.TopicName, name: string, content: Content) returns (v: Watch)
    ensures Comes(topic, name, v) && v.m.topic == topic && v.m.name == name
    ensures v.m.world.db == OneHeld(topic, name, content, 1)
    ensures v.due == 0 && v.m.leaving == {} && v.m.loops == [Sending(1, [1])] && v.m.delivering
    ensures v.eligible == {1} && 1 in v.m.accounts && v.m.accounts[1].permits == 1
  {
    v := SubscribedComes(topic, name);
    FirstInserted(topic, name, content);
    OneClaimed(topic, name, content, 1);
    hide Comes, Apply, Claims.Claimed, NoMessage, OneMessage, OneHeld;
    v := ComesMove(topic, name, v, Move(Elsewhere(Insert(topic, 5, content)), {}));
    v := ComesMove(topic, name, v, Move(Kick(false), {}));
    v := ChosenComes(topic, name, v);
    v := ComesMove(topic, name, v, Move(Fetch(0, 8), {1}));
  }

  /** A write fails after another message was stored and kicked for: the loop ends, and nobody starts the next. */
  lemma FailedWriteCanStall(topic: TopicNames.TopicName, name: string, content: Content)
    ensures exists v, move ::
      Comes(topic, name, v) && CanMove(v, move) && Awake(v) && Abandons(v, move) && !Awake(Moved(v, move))
  {
    var v := SendingComes(topic, name, content);
    SecondInserted(topic, name, content, 1);
    hide Comes, Apply;
    v := ComesMove(topic, name, v, Move(Elsewhere(Insert(topic, 6, content)), {1}));
    v := ComesMove(topic, name, v, Move(Kick(false), {1}));
    var move := Move(Write(0, false), {1});
    assert 1 in v.eligible && HasPermits(v.m, 1) && Unclaimed(v.m);
    assert CanMove(v, move) && Abandons(v, move) && Awake(v);
    var d := Moved(v, move);
    assert d.m.world == v.m.world && d.m.accounts == v.m.accounts;
    SameReady(v, d);
  }
}
