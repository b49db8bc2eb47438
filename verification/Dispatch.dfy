/**
 The dispatcher of one subscription as concurrent actors (internal/broker/delivery.go,
 cleanup.go, handlers.go): delivery loops, FLOW and subscribe handlers, removals and every other
 user of the store, interleaved at each point where a lock is released. The selection rule is
 left open: a loop may choose any attached consumer with permits, or none.
 */
module Dispatch {
  import opened Basics
  import opened TopicNames
  import opened Tables
  import opened Ledger
  import NoLoss
  import Claims

  /** What one consumer was granted by FLOW, was sent, and may still be sent. */
  datatype Account = Account(granted: int, sent: int, permits: int)

  /** Where a delivery loop stands between two critical sections. */
  datatype Loop =
    | AtSelect
    | AtRead(uid: int)
    | AtClaim(uid: int, limit: int)
    | Sending(uid: int, batch: seq<int>)
    | AtCharge(uid: int, batch: seq<int>)
    | Returned

  datatype Machine = Machine(
    topic: TopicName,
    name: string,
    world: World,
    accounts: map<int, Account>,
    attached: set<int>,
    leaving: set<int>,
    loops: seq<Loop>,
    delivering: bool)

  datatype Step =
    | Attach(uid: int)
    | Flow(uid: int, add: int)
    | Detach(uid: int)
    | DropRows(uid: int)
    | Kick(start: bool)
    | Choose(i: nat, found: Option<int>)
    | ReadPermits(i: nat)
    | Fetch(i: nat, now: int)
    | Write(i: nat, ok: bool)
    | Charge(i: nat)
    | Clear(i: nat)
    | Elsewhere(op: Op)
    | Crash

  const BATCH: int := 200

  function Init(topic: TopicName, name: string): Machine {
    Machine(topic, name, START, map[], {}, {}, [], false)
  }

  function Key(m: Machine): Sub {
    SubOf(m.world.db, m.topic, m.name)
  }

  predicate HasPermits(m: Machine, uid: int) {
    uid in m.accounts && m.accounts[uid].permits > 0
  }

  /** Claims for this subscription are made by its own loops only. */
  predicate OwnClaim(m: Machine, op: Op) {
    op.Claim? && op.topic == m.topic && op.name == m.name
  }

  /** What each step needs of the state it starts from. */
  predicate Enabled(m: Machine, step: Step) {
    match step
    case Attach(uid) => uid !in m.accounts
    case Flow(uid, add) => uid in m.accounts && add > 0
    case Detach(uid) => uid in m.attached
    case DropRows(uid) => uid in m.leaving
    case Kick(start) => start ==> !m.delivering && exists uid | uid in m.attached :: HasPermits(m, uid)
    case Choose(i, found) =>
      i < |m.loops| && m.loops[i].AtSelect? && (found.Some? ==> found.value in m.attached && HasPermits(m, found.value))
    case ReadPermits(i) => i < |m.loops| && m.loops[i].AtRead? && m.loops[i].uid in m.accounts
    case Fetch(i, _) => i < |m.loops| && m.loops[i].AtClaim?
    case Write(i, _) =>
      i < |m.loops| && m.loops[i].Sending? && m.loops[i].batch != [] && m.loops[i].uid in m.accounts
    case Charge(i) => i < |m.loops| && m.loops[i].AtCharge? && m.loops[i].uid in m.accounts
    case Clear(i) => i < |m.loops| && m.loops[i].Returned?
    case Elsewhere(op) => !OwnClaim(m, op)
    case Crash => true
  }

  function Move(m: Machine, i: nat, loop: Loop): Machine
    requires i < |m.loops|
  {
    m.(loops := m.loops[i := loop])
  }

  function ClaimOp(m: Machine, uid: int, limit: int, now: int): Op {
    Claim(m.topic, m.name, uid, limit, now)
  }

  /** The ids a claim of a loop hands out. */
  function Batch(m: Machine, loop: Loop, now: int): seq<int>
    requires loop.AtClaim?
  {
    Claims.Claimed(m.world.db, ClaimOp(m, loop.uid, loop.limit, now), Key(m))
  }

  function Take(m: Machine, step: Step): Machine
    requires Enabled(m, step)
  {
    match step
    case Attach(uid) => m.(accounts := m.accounts[uid := Account(0, 0, 0)], attached := m.attached + {uid})
    case Flow(uid, add) =>
      var a := m.accounts[uid];
      m.(accounts := m.accounts[uid := a.(granted := a.granted + add, permits := a.permits + add)])
    case Detach(uid) => m.(attached := m.attached - {uid}, leaving := m.leaving + {uid})
    case DropRows(uid) => m.(world := Next(m.world, Drop(m.topic, m.name, uid)), leaving := m.leaving - {uid})
    case Kick(start) => if start then m.(delivering := true, loops := m.loops + [AtSelect]) else m
    case Choose(i, found) => Move(m, i, if found.Some? then AtRead(found.value) else Returned)
    case ReadPermits(i) =>
      var uid := m.loops[i].uid;
      var permits := m.accounts[uid].permits;
      Move(m, i, if permits <= 0 then AtSelect else AtClaim(uid, if permits > BATCH then BATCH else permits))
    case Fetch(i, now) =>
      var loop := m.loops[i];
      var ids := Batch(m, loop, now);
      Move(m.(world := Next(m.world, ClaimOp(m, loop.uid, loop.limit, now))), i,
           if ids == [] then Returned else Sending(loop.uid, ids))
    case Write(i, ok) =>
      var loop := m.loops[i];
      if !ok then Move(m, i, Returned)
      else
        var a := m.accounts[loop.uid];
        Move(m.(accounts := m.accounts[loop.uid := a.(sent := a.sent + 1)]), i, AtCharge(loop.uid, loop.batch[1..]))
    case Charge(i) =>
      var loop := m.loops[i];
      var a := m.accounts[loop.uid];
      Move(m.(accounts := m.accounts[loop.uid := a.(permits := if a.permits > 0 then a.permits - 1 else a.permits)]),
           i, if loop.batch == [] then AtSelect else Sending(loop.uid, loop.batch))
    case Clear(i) => m.(loops := m.loops[..i] + m.loops[i + 1..], delivering := false)
    case Elsewhere(op) => m.(world := Next(m.world, op))
    case Crash =>
      m.(world := Next(m.world, Restart), accounts := map[], attached := {}, leaving := {},
         loops := [], delivering := false)
  }

  ghost predicate Legal(m: Machine, steps: seq<Step>)
    decreases |steps|
  {
    steps != [] ==> Enabled(m, steps[0]) && Legal(Take(m, steps[0]), steps[1..])
  }

  ghost function Execute(m: Machine, steps: seq<Step>): Machine
    requires Legal(m, steps)
    decreases |steps|
  {
    if steps == [] then m else Execute(Take(m, steps[0]), steps[1..])
  }

  // ---------- permits ----------

  /** One loop runs exactly while the flag is up. */
  predicate OneLoop(m: Machine) {
    |m.loops| == if m.delivering then 1 else 0
  }

  /** How many permits a loop's unfinished batch will still use. */
  function Promised(loop: Loop): int {
    match loop
    case AtRead(_) => 1
    case AtClaim(_, limit) => limit
    case Sending(_, batch) => |batch|
    case AtCharge(_, batch) => |batch| + 1
    case _ => 0
  }

  /** A message written but not yet charged. */
  function InFlight(m: Machine, uid: int): int {
    if |m.loops| > 0 && m.loops[0].AtCharge? && m.loops[0].uid == uid then 1 else 0
  }

  predicate Balanced(m: Machine, uid: int)
    requires uid in m.accounts
  {
    var a := m.accounts[uid];
    a.sent + a.permits == a.granted + InFlight(m, uid) && 0 <= a.permits && 0 <= a.sent
  }

  /** The consumer a loop serves has permits for all it still means to send. */
  predicate Covered(m: Machine, loop: Loop) {
    match loop
    case AtSelect | Returned => true
    case _ =>
      loop.uid in m.accounts && Promised(loop) <= m.accounts[loop.uid].permits && 0 <= Promised(loop) <= BATCH &&
      (loop.AtClaim? ==> loop.limit >= 1)
  }

  ghost predicate Solvent(m: Machine) {
    OneLoop(m) && m.attached <= m.accounts.Keys
    && (forall uid | uid in m.accounts :: Balanced(m, uid))
    && (forall loop | loop in m.loops :: Covered(m, loop))
  }

  lemma ClaimedWithinLimit(db: Db, op: Op, s: Sub)
    requires op.Claim? && op.limit >= 0
    ensures |Claims.Claimed(db, op, s)| <= op.limit
  {
  }

  lemma OnlyLoop(m: Machine, i: nat)
    requires Solvent(m) && i < |m.loops|
    ensures i == 0 && m.delivering && m.loops == [m.loops[0]] && Covered(m, m.loops[0])
  {
    assert m.loops[0] in m.loops;
  }

  /** A new position of the one loop, with its consumer's account changed to match. */
  lemma MovedSolvent(m: Machine, d: Machine, loop: Loop)
    requires Solvent(m) && |m.loops| == 1
    requires d.loops == [loop] && d.delivering && d.attached == m.attached && d.accounts.Keys == m.accounts.Keys
    requires Covered(d, loop)
    requires forall uid | uid in d.accounts :: Balanced(d, uid)
    ensures Solvent(d)
  {
  }

  lemma FetchSolvent(m: Machine, i: nat, now: int)
    requires Solvent(m) && Enabled(m, Fetch(i, now))
    ensures Solvent(Take(m, Fetch(i, now)))
  {
    hide Claims.Claimed, Next;
    OnlyLoop(m, i);
    var loop := m.loops[0];
    ClaimedWithinLimit(m.world.db, ClaimOp(m, loop.uid, loop.limit, now), Key(m));
    var d := Take(m, Fetch(i, now));
    forall uid | uid in d.accounts ensures Balanced(d, uid) { assert Balanced(m, uid); }
    MovedSolvent(m, d, d.loops[0]);
  }

  lemma LoopSolvent(m: Machine, step: Step)
    requires Solvent(m) && Enabled(m, step)
    requires step.Choose? || step.ReadPermits? || step.Write? || step.Charge?
    ensures Solvent(Take(m, step))
  {
    OnlyLoop(m, step.i);
    var d := Take(m, step);
    forall uid | uid in d.accounts ensures Balanced(d, uid) { assert Balanced(m, uid); }
    MovedSolvent(m, d, d.loops[0]);
  }

  lemma ElsewhereSolvent(m: Machine, step: Step)
    requires Solvent(m) && Enabled(m, step)
    requires step.Detach? || step.DropRows? || step.Kick? || step.Clear? || step.Elsewhere? || step.Crash?
    ensures Solvent(Take(m, step))
  {
    hide Next;
    if step.Clear? { OnlyLoop(m, step.i); }
    var d := Take(m, step);
    forall uid | uid in d.accounts ensures Balanced(d, uid) { assert Balanced(m, uid); }
    forall loop | loop in d.loops ensures Covered(d, loop) {
      assert loop in m.loops ==> Covered(m, loop);
    }
  }

  lemma GrantSolvent(m: Machine, step: Step)
    requires Solvent(m) && Enabled(m, step) && (step.Attach? || step.Flow?)
    ensures Solvent(Take(m, step))
  {
    var d := Take(m, step);
    forall loop | loop in d.loops ensures Covered(d, loop) { assert Covered(m, loop); }
    forall uid | uid in d.accounts ensures Balanced(d, uid) {
      if uid in m.accounts {
        assert Balanced(m, uid);
      } else if |m.loops| > 0 {
        assert Covered(m, m.loops[0]);
      }
    }
  }

  /** The permit account of every consumer stays balanced, whatever step comes next. */
  lemma StepSolvent(m: Machine, step: Step)
    requires Solvent(m) && Enabled(m, step)
    ensures Solvent(Take(m, step))
  {
    hide Solvent, Take, Enabled;
    match step
    case Attach(_) | Flow(_, _) => GrantSolvent(m, step);
    case Fetch(i, now) => FetchSolvent(m, i, now);
    case Choose(_, _) | ReadPermits(_) | Write(_, _) | Charge(_) => LoopSolvent(m, step);
    case _ => ElsewhereSolvent(m, step);
  }

  lemma {:induction false} RunSolvent(m: Machine, steps: seq<Step>)
    requires Solvent(m) && Legal(m, steps)
    ensures Solvent(Execute(m, steps))
    decreases |steps|
  {
    if steps == [] {
    } else {
      StepSolvent(m, steps[0]);
      RunSolvent(Take(m, steps[0]), steps[1..]);
    }
  }

  /**
   Under any interleaving no consumer is sent more than it was granted: what it was sent and may
   still be sent add up to the grants, one message in flight aside. At most one loop runs, exactly
   while the flag is up, and what is left of its batch fits in its consumer's permits.
   */
  lemma NeverOversent(topic: TopicName, name: string, steps: seq<Step>)
    requires Legal(Init(topic, name), steps)
    ensures var m := Execute(Init(topic, name), steps);
      && |m.loops| <= 1 && (m.delivering <==> |m.loops| == 1)
      && (forall uid | uid in m.accounts ::
            var a := m.accounts[uid];
            a.sent <= a.granted && a.permits >= 0 && a.sent + a.permits == a.granted + InFlight(m, uid))
      && (forall loop | loop in m.loops && (loop.Sending? || loop.AtCharge?) ::
            loop.uid in m.accounts && |loop.batch| <= m.accounts[loop.uid].permits)
  {
    RunSolvent(Init(topic, name), steps);
    var m := Execute(Init(topic, name), steps);
    forall uid | uid in m.accounts
    ensures var a := m.accounts[uid];
      a.sent <= a.granted && a.permits >= 0 && a.sent + a.permits == a.granted + InFlight(m, uid)
    {
      assert Balanced(m, uid);
      if InFlight(m, uid) == 1 {
        assert m.loops[0] in m.loops;
        assert Covered(m, m.loops[0]);
      }
    }
  }

  /** The retry after reading no permits is never taken: only the loop itself uses permits up. */
  lemma PermitsStillThere(m: Machine, i: nat)
    requires Solvent(m) && Enabled(m, ReadPermits(i))
    ensures var loop := Take(m, ReadPermits(i)).loops[i];
      loop.AtClaim? && loop.uid == m.loops[i].uid && loop.limit == Min(m.accounts[loop.uid].permits, 200) >= 1
  {
    OnlyLoop(m, i);
  }

  // ---------- owners of pending rows ----------

  /** Every row of the subscription belongs to a consumer that is attached, or whose removal is under way. */
  ghost predicate Owned(m: Machine) {
    forall id | Slot(Key(m), id) in m.world.db.pending ::
      m.world.db.pending[Slot(Key(m), id)].consumer in m.attached + m.leaving
  }

  /** Every row of one subscription is, owner included, a row of another. */
  ghost predicate RowsFrom(db: Db, s: Sub, d: Db, t: Sub) {
    forall id | Slot(t, id) in d.pending ::
      Slot(s, id) in db.pending && d.pending[Slot(t, id)].consumer == db.pending[Slot(s, id)].consumer
  }

  lemma SubsOfDistinctTopics(db: Db, n: TopicName, m: TopicName)
    requires NoLoss.Reachable(db) && n != m && (n in db.topics || m in db.topics)
    ensures TopicId(db, n) != TopicId(db, m)
  {
    NoLoss.ReachableConsistent(db);
  }

  lemma EnsureTopicRows(db: Db, m: TopicName, n: TopicName, name: string)
    requires NoLoss.Reachable(db)
    ensures RowsFrom(db, SubOf(db, n, name), db, SubOf(EnsureTopic(db, m), n, name))
  {
    NoLoss.NewTopicIsUnused(db);
  }

  lemma OtherClaimRows(db: Db, op: Op, n: TopicName, name: string)
    requires NoLoss.Reachable(db) && op.Claim? && !(op.topic == n && op.name == name)
    ensures RowsFrom(db, SubOf(db, n, name), Apply(db, op), SubOf(Apply(db, op), n, name))
  {
    var r := SubOf(db, op.topic, op.name);
    if r in db.subs {
      NoLoss.NoTopicZero(db, op.name);
      if op.topic != n { SubsOfDistinctTopics(db, op.topic, n); }
      assert r != SubOf(db, n, name);
    }
  }

  lemma DropEmptyRows(db: Db, ns: Namespace, exclude: set<TopicName>, n: TopicName, name: string)
    requires NoLoss.Reachable(db)
    ensures RowsFrom(db, SubOf(db, n, name), db, SubOf(PruneEmpty(db, ns, exclude), n, name))
  {
    NoLoss.NoTopicZero(db, name);
  }

  lemma SubscribeRows(db: Db, op: Op, n: TopicName, name: string)
    requires NoLoss.Reachable(db) && op.Subscribe?
    ensures RowsFrom(db, SubOf(db, n, name), Apply(db, op), SubOf(Apply(db, op), n, name))
  {
    hide NoLoss.Reachable;
    NoLoss.SubscribeCases(db, Book(map[], map[], map[]), op);
    EnsureTopicRows(db, op.topic, n, name);
  }

  lemma RequeueRows(db: Db, op: Op, n: TopicName, name: string)
    requires NoLoss.Reachable(db) && (op.Drop? || op.Redeliver? || op.Expire? || op.AckIds? || op.AckUpTo?)
    ensures RowsFrom(db, SubOf(db, n, name), Apply(db, op), SubOf(Apply(db, op), n, name))
  {
    if op.Drop? { NoLoss.ReachableDrop(db, SubOf(db, op.topic, op.name), op.consumer); }
  }

  /** Nothing but a claim for a subscription gives it pending rows or changes their owners. */
  lemma OthersAddNoRow(db: Db, op: Op, n: TopicName, name: string)
    requires NoLoss.Reachable(db) && !(op.Claim? && op.topic == n && op.name == name)
    ensures RowsFrom(db, SubOf(db, n, name), Apply(db, op), SubOf(Apply(db, op), n, name))
  {
    match op
    case Insert(m, _, _) => EnsureTopicRows(db, m, n, name);
    case Subscribe(_, _, _, _, _, _) => SubscribeRows(db, op, n, name);
    case Claim(_, _, _, _, _) => OtherClaimRows(db, op, n, name);
    case Drop(_, _, _) | Redeliver(_, _, _, _) | Expire(_) | AckIds(_, _, _, _) | AckUpTo(_, _, _, _) =>
      RequeueRows(db, op, n, name);
    case DropEmptyTopics(ns, exclude) => DropEmptyRows(db, ns, exclude, n, name);
    case RepairRows(ns) => NoLoss.ReachableRepair(db, ns);
    case _ =>
  }

  /** The rows of the subscription after a claim by one of its loops. */
  lemma OwnClaimRows(db: Db, op: Op)
    requires op.Claim?
    ensures var s := SubOf(db, op.topic, op.name);
            var d := Apply(db, op);
            var ids := Claims.Claimed(db, op, s);
      && SubOf(d, op.topic, op.name) == s
      && forall id :: Slot(s, id) in d.pending <==> Slot(s, id) in db.pending || id in ids
  {
    hide Selected;
  }

  lemma OwnClaimOwners(db: Db, op: Op, id: int)
    requires NoLoss.Reachable(db) && op.Claim? && Slot(SubOf(db, op.topic, op.name), id) in Apply(db, op).pending
    ensures var s := SubOf(db, op.topic, op.name);
            var owner := Apply(db, op).pending[Slot(s, id)].consumer;
      if Slot(s, id) in db.pending then owner == db.pending[Slot(s, id)].consumer
      else id in Claims.Claimed(db, op, s) && owner == op.consumer
  {
    hide Selected;
  }

  /**
   The two steps that leave a row without a live owner: a loop claims something for a consumer
   whose removal has already been completed, and a restart while rows are held.
   */
  ghost predicate Strands(m: Machine, step: Step)
    requires Enabled(m, step)
  {
    match step
    case Fetch(i, now) => m.loops[i].uid !in m.attached + m.leaving && Batch(m, m.loops[i], now) != []
    case Crash => exists id :: Slot(Key(m), id) in m.world.db.pending
    case _ => false
  }

  lemma FetchOwned(m: Machine, i: nat, now: int)
    requires NoLoss.Reachable(m.world.db) && Enabled(m, Fetch(i, now)) && Owned(m)
    ensures Owned(Take(m, Fetch(i, now))) <==> !Strands(m, Fetch(i, now))
  {
    var loop, d := m.loops[i], Take(m, Fetch(i, now));
    var op := ClaimOp(m, loop.uid, loop.limit, now);
    var ids := Batch(m, loop, now);
    OwnClaimRows(m.world.db, op);
    forall id | Slot(Key(d), id) in d.world.db.pending && !(Slot(Key(m), id) in m.world.db.pending)
      ensures id in ids && d.world.db.pending[Slot(Key(d), id)].consumer == loop.uid
    {
      OwnClaimOwners(m.world.db, op, id);
    }
    forall id | Slot(Key(m), id) in m.world.db.pending
      ensures d.world.db.pending[Slot(Key(d), id)].consumer == m.world.db.pending[Slot(Key(m), id)].consumer
    {
      OwnClaimOwners(m.world.db, op, id);
    }
    if ids != [] {
      var id := ids[0];
      assert id in ids;
      NoLoss.CursorsMatchSubs(m.world.db);
      Claims.ClaimPasses(m.world.db, op, Key(m), id);
    }
  }

  lemma DropOwned(m: Machine, uid: int)
    requires NoLoss.Reachable(m.world.db) && Enabled(m, DropRows(uid)) && Owned(m)
    ensures Owned(Take(m, DropRows(uid)))
  {
    NoLoss.ReachableDrop(m.world.db, Key(m), uid);
  }

  lemma ElsewhereOwned(m: Machine, op: Op)
    requires NoLoss.Reachable(m.world.db) && Enabled(m, Elsewhere(op)) && Owned(m)
    ensures Owned(Take(m, Elsewhere(op)))
  {
    OthersAddNoRow(m.world.db, op, m.topic, m.name);
    var d := Take(m, Elsewhere(op));
    forall id | Slot(Key(d), id) in d.world.db.pending
      ensures d.world.db.pending[Slot(Key(d), id)].consumer in d.attached + d.leaving
    {
      assert Slot(Key(m), id) in m.world.db.pending;
    }
  }

  lemma CrashOwned(m: Machine)
    ensures Owned(Take(m, Crash)) <==> !Strands(m, Crash)
  {
    if id :| Slot(Key(m), id) in m.world.db.pending {
      assert Slot(Key(Take(m, Crash)), id) in Take(m, Crash).world.db.pending;
    }
  }

  lemma MemoryOwned(m: Machine, step: Step)
    requires Enabled(m, step) && Owned(m)
    requires !step.Fetch? && !step.DropRows? && !step.Elsewhere? && !step.Crash?
    ensures Owned(Take(m, step)) && !Strands(m, step)
  {
    var d := Take(m, step);
    assert d.world == m.world && Key(d) == Key(m);
    forall x | x in m.attached + m.leaving ensures x in d.attached + d.leaving {}
  }

  /** Rows keep live owners exactly as long as no stranding step is taken. */
  lemma StepOwned(m: Machine, step: Step)
    requires NoLoss.Possible(m.world) && Enabled(m, step) && Owned(m)
    ensures Owned(Take(m, step)) <==> !Strands(m, step)
  {
    NoLoss.PossibleReachable(m.world);
    match step
    case Fetch(i, now) => FetchOwned(m, i, now);
    case DropRows(uid) => DropOwned(m, uid);
    case Elsewhere(op) => ElsewhereOwned(m, op);
    case Crash => CrashOwned(m);
    case _ => MemoryOwned(m, step);
  }

  lemma StepPossible(m: Machine, step: Step)
    requires NoLoss.Possible(m.world) && Enabled(m, step)
    ensures NoLoss.Possible(Take(m, step).world)
  {
    match step
    case Fetch(i, now) => NoLoss.PossibleStep(m.world, ClaimOp(m, m.loops[i].uid, m.loops[i].limit, now));
    case DropRows(uid) => NoLoss.PossibleStep(m.world, Drop(m.topic, m.name, uid));
    case Elsewhere(op) => NoLoss.PossibleStep(m.world, op);
    case Crash => NoLoss.PossibleStep(m.world, Restart);
    case _ =>
  }

  /** A loop has chosen the consumer and not yet claimed for it. */
  predicate Chosen(loop: Loop, uid: int) {
    (loop.AtRead? || loop.AtClaim?) && loop.uid == uid
  }

  /** What choosing and claiming in one critical section rules out, together with a restart over held rows. */
  ghost predicate Guarded(m: Machine, step: Step)
    requires Enabled(m, step)
  {
    (step.Detach? ==> forall loop | loop in m.loops :: !Chosen(loop, step.uid)) && (step.Crash? ==> !Strands(m, step))
  }

  /** Every consumer chosen and not yet served is attached. */
  ghost predicate ChosenAttached(m: Machine) {
    forall loop | loop in m.loops && (loop.AtRead? || loop.AtClaim?) :: loop.uid in m.attached
  }

  lemma StepChosen(m: Machine, step: Step)
    requires Solvent(m) && Enabled(m, step) && Guarded(m, step) && ChosenAttached(m)
    ensures ChosenAttached(Take(m, step)) && (step.Fetch? ==> !Strands(m, step))
  {
    hide Next, Claims.Claimed;
    if step.Choose? || step.ReadPermits? || step.Fetch? || step.Write? || step.Charge? || step.Clear? {
      OnlyLoop(m, step.i);
      assert m.loops[0] in m.loops;
    }
  }

  ghost predicate GuardedRun(m: Machine, steps: seq<Step>)
    requires Legal(m, steps)
    decreases |steps|
  {
    steps != [] ==> Guarded(m, steps[0]) && GuardedRun(Take(m, steps[0]), steps[1..])
  }

  lemma {:induction false} GuardedOwned(m: Machine, steps: seq<Step>)
    requires Legal(m, steps) && GuardedRun(m, steps)
    requires NoLoss.Possible(m.world) && Solvent(m) && ChosenAttached(m) && Owned(m)
    ensures NoLoss.Possible(Execute(m, steps).world) && Owned(Execute(m, steps))
    decreases |steps|
  {
    if steps == [] {
    } else {
      hide Owned, Solvent, ChosenAttached, Take, Guarded;
      StepPossible(m, steps[0]);
      StepSolvent(m, steps[0]);
      StepChosen(m, steps[0]);
      StepOwned(m, steps[0]);
      GuardedOwned(Take(m, steps[0]), steps[1..]);
    }
  }

  /**
   When no removal comes between choosing a consumer and claiming for it, and no restart finds
   rows held: whatever the interleaving, each id the subscription is owed is acked, held by a
   consumer that is attached or just being removed, or claimable.
   */
  lemma OwedIsAckedLiveOrClaimable(topic: TopicName, name: string, steps: seq<Step>, id: int)
    requires Legal(Init(topic, name), steps) && GuardedRun(Init(topic, name), steps)
    requires var m := Execute(Init(topic, name), steps); Key(m) in m.world.book.owed && id in m.world.book.owed[Key(m)]
    ensures var m := Execute(Init(topic, name), steps);
            var s := Key(m);
      && s in m.world.book.acked && s in m.world.db.cursors
      && (id in m.world.book.acked[s]
          || (Slot(s, id) in m.world.db.pending && m.world.db.pending[Slot(s, id)].consumer in m.attached + m.leaving)
          || (Stored(m.world.db, s.topic, id) && m.world.db.cursors[s] <= id))
  {
    NoLoss.StartPossible();
    GuardedOwned(Init(topic, name), steps);
    var m := Execute(Init(topic, name), steps);
    NoLoss.PossibleInv(m.world);
    assert Promise(m.world.db, m.world.book, Key(m));
    assert Safe(m.world.db, m.world.book, Key(m), id);
  }

  // ---------- a removal that overtakes a claim ----------

  lemma {:induction false} OneMore(m: Machine, steps: seq<Step>, step: Step)
    requires Legal(m, steps) && Enabled(Execute(m, steps), step)
    ensures Legal(m, steps + [step]) && Execute(m, steps + [step]) == Take(Execute(m, steps), step)
    decreases |steps|
  {
    hide Take, Enabled;
    if steps == [] {
      assert steps + [step] == [step] && [step][1..] == [];
      assert Legal(Take(m, step), []);
    } else {
      assert (steps + [step])[1..] == steps[1..] + [step];
      OneMore(Take(m, steps[0]), steps[1..], step);
    }
  }

  /** One message stored, and one subscription positioned before it. */
  function OneMessage(topic: TopicName, name: string, content: Content): Db {
    Db(2, map[topic := 1], 2, map[1 := Message(1, 5, content)],
       map[Sub(1, name) := SubRow(Shared, 7)], map[Sub(1, name) := 1], map[])
  }

  lemma OneMessageStored(topic: TopicName, name: string, content: Content)
    ensures var ops := [Insert(topic, 5, content), Subscribe(topic, name, false, None, None, 7)];
      Apply(Apply(EMPTY, ops[0]), ops[1]) == OneMessage(topic, name, content)
  {
  }

  lemma OneMessageClaimable(topic: TopicName, name: string, content: Content, uid: int, now: int)
    ensures var db := OneMessage(topic, name, content);
            Claims.Claimed(db, Claim(topic, name, uid, 1, now), SubOf(db, topic, name)) != []
    ensures Apply(OneMessage(topic, name, content), Drop(topic, name, uid)) == OneMessage(topic, name, content)
  {
    var db := OneMessage(topic, name, content);
    var s := Sub(1, name);
    Claims.TouchChangesNoQueue(db, s, now);
    assert 1 in Available(TouchSub(db, s, now), s);
    assert 1 in Sorted(Available(TouchSub(db, s, now), s));
  }

  /** Some interleaving leads to this state. */
  ghost predicate Arises(topic: TopicName, name: string, m: Machine) {
    exists steps :: Legal(Init(topic, name), steps) && Execute(Init(topic, name), steps) == m
  }

  lemma ArisesStep(topic: TopicName, name: string, m: Machine, step: Step)
    requires Arises(topic, name, m) && Enabled(m, step)
    ensures Arises(topic, name, Take(m, step))
  {
    hide Take, Enabled;
    var steps :| Legal(Init(topic, name), steps) && Execute(Init(topic, name), steps) == m;
    OneMore(Init(topic, name), steps, step);
    assert Execute(Init(topic, name), steps + [step]) == Take(m, step);
  }

  lemma StoredArises(topic: TopicName, name: string, content: Content) returns (m: Machine)
    ensures Arises(topic, name, m) && NoLoss.Possible(m.world) && m.topic == topic && m.name == name
    ensures m.world.db == OneMessage(topic, name, content)
    ensures m.accounts == map[] && m.attached == {} && m.leaving == {} && m.loops == [] && !m.delivering
  {
    m := Init(topic, name);
    NoLoss.StartPossible();
    assert Legal(m, []) && Execute(m, []) == m;
    OneMessageStored(topic, name, content);
    m := Taken(topic, name, m, Elsewhere(Insert(topic, 5, content)));
    m := Taken(topic, name, m, Elsewhere(Subscribe(topic, name, false, None, None, 7)));
  }

  /** A consumer with one permit, chosen by the loop over a store that holds one message. */
  lemma ChosenArises(topic: TopicName, name: string, content: Content) returns (m: Machine)
    ensures Arises(topic, name, m) && NoLoss.Possible(m.world) && m.topic == topic && m.name == name
    ensures m.world.db == OneMessage(topic, name, content)
    ensures m.attached == {1} && m.leaving == {} && m.loops == [AtClaim(1, 1)]
  {
    m := StoredArises(topic, name, content);
    hide Arises, NoLoss.Possible, OneMessage, Next;
    m := Taken(topic, name, m, Attach(1));
    m := Taken(topic, name, m, Flow(1, 1));
    assert 1 in m.attached && HasPermits(m, 1);
    m := Taken(topic, name, m, Kick(true));
    m := Taken(topic, name, m, Choose(0, Some(1)));
    m := Taken(topic, name, m, ReadPermits(0));
  }

  lemma Taken(topic: TopicName, name: string, m: Machine, step: Step) returns (d: Machine)
    requires Arises(topic, name, m) && NoLoss.Possible(m.world) && Enabled(m, step)
    ensures d == Take(m, step) && Arises(topic, name, d) && NoLoss.Possible(d.world)
  {
    ArisesStep(topic, name, m, step);
    StepPossible(m, step);
    d := Take(m, step);
  }

  /** Without the guard a removal can overtake the claim: then the message is held by a consumer that is gone. */
  lemma RemovalCanStrandARow(topic: TopicName, name: string, content: Content)
    ensures exists m :: Arises(topic, name, m) && m.attached == {} && m.leaving == {} && !Owned(m)
  {
    var m := ChosenArises(topic, name, content);
    m := Taken(topic, name, m, Detach(1));
    OneMessageClaimable(topic, name, content, 1, 9);
    m := Taken(topic, name, m, DropRows(1));
    assert m.world.db == OneMessage(topic, name, content);
    assert Owned(m);
    StepOwned(m, Fetch(0, 9));
    m := Taken(topic, name, m, Fetch(0, 9));
  }
}
