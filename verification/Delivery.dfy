/**
 The dispatcher of one subscription (internal/broker/delivery.go, internal/broker/cleanup.go):
 selection under permits, and a delivery loop that nobody interrupts.
 */
module Delivery {
  import opened Basics
  import opened TopicNames
  import opened Tables
  import opened Ledger
  import opened Selection
  import opened Storage
  import NoLoss
  import Claims

  class Consumer {
    const uid: int
    const priority: int
    const ref: SubRef
    var permits: nat

    constructor (uid: int, priority: int, ref: SubRef)
      ensures this.uid == uid && this.priority == priority && this.ref == ref && permits == 0
    {
      this.uid, this.priority, this.ref, permits := uid, priority, ref, 0;
    }

    /** The effect of a FLOW command on its consumer. */
    method Grant(add: int)
      modifies this`permits
      ensures permits == old(permits) + if add > 0 then add else 0
    {
      if add <= 0 { return; }
      permits := permits + add;
    }
  }

  /** A message frame written to a consumer's connection. */
  datatype Sent = Sent(uid: int, id: int)

  function SentIds(sent: seq<Sent>): seq<int> {
    seq(|sent|, i requires 0 <= i < |sent| => sent[i].id)
  }

  function Filtered<T(==)>(xs: seq<T>, x: T): seq<T> {
    if xs == [] then []
    else if xs[0] == x then Filtered(xs[1..], x)
    else [xs[0]] + Filtered(xs[1..], x)
  }

  lemma {:induction false} FilteredAppend<T>(xs: seq<T>, y: T, x: T)
    ensures Filtered(xs + [y], x) == if y == x then Filtered(xs, x) else Filtered(xs, x) + [y]
  {
    if xs == [] {
      assert xs + [y] == [y];
    } else {
      assert (xs + [y])[1..] == xs[1..] + [y];
      FilteredAppend(xs[1..], y, x);
    }
  }

  lemma {:induction false} FilteredMembers<T>(xs: seq<T>, x: T)
    ensures forall y :: y in Filtered(xs, x) <==> y in xs && y != x
  {
    if xs == [] {
    } else {
      FilteredMembers(xs[1..], x);
      assert xs == [xs[0]] + xs[1..];
    }
  }

  lemma {:induction false} FilteredEmpty<T>(xs: seq<T>, x: T)
    ensures Filtered(xs, x) == [] <==> forall y | y in xs :: y == x
  {
    if xs == [] {
    } else {
      FilteredEmpty(xs[1..], x);
      assert xs[0] in xs && forall y :: y in xs <==> y == xs[0] || y in xs[1..];
    }
  }

  /** Filtering one of several distinct entries out takes it, and only it, from its place. */
  lemma {:induction false} FilteredTakesOne<T>(xs: seq<T>, k: nat)
    requires k < |xs| && forall i, j | 0 <= i < j < |xs| :: xs[i] != xs[j]
    ensures Filtered(xs, xs[k]) == xs[..k] + xs[k + 1..]
  {
    var tail := xs[1..];
    forall i, j | 0 <= i < j < |tail| ensures tail[i] != tail[j] {
      assert tail[i] == xs[i + 1] && tail[j] == xs[j + 1];
    }
    if k == 0 {
      forall i | 0 <= i < |tail| ensures tail[i] != xs[0] { assert tail[i] == xs[i + 1]; }
      FilteredAbsent(tail, xs[0]);
    } else {
      FilteredTakesOne(tail, k - 1);
      assert [xs[0]] + (tail[..k - 1] + tail[k..]) == xs[..k] + xs[k + 1..];
    }
  }

  lemma {:induction false} FilteredAbsent<T>(xs: seq<T>, x: T)
    requires x !in xs
    ensures Filtered(xs, x) == xs
  {
    if xs == [] {
    } else {
      FilteredAbsent(xs[1..], x);
    }
  }

  function PermitsOf(cs: seq<Consumer>): seq<int>
    reads cs
  {
    seq(|cs|, i requires 0 <= i < |cs| reads cs => cs[i].permits)
  }

  function PrioritiesOf(cs: seq<Consumer>): seq<int> {
    seq(|cs|, i requires 0 <= i < |cs| => cs[i].priority)
  }

  function UidsOf(cs: seq<Consumer>): seq<int> {
    seq(|cs|, i requires 0 <= i < |cs| => cs[i].uid)
  }

  class SubState {
    const topic: TopicName
    const name: string
    const kind: SubType
    const persistent: bool
    var consumers: seq<Consumer>
    var rr: nat
    var delivering: bool

    constructor (topic: TopicName, name: string, kind: SubType, persistent: bool)
      ensures this.topic == topic && this.name == name && this.kind == kind && this.persistent == persistent
      ensures Valid() && consumers == [] && rr == 0 && !delivering
    {
      this.topic, this.name, this.kind, this.persistent := topic, name, kind, persistent;
      consumers, rr, delivering := [], 0, false;
    }

    ghost predicate Valid()
      reads this`consumers
    {
      (forall i, j | 0 <= i < j < |consumers| :: consumers[i] != consumers[j]) &&
      (kind == Exclusive ==> |consumers| <= 1)
    }

    function Permits(): (ps: seq<int>)
      reads this`consumers, consumers
      ensures |ps| == |consumers|
      ensures forall i | 0 <= i < |ps| :: ps[i] == consumers[i].permits
    {
      PermitsOf(consumers)
    }

    function Priorities(): (ps: seq<int>)
      reads this`consumers
      ensures |ps| == |consumers|
      ensures forall i | 0 <= i < |ps| :: ps[i] == consumers[i].priority
    {
      PrioritiesOf(consumers)
    }

    function Uids(): (us: seq<int>)
      reads this`consumers
      ensures |us| == |consumers| && forall i | 0 <= i < |us| :: us[i] == consumers[i].uid
    {
      UidsOf(consumers)
    }

    ghost function Room(): int
      reads this`consumers, consumers
    {
      Capacity(kind, Permits(), Priorities())
    }

    /** Whoever can be served is being served. */
    ghost predicate Awake()
      reads this`consumers, this`delivering, consumers
    {
      persistent && Room() > 0 ==> delivering
    }

    method Attach(c: Consumer) returns (accepted: bool)
      requires Valid() && c !in consumers
      modifies this`consumers
      ensures Valid()
      ensures accepted <==> !(kind == Exclusive && old(consumers) != [])
      ensures consumers == if accepted then old(consumers) + [c] else old(consumers)
    {
      if kind == Exclusive && |consumers| > 0 { return false; }
      consumers := consumers + [c];
      accepted := true;
    }

    /** removeConsumer's filter over the consumer list; rr is left where it was. */
    method Detach(c: Consumer)
      requires Valid()
      modifies this`consumers
      ensures Valid()
      ensures consumers == Filtered(old(consumers), c)
      ensures forall x :: x in consumers <==> x in old(consumers) && x != c
    {
      var list, dst := consumers, [];
      assert Filtered(list[..0], c) == [];
      hide Filtered;
      for i := 0 to |list|
        invariant dst == Filtered(list[..i], c)
        invariant forall x :: x in dst <==> x in list[..i] && x != c
        invariant forall j, k | 0 <= j < k < |dst| :: dst[j] != dst[k]
      {
        var x := list[i];
        FilteredAppend(list[..i], x, c);
        assert list[..i + 1] == list[..i] + [x];
        if x != c {
          assert x !in list[..i];
          dst := dst + [x];
        }
      }
      assert list[..|list|] == list;
      consumers := dst;
    }

    method NextConsumerWithPermits() returns (c: Consumer?)
      modifies this`rr
      ensures match NextShared(Permits(), old(rr))
              case None => c == null && rr == old(rr)
              case Some(k) => c == consumers[k] && rr == After(k, |consumers|)
    {
      c := null;
      var n := |consumers|;
      if n == 0 { return; }
      var i := 0;
      while i < n && c == null
        invariant 0 <= i <= n && |consumers| == n && consumers == old(consumers)
        invariant c == null ==> rr == old(rr) && NextShared(Permits(), rr) == ScanFrom(Permits(), rr, i)
        invariant c != null ==> match NextShared(Permits(), old(rr))
                                case None => false
                                case Some(k) => c == consumers[k] && rr == After(k, n)
      {
        var idx := (rr + i) % n;
        var candidate := consumers[idx];
        if candidate.permits > 0 {
          rr := (idx + 1) % n;
          c := candidate;
        }
        i := i + 1;
      }
    }

    method FirstConsumerWithPermits() returns (c: Consumer?)
      ensures c == if consumers != [] && consumers[0].permits > 0 then consumers[0] else null
    {
      if |consumers| == 0 { return null; }
      c := consumers[0];
      if c.permits <= 0 { c := null; }
    }

    method PrimaryConsumerWithPermits() returns (c: Consumer?)
      ensures consumers == [] ==> c == null
      ensures consumers != [] ==>
        var p := consumers[Primary(Priorities())];
        c == if p.permits > 0 then p else null
    {
      if |consumers| == 0 { return null; }
      var best: Consumer? := null;
      var bestPriority := 0;
      ghost var at := 0;
      for i := 0 to |consumers|
        invariant i == 0 ==> best == null
        invariant i > 0 ==> at < i && best == consumers[at] && bestPriority == best.priority
        invariant i > 0 ==> IsPrimary(Priorities()[..i], at)
      {
        var x := consumers[i];
        assert Priorities()[..i + 1] == Priorities()[..i] + [x.priority];
        if best == null || x.priority > bestPriority {
          best, bestPriority := x, x.priority;
          at := i;
        }
      }
      assert Priorities()[..|consumers|] == Priorities();
      PrimaryUnique(Priorities(), at);
      c := if best.permits > 0 then best else null;
    }

    method SelectConsumerWithPermits() returns (c: Consumer?)
      modifies this`rr
      ensures match Pick(kind, Permits(), Priorities(), old(rr))
              case None => c == null && rr == old(rr)
              case Some(k) => c == consumers[k] && rr == if kind == Shared then After(k, |consumers|) else old(rr)
    {
      match kind {
        case Shared => c := NextConsumerWithPermits();
        case Exclusive => c := FirstConsumerWithPermits();
        case Failover => c := PrimaryConsumerWithPermits();
      }
    }

    /** A consumer worth waking for exists exactly when a selection would find one. */
    method ReadyConsumer() returns (c: Consumer?)
      ensures c == null <==> Pick(kind, Permits(), Priorities(), rr).None?
      ensures c != null ==> c in consumers && c.permits > 0
    {
      match kind {
        case Shared =>
          NextSharedFails(Permits(), rr);
          for i := 0 to |consumers|
            invariant forall k | 0 <= k < i :: Permits()[k] <= 0
          {
            if consumers[i].permits > 0 {
              assert Permits()[i] > 0;
              return consumers[i];
            }
          }
          c := null;
        case Exclusive => c := FirstConsumerWithPermits();
        case Failover => c := PrimaryConsumerWithPermits();
      }
    }

    /** maybeStartSubDelivery: whether to start a loop; the flag is taken with the decision. */
    method MaybeStart() returns (started: bool)
      modifies this`delivering
      ensures started <==> persistent && !old(delivering) && Pick(kind, Permits(), Priorities(), rr).Some?
      ensures delivering == (old(delivering) || started)
    {
      if !persistent { return false; }
      if delivering { return false; }
      var c := ReadyConsumer();
      if c == null { return false; }
      delivering := true;
      started := true;
    }
  }

  const MAX_BATCH: int := 200

  /** What claims for a subscription would hand out, in order; nothing when it does not exist. */
  function Line(db: Db, topic: TopicName, name: string): seq<int> {
    var s := SubOf(db, topic, name);
    if s in db.subs && s in db.cursors then Claims.Queue(db, s) else []
  }

  lemma LineAscends(db: Db, topic: TopicName, name: string, front: seq<int>)
    requires front <= Line(db, topic, name)
    ensures Ascending(front)
  {
    var line := Line(db, topic, name);
    assert Ascending(line);
    forall i, j | 0 <= i < j < |front| ensures front[i] < front[j] {
      assert front[i] == line[i] && front[j] == line[j];
    }
  }

  lemma ClaimTakesLine(db: Db, n: TopicName, name: string, consumer: int, limit: nat, now: int)
    requires NoLoss.Reachable(db)
    ensures var s := SubOf(db, n, name);
            var op := Claim(n, name, consumer, limit, now);
            var k := Min(limit, |Line(db, n, name)|);
      && Claims.Claimed(db, op, s) == Line(db, n, name)[..k]
      && Line(Apply(db, op), n, name) == Line(db, n, name)[k..]
  {
    var s := SubOf(db, n, name);
    NoLoss.CursorsMatchSubs(db);
    if s in db.subs { Claims.ClaimTakesFront(db, s, consumer, limit, now); }
  }

  /** Writes a claimed batch, one permit a message, until a write fails; what was not written stays pending. */
  method SendBatch(c: Consumer, batch: seq<Delivery>, broken: set<Sent>) returns (sent: seq<Sent>, ok: bool)
    requires c.permits >= |batch|
    modifies c`permits
    ensures |sent| <= |batch| && SentIds(sent) == Ids(batch)[..|sent|]
    ensures forall x | x in sent :: x.uid == c.uid && x !in broken
    ensures c.permits == old(c.permits) - |sent|
    ensures ok <==> |sent| == |batch|
    ensures !ok ==> Sent(c.uid, batch[|sent|].id) in broken
  {
    sent, ok := [], true;
    var i := 0;
    while i < |batch| && ok
      invariant 0 <= i <= |batch| && |sent| <= i
      invariant ok ==> |sent| == i
      invariant !ok ==> |sent| < |batch| && Sent(c.uid, batch[|sent|].id) in broken
      invariant SentIds(sent) == Ids(batch)[..|sent|]
      invariant forall x | x in sent :: x.uid == c.uid && x !in broken
      invariant c.permits == old(c.permits) - |sent|
    {
      var frame := Sent(c.uid, batch[i].id);
      if frame in broken {
        ok := false;
      } else {
        sent := sent + [frame];
        if c.permits > 0 { c.permits := c.permits - 1; }
        assert Ids(batch)[..i + 1] == Ids(batch)[..i] + [batch[i].id];
      }
      i := i + 1;
    }
  }

  /** Serving the selected consumer uses up exactly as much of the subscription's room as was sent. */
  method ServeBatch(s: SubState, ghost k: nat, c: Consumer, batch: seq<Delivery>, broken: set<Sent>)
    returns (sent: seq<Sent>, ok: bool)
    requires s.Valid() && k < |s.consumers| && c == s.consumers[k] && c.permits >= |batch|
    requires s.kind == Exclusive ==> k == 0
    requires s.kind == Failover ==> k == Primary(s.Priorities())
    modifies c`permits
    ensures s.Valid() && s.Room() == old(s.Room()) - |sent|
    ensures s.Permits() == old(s.Permits())[k := old(s.Permits())[k] - |sent|] && forall x | x in sent :: x.uid == c.uid
    ensures |sent| <= |batch| && SentIds(sent) == Ids(batch)[..|sent|]
    ensures ok <==> |sent| == |batch|
    ensures !ok ==> broken != {}
  {
    hide Capacity, Primary, SentIds;
    ghost var before := s.Permits();
    sent, ok := SendBatch(c, batch, broken);
    assert s.Permits() == before[k := before[k] - |sent|];
    ServingUsesCapacity(s.kind, before, s.Priorities(), k, |sent|);
  }

  method TakeFront(store: Store, topic: TopicName, name: string, consumer: int, limit: nat, now: int)
    returns (batch: seq<Delivery>)
    requires store.Valid()
    modifies store
    ensures store.Valid()
    ensures var line := Line(old(store.View()), topic, name);
            var k := Min(limit, |line|);
      |batch| == k && Ids(batch) == line[..k] && Line(store.View(), topic, name) == line[k..]
  {
    ClaimTakesLine(store.View(), topic, name, consumer, limit, now);
    var r;
    r, batch := store.ClaimBatch(Durable(topic), name, consumer, limit, now);
    assert |Ids(batch)| == |batch|;
    if r.Rejected? { batch := []; }
  }

  /** Selection fails exactly when the subscription has no room; the one it finds is the one to serve. */
  method SelectForDelivery(s: SubState) returns (c: Consumer?, ghost k: nat)
    requires s.Valid()
    modifies s`rr
    ensures s.Room() >= 0 && (c == null <==> s.Room() == 0)
    ensures c != null ==> k < |s.consumers| && c == s.consumers[k] && c.permits > 0
    ensures c != null ==> (s.kind == Exclusive ==> k == 0) && (s.kind == Failover ==> k == Primary(s.Priorities()))
    ensures c != null && s.kind == Shared ==>
      NextShared(s.Permits(), old(s.rr)) == Some(k) && s.rr == After(k, |s.consumers|)
  {
    PickNeedsCapacity(s.kind, s.Permits(), s.Priorities(), s.rr);
    ghost var p := Pick(s.kind, s.Permits(), s.Priorities(), s.rr);
    c := s.SelectConsumerWithPermits();
    k := if p.Some? then p.value else 0;
  }

  // ---------- fairness among shared consumers ----------

  /** What round-robin selection depends on. */
  datatype Scan = Scan(permits: seq<int>, rr: nat)

  predicate SentTo(sent: seq<Sent>, uid: int) {
    exists x :: x in sent && x.uid == uid
  }

  /** Whoever had permits and was sent nothing still has them, and the scan came closer to it with every turn. */
  ghost predicate Fair(uids: seq<int>, before: Scan, after: Scan, sent: seq<Sent>, turns: nat)
    requires |before.permits| == |after.permits| == |uids|
  {
    forall k | 0 <= k < |uids| && before.permits[k] > 0 && !SentTo(sent, uids[k]) ::
      after.permits[k] == before.permits[k] && Distance(after.rr, k, |uids|) + turns <= Distance(before.rr, k, |uids|)
  }

  lemma TurnFair(uids: seq<int>, before: Scan, k: nat, used: nat, sent: seq<Sent>)
    requires |before.permits| == |uids| && NextShared(before.permits, before.rr) == Some(k)
    requires sent != [] && forall x | x in sent :: x.uid == uids[k]
    ensures Fair(uids, before, Scan(before.permits[k := before.permits[k] - used], After(k, |uids|)), sent, 1)
  {
    assert sent[0] in sent;
    assert SentTo(sent, uids[k]);
    forall j | 0 <= j < |uids| && before.permits[j] > 0 && !SentTo(sent, uids[j])
      ensures j != k && Distance(After(k, |uids|), j, |uids|) < Distance(before.rr, j, |uids|)
    {
      SelectionApproaches(before.permits, before.rr, j);
    }
  }

  lemma FairTogether(uids: seq<int>, a: Scan, b: Scan, c: Scan, first: seq<Sent>, second: seq<Sent>, m: nat, n: nat)
    requires |a.permits| == |b.permits| == |c.permits| == |uids|
    requires Fair(uids, a, b, first, m) && Fair(uids, b, c, second, n)
    ensures Fair(uids, a, c, first + second, m + n)
  {
    MoreSent(uids, first, second);
  }

  lemma MoreSent(uids: seq<int>, first: seq<Sent>, second: seq<Sent>)
    ensures forall uid :: SentTo(first + second, uid) <==> SentTo(first, uid) || SentTo(second, uid)
  {
    forall uid ensures SentTo(first + second, uid) <==> SentTo(first, uid) || SentTo(second, uid) {
      if x :| x in first && x.uid == uid { assert x in first + second; }
      if x :| x in second && x.uid == uid { assert x in first + second; }
    }
  }

  lemma FairStill(uids: seq<int>, a: Scan, b: Scan, first: seq<Sent>, second: seq<Sent>, m: nat)
    requires |a.permits| == |b.permits| == |uids| && Fair(uids, a, b, first, m)
    ensures Fair(uids, a, b, first + second, m)
  {
    MoreSent(uids, first, second);
  }

  /** One turn, complete when there is more to come. */
  ghost predicate Turn(shared: bool, uids: seq<int>, before: Scan, after: Scan, sent: seq<Sent>, more: bool) {
    && |before.permits| == |after.permits| == |uids| && |sent| <= MAX_BATCH
    && (more && shared ==> Fair(uids, before, after, sent, 1))
  }

  /** All turns so far, the last of them incomplete unless there is more to come. */
  ghost predicate Turns(shared: bool, uids: seq<int>, start: Scan, last: Scan,
                        sent: seq<Sent>, turns: nat, more: bool)
  {
    && |start.permits| == |last.permits| == |uids|
    && |sent| <= MAX_BATCH * turns + (if more then 0 else MAX_BATCH)
    && (shared ==> Fair(uids, start, last, sent, turns))
  }

  lemma NoTurns(shared: bool, uids: seq<int>, start: Scan)
    requires |start.permits| == |uids|
    ensures Turns(shared, uids, start, start, [], 0, true)
  {
  }

  lemma OneMoreTurn(shared: bool, uids: seq<int>, start: Scan, last: Scan, next: Scan,
                    sent: seq<Sent>, batch: seq<Sent>, turns: nat, more: bool)
    requires Turns(shared, uids, start, last, sent, turns, true) && Turn(shared, uids, last, next, batch, more)
    ensures if more then Turns(shared, uids, start, next, sent + batch, turns + 1, true)
            else Turns(shared, uids, start, last, sent + batch, turns, false)
  {
    hide Fair;
    if shared && more { FairTogether(uids, start, last, next, sent, batch, turns, 1); }
    if shared && !more { FairStill(uids, start, last, sent, batch, turns); }
  }

  /** Once more than a batch for each consumer has been sent, nobody who had permits was left out. */
  lemma FairToAll(uids: seq<int>, start: Scan, last: Scan, sent: seq<Sent>, turns: nat)
    requires Turns(true, uids, start, last, sent, turns, false) && |sent| > MAX_BATCH * |uids|
    ensures forall k | 0 <= k < |uids| && start.permits[k] > 0 :: SentTo(sent, uids[k])
  {
  }

  /** One turn of the delivery loop: select, claim, send. */
  method DeliverOnce(s: SubState, store: Store, broken: set<Sent>, now: int) returns (sent: seq<Sent>, more: bool)
    requires store.Valid() && s.Valid()
    modifies store, s`rr, s.consumers
    ensures store.Valid() && s.Valid() && s.consumers == old(s.consumers)
    ensures s.Room() == old(s.Room()) - |sent|
    ensures SentIds(sent) <= Line(old(store.View()), s.topic, s.name)
    ensures more ==>
      sent != [] && Line(store.View(), s.topic, s.name) == Line(old(store.View()), s.topic, s.name)[|sent|..]
    ensures !more && broken == {} ==>
      sent == [] && (Line(old(store.View()), s.topic, s.name) == [] || old(s.Room()) == 0)
    ensures Turn(s.kind == Shared, s.Uids(), Scan(old(s.Permits()), old(s.rr)), Scan(s.Permits(), s.rr), sent, more)
  {
    hide Line, Fair, Primary, NextShared, NoLoss.Reachable;
    hide SubState.Room, SubState.Permits, SubState.Uids, SubState.Priorities;
    ghost var before := Scan(s.Permits(), s.rr);
    ghost var k;
    var c;
    c, k := SelectForDelivery(s);
    if c == null { return [], false; }
    var limit := if c.permits > MAX_BATCH then MAX_BATCH else c.permits;
    var batch := TakeFront(store, s.topic, s.name, c.uid, limit, now);
    if |batch| == 0 { return [], false; }
    sent, more := ServeBatch(s, k, c, batch, broken);
    if more && s.kind == Shared { TurnFair(s.Uids(), before, k, |sent|, sent); }
  }

  /**
   The delivery loop of one subscription, with no other actor in between. It sends from the front
   of the line in order; when no write fails it sends as many messages as there are permits
   (of all consumers if shared, of the owner otherwise) or as are available, whichever is less.
   On a shared subscription a consumer with permits waits for a batch for each consumer at most.
   */
  method DeliveryLoop(s: SubState, store: Store, broken: set<Sent>, now: int) returns (sent: seq<Sent>)
    requires store.Valid() && s.Valid()
    modifies store, s`rr, s`delivering, s.consumers
    ensures store.Valid() && s.Valid() && s.consumers == old(s.consumers) && !s.delivering
    ensures s.Room() == old(s.Room()) - |sent| && s.Room() >= 0
    ensures SentIds(sent) <= Line(old(store.View()), s.topic, s.name) && Ascending(SentIds(sent))
    ensures broken == {} ==> |sent| == Min(old(s.Room()), |Line(old(store.View()), s.topic, s.name)|)
    ensures s.kind == Shared && |sent| > 200 * |s.consumers| ==>
      forall k | 0 <= k < |s.consumers| && old(s.Permits())[k] > 0 :: SentTo(sent, s.consumers[k].uid)
  {
    hide Line, Turn, Turns, SubState.Room, SubState.Permits, SubState.Uids, NoLoss.Reachable;
    ghost var line := Line(store.View(), s.topic, s.name);
    ghost var left := line;
    ghost var uids, start := s.Uids(), Scan(s.Permits(), s.rr);
    ghost var last := start;
    NoTurns(s.kind == Shared, uids, start);
    sent := [];
    ghost var turns: nat := 0;
    var more := true;
    while more
      invariant store.Valid() && s.Valid() && s.consumers == old(s.consumers)
      invariant s.Room() == old(s.Room()) - |sent|
      invariant |sent| <= |line| && SentIds(sent) == line[..|sent|]
      invariant more ==> left == line[|sent|..] && Line(store.View(), s.topic, s.name) == left
      invariant !more && broken == {} ==> |sent| == |line| || s.Room() == 0
      invariant s.Uids() == uids && (more ==> last == Scan(s.Permits(), s.rr))
      invariant Turns(s.kind == Shared, uids, start, last, sent, turns, more)
      decreases more, |line| - |sent|
    {
      var batch;
      batch, more := DeliverOnce(s, store, broken, now);
      Continued(line, left, sent, batch);
      left := left[|batch|..];
      OneMoreTurn(s.kind == Shared, uids, start, last, Scan(s.Permits(), s.rr), sent, batch, turns, more);
      if more { turns, last := turns + 1, Scan(s.Permits(), s.rr); }
      sent := sent + batch;
    }
    RoomIsNatural(s);
    LineAscends(old(store.View()), s.topic, s.name, SentIds(sent));
    if s.kind == Shared && |sent| > MAX_BATCH * |s.consumers| { FairToAll(uids, start, last, sent, turns); }
    s.delivering := false;
  }

  /**
   removeConsumer for a registered consumer: it leaves the list, its rows go back to the queue,
   everybody else's stay, and delivery is woken if the others have room.
   */
  method RemoveConsumer(s: SubState, store: Store, c: Consumer) returns (woken: bool)
    requires store.Valid() && s.Valid()
    modifies store`cursors, store`pending, s`consumers, s`delivering
    ensures store.Valid() && s.Valid()
    ensures s.consumers == Filtered(old(s.consumers), c)
    ensures forall x :: x in s.consumers <==> x in old(s.consumers) && x != c
    ensures var k := SubOf(old(store.View()), s.topic, s.name);
      if s.persistent then
        && store.View() == Requeue(old(store.View()), k, HeldBy(old(store.pending), k, c.uid))
        && (forall id | Slot(k, id) in store.pending :: store.pending[Slot(k, id)].consumer != c.uid)
      else store.View() == old(store.View())
    ensures woken <==> s.persistent && !old(s.delivering) && s.Room() > 0
    ensures s.delivering == (old(s.delivering) || woken)
  {
    s.Detach(c);
    if s.persistent {
      var _ := store.DropPendingByConsumer(Durable(s.topic), s.name, c.uid);
    }
    PickNeedsCapacity(s.kind, s.Permits(), s.Priorities(), s.rr);
    woken := s.MaybeStart();
  }

  lemma RoomIsNatural(s: SubState)
    requires s.Valid()
    ensures s.Room() >= 0
    ensures s.Room() > 0 <==> Pick(s.kind, s.Permits(), s.Priorities(), s.rr).Some?
  {
    PickNeedsCapacity(s.kind, s.Permits(), s.Priorities(), s.rr);
  }

  lemma Continued(line: seq<int>, left: seq<int>, sent: seq<Sent>, more: seq<Sent>)
    requires |sent| <= |line| && SentIds(sent) == line[..|sent|] && left == line[|sent|..]
    requires SentIds(more) <= left
    ensures |sent + more| <= |line| && SentIds(sent + more) == line[..|sent + more|]
    ensures |more| <= |left| && left[|more|..] == line[|sent + more|..]
  {
    assert |SentIds(more)| == |more|;
    assert SentIds(sent + more) == SentIds(sent) + SentIds(more);
  }
}
