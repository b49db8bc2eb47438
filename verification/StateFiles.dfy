/**
 Filing of subscription states under concurrent SUBSCRIBEs and sweeps (internal/broker/state.go,
 handlers.go, maintenance.go, cleanup.go). A handler looks a state up, or files a new one, under one
 lock and attaches its consumer under another. A sweep, or the removal of a volatile subscription's
 consumer, fetches a state, looks for consumers and removes the key under three. In between anything
 may happen; every state was filed once, so the one looked at may be any state there is.
 */
module StateFiles {
  import opened Basics
  import opened Storage

  /** A state object by number: the key it was made for and the uids attached to it. */
  datatype State = State(ref: SubRef, attached: set<int>)

  /** A handler that has its state and has not attached yet. */
  datatype Errand = Errand(uid: int, state: nat)

  datatype Files = Files(states: map<nat, State>, filed: map<SubRef, nat>, errands: set<Errand>,
                         condemned: set<SubRef>, next: nat)

  const NO_FILES: Files := Files(map[], map[], {}, {}, 0)

  datatype Deed =
    | Look(uid: int, ref: SubRef)
    | Attach(errand: Errand)
    | Leave(uid: int, state: nat)
    | Check(state: nat)
    | Remove(ref: SubRef)

  predicate CanDo(f: Files, deed: Deed) {
    match deed
    case Look(_, _) => true
    case Attach(errand) => errand in f.errands && errand.state in f.states
    case Leave(_, state) => state in f.states
    case Check(state) => state in f.states && f.states[state].attached == {}
    case Remove(ref) => ref in f.condemned
  }

  function WithAttached(f: Files, state: nat, uids: set<int>): Files
    requires state in f.states
  {
    f.(states := f.states[state := f.states[state].(attached := uids)])
  }

  function Do(f: Files, deed: Deed): Files
    requires CanDo(f, deed)
  {
    match deed
    case Look(uid, ref) =>
      if ref in f.filed then f.(errands := f.errands + {Errand(uid, f.filed[ref])})
      else f.(states := f.states[f.next := State(ref, {})], filed := f.filed[ref := f.next],
              errands := f.errands + {Errand(uid, f.next)}, next := f.next + 1)
    case Attach(errand) =>
      WithAttached(f, errand.state, f.states[errand.state].attached + {errand.uid}).(errands := f.errands - {errand})
    case Leave(uid, state) => WithAttached(f, state, f.states[state].attached - {uid})
    case Check(state) => f.(condemned := f.condemned + {f.states[state].ref})
    case Remove(ref) => f.(filed := f.filed - {ref}, condemned := f.condemned - {ref})
  }

  /** The state is the one its key leads to. */
  predicate AtHome(f: Files, state: nat)
    requires state in f.states
  {
    f.states[state].ref in f.filed && f.filed[f.states[state].ref] == state
  }

  /** Numbers are used once, and a filed state is filed under its own key. */
  ghost predicate Sound(f: Files) {
    (forall n | n in f.states :: n < f.next) &&
    (forall ref | ref in f.filed :: f.filed[ref] in f.states && f.states[f.filed[ref]].ref == ref) &&
    (forall e | e in f.errands :: e.state in f.states)
  }

  /** Every consumer is attached to a state that FLOW, acknowledgements and kicks find. */
  ghost predicate AllFound(f: Files) {
    forall n | n in f.states && f.states[n].attached != {} :: AtHome(f, n)
  }

  /**
   A key is removed although somebody has attached to its state since the look, or a handler
   attaches to a state whose key has been removed since it looked.
   */
  predicate LosesState(f: Files, deed: Deed)
    requires CanDo(f, deed)
  {
    match deed
    case Remove(ref) => ref in f.filed && f.filed[ref] in f.states && f.states[f.filed[ref]].attached != {}
    case Attach(errand) => !AtHome(f, errand.state)
    case _ => false
  }

  lemma StepSound(f: Files, deed: Deed)
    requires Sound(f) && CanDo(f, deed)
    ensures Sound(Do(f, deed))
  {
  }

  /** An attached consumer loses its state exactly by one of these two steps. */
  lemma StepFound(f: Files, deed: Deed)
    requires Sound(f) && AllFound(f) && CanDo(f, deed)
    ensures AllFound(Do(f, deed)) <==> !LosesState(f, deed)
  {
    var d := Do(f, deed);
    match deed
    case Attach(errand) =>
      assert errand.uid in d.states[errand.state].attached;
    case Remove(ref) =>
      if LosesState(f, deed) { assert !AtHome(d, f.filed[ref]) && d.states[f.filed[ref]].attached != {}; }
    case _ =>
  }

  ghost predicate CanDoAll(f: Files, deeds: seq<Deed>)
    decreases |deeds|
  {
    deeds != [] ==> CanDo(f, deeds[0]) && CanDoAll(Do(f, deeds[0]), deeds[1..])
  }

  ghost function DoAll(f: Files, deeds: seq<Deed>): Files
    requires CanDoAll(f, deeds)
    decreases |deeds|
  {
    if deeds == [] then f else DoAll(Do(f, deeds[0]), deeds[1..])
  }

  ghost predicate NeverLoses(f: Files, deeds: seq<Deed>)
    requires CanDoAll(f, deeds)
    decreases |deeds|
  {
    deeds != [] ==> !LosesState(f, deeds[0]) && NeverLoses(Do(f, deeds[0]), deeds[1..])
  }

  /** On every interleaving without such a step each attached consumer's state is found under its key. */
  lemma {:induction false} FoundOnEveryRun(f: Files, deeds: seq<Deed>)
    requires Sound(f) && AllFound(f) && CanDoAll(f, deeds) && NeverLoses(f, deeds)
    ensures Sound(DoAll(f, deeds)) && AllFound(DoAll(f, deeds))
    decreases |deeds|
  {
    if deeds == [] {
    } else {
      hide Sound, AllFound, LosesState, CanDo;
      StepSound(f, deeds[0]);
      StepFound(f, deeds[0]);
      FoundOnEveryRun(Do(f, deeds[0]), deeds[1..]);
    }
  }

  /** A sweep that looks between a handler's look-up and its attaching: the consumer's state is gone. */
  lemma SweepCanLoseState(ref: SubRef, uid: int)
    ensures var deeds := [Look(uid, ref), Check(0), Remove(ref), Attach(Errand(uid, 0))];
      CanDoAll(NO_FILES, deeds) && !AllFound(DoAll(NO_FILES, deeds))
  {
    var a, b, c, d := Look(uid, ref), Check(0), Remove(ref), Attach(Errand(uid, 0));
    assert [a, b, c, d][1..] == [b, c, d] && [b, c, d][1..] == [c, d] && [c, d][1..] == [d] && [d][1..] == [];
    var f1 := Do(NO_FILES, a);
    var f2 := Do(f1, b);
    var f3 := Do(f2, c);
    var f4 := Do(f3, d);
    assert CanDoAll(f4, []) && DoAll(f4, []) == f4;
    assert CanDoAll(f3, [d]) && DoAll(f3, [d]) == f4;
    assert CanDoAll(f2, [c, d]) && DoAll(f2, [c, d]) == f4;
    assert CanDoAll(f1, [b, c, d]) && DoAll(f1, [b, c, d]) == f4;
    assert uid in f4.states[0].attached && !AtHome(f4, 0);
  }
}
