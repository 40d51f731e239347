/**
  Linearizability of whole runs: every run of the system, crashes included, is a run of an atomic map
  with the same calls, results and values read and stored through accessors, whose threads hold what
  they were handed and have not released.
 */
module MapAtomic {
  import opened ChainSplit
  import opened MapState
  import opened MapInvariant
  import opened MapItems
  import opened MapReachable
  import opened MapNodes
  import opened MapReturns
  import opened MapLinearize
  import opened MapHandles

  /** The atomic map with the items in the hands of its clients. */
  datatype Atomic = Atomic(book: Spec, hands: Hands)

  ghost predicate AtomicOk(a: Atomic)
  {
    HandsOk(a.book, a.hands)
  }

  ghost predicate AtomicNext(a: Atomic, l: Label, b: Atomic)
  {
    && |a.hands| == |a.book.calls|
    && SpecNext(a.book, l, b.book) && HandsNext(a.book, l, b.book, a.hands, b.hands)
  }

  /** Everybody rests and nothing is stored. */
  function Fresh(n: nat): Atomic
  {
    Atomic(Spec(map[], seq(n, _ => Resting)), seq(n, _ => map[]))
  }

  ghost predicate Shown(s: State, a: Atomic)
  {
    Represents(s, a.book) && HandsAre(s, a.hands) && KeysFree(s)
  }

  // ---------- the actions that are no steps of an operation ----------

  /** Inserting a node changes nothing for those who hold other nodes. */
  lemma AllocGrip(s: State, t: nat, id: nat, u: nat)
    requires AccsLinked(s) && Enabled(s, Alloc(t, id)) && id !in s.vals && u < |s.threads|
    ensures SameGrip(s.tab, Apply(s, Alloc(t, id)).tab, s.threads[u], s.threads[u])
  {
    forall i, key: nat | i in s.threads[u].accs
      ensures Has(Apply(s, Alloc(t, id)).tab, Node(i, key)) <==> Has(s.tab, Node(i, key))
    {
      LinkHas(s.tab, s.threads[t].base, Node(id, s.threads[t].op.key), Node(i, key));
    }
  }

  lemma LockedSame(tab: Table, tab': Table, accs: map<nat, bool>)
    requires forall id, key: nat :: id in accs ==> (Has(tab', Node(id, key)) <==> Has(tab, Node(id, key)))
    ensures forall key: nat, write :: Locked(tab', accs, key, write) <==> Locked(tab, accs, key, write)
  {
    forall key: nat, write ensures Locked(tab', accs, key, write) <==> Locked(tab, accs, key, write) {
      if Locked(tab, accs, key, write) {
        var id :| id in accs && accs[id] == write && Has(tab, Node(id, key));
        assert Has(tab', Node(id, key));
      }
      if Locked(tab', accs, key, write) {
        var id :| id in accs && accs[id] == write && Has(tab', Node(id, key));
        assert Has(tab, Node(id, key));
      }
    }
  }

  /** The thread that inserts is promised its item at once. */
  lemma AllocHand(tab: Table, tab': Table, th: Thread, th': Thread, hand: map<nat, bool>) returns (hand': map<nat, bool>)
    requires th.pc.InsertTx? && th.op.Insert? && InHand(tab, th, hand) && SameGrip(tab, tab', th, th)
    requires th'.pc.BumpSize? && th'.op == th.op && th'.inserted && th'.accs == th.accs && th.op.key !in hand
    ensures hand' == if th.op.item.NoItem? then hand else Grasped(hand, th.op.key, th.op.item.WriteItem?)
    ensures InHand(tab', th', hand') && KeyFree(tab', th')
  {
    LockedSame(tab, tab', th.accs);
    if th.op.item.NoItem? {
      hand' := hand;
      assert forall key: nat, write :: Holds(tab', th', key, write) <==> Holds(tab, th, key, write);
    } else {
      hand' := Grasped(hand, th.op.key, th.op.item.WriteItem?);
      GraspedIs(hand, th.op.key, th.op.item.WriteItem?);
      assert forall key: nat, write ::
        Holds(tab', th', key, write) <==> Holds(tab, th, key, write) || (key == th.op.key && write == th.op.item.WriteItem?);
    }
  }

  lemma AllocHands(s: State, t: nat, id: nat, sp: Spec, sp': Spec, hands: Hands) returns (hands': Hands)
    requires Inv(s) && KeysFree(s) && HandsAre(s, hands) && Represents(s, sp) && Enabled(s, Alloc(t, id))
    requires Represents(Apply(s, Alloc(t, id)), sp') && SpecNext(sp, Silent, sp')
    ensures HandsStep(Apply(s, Alloc(t, id)), Silent, sp, sp', hands, hands')
  {
    var s' := Apply(s, Alloc(t, id));
    var th := s.threads[t];
    AllocItems(s, t, id);
    assert ThreadOk(s.tab, th);
    InsertMeaning(s.tab, th, id, s.vals, sp.data);
    HeldInData(s, hands, sp.data, th.op.key);
    AllocGrips(s, t, id);
    var hand := AllocHand(s.tab, s'.tab, th, s'.threads[t], hands[t]);
    hands' := hands[t := hand];
    AllocStep(s, t, id, sp, sp', hands, hands');
  }

  lemma AllocGrips(s: State, t: nat, id: nat)
    requires AccsLinked(s) && Enabled(s, Alloc(t, id)) && id !in s.vals
    ensures forall u :: 0 <= u < |s.threads| ==> SameGrip(s.tab, Apply(s, Alloc(t, id)).tab, s.threads[u], s.threads[u])
  {
    forall u | 0 <= u < |s.threads| ensures SameGrip(s.tab, Apply(s, Alloc(t, id)).tab, s.threads[u], s.threads[u]) {
      AllocGrip(s, t, id, u);
    }
  }

  lemma AllocStep(s: State, t: nat, id: nat, sp: Spec, sp': Spec, hands: Hands, hands': Hands)
    requires KeysFree(s) && HandsAre(s, hands) && Represents(s, sp) && Enabled(s, Alloc(t, id))
    requires Represents(Apply(s, Alloc(t, id)), sp') && SpecNext(sp, Silent, sp')
    requires CallOf(s.threads[t]).Pending? && forall u :: 0 <= u < |hands| ==> s.threads[t].op.key !in hands[u]
    requires forall u :: 0 <= u < |s.threads| ==> SameGrip(s.tab, Apply(s, Alloc(t, id)).tab, s.threads[u], s.threads[u])
    requires |hands'| == |hands| && hands' == hands[t := hands'[t]]
    requires var op := s.threads[t].op;
      hands'[t] == if op.item.NoItem? then hands[t] else Grasped(hands[t], op.key, op.item.WriteItem?)
    requires var s' := Apply(s, Alloc(t, id)); InHand(s'.tab, s'.threads[t], hands'[t]) && KeyFree(s'.tab, s'.threads[t])
    ensures HandsStep(Apply(s, Alloc(t, id)), Silent, sp, sp', hands, hands')
  {
    var s' := Apply(s, Alloc(t, id));
    HandsPut(s, s', t, hands, hands'[t]);
    KeysPut(s, s', t);
    HandsEffect(s, s', t, sp, sp', hands, hands');
  }

  lemma InvokeHands(s: State, t: nat, op: Op, sp: Spec, sp': Spec, hands: Hands)
    requires KeysFree(s) && HandsAre(s, hands) && Represents(s, sp) && Enabled(s, Invoke(t, op))
    ensures HandsStep(Apply(s, Invoke(t, op)), Called(t, op), sp, sp', hands, hands)
  {
    var s' := Apply(s, Invoke(t, op));
    var th, th' := s.threads[t], Start(s.tab, s.threads[t], op);
    GripKept(s.tab, s.tab, th, th', hands[t]);
    InvokeFree(s.tab, th, op, hands[t]);
    HandsPut(s, s', t, hands, hands[t]);
    KeysPut(s, s', t);
    assert hands[t := hands[t]] == hands;
  }

  lemma InvokeFree(tab: Table, th: Thread, op: Op, hand: map<nat, bool>)
    requires th.pc.Idle? && InHand(tab, th, hand) && (!op.Visit? ==> NoAccessorTo(tab, th, op.key))
    ensures KeyFree(tab, Start(tab, th, op)) && (!op.Visit? ==> op.key !in hand)
  {
    if !op.Visit? && op.key in hand {
      assert Shows(hand, op.key, hand[op.key]);
    }
  }

  /** Giving up and dropping a bucket. */
  lemma QuietHands(s: State, t: nat, th: Thread, sp: Spec, sp': Spec, hands: Hands)
    requires KeysFree(s) && HandsAre(s, hands) && Represents(s, sp) && t < |s.threads|
    requires SameGrip(s.tab, s.tab, s.threads[t], th) && CallOf(th) == CallOf(s.threads[t])
    requires (Underway(th) ==> Underway(s.threads[t])) && OpKey(th.op) == OpKey(s.threads[t].op)
    requires Represents(Put(s, t, th), sp') && SpecNext(sp, Silent, sp')
    ensures HandsStep(Put(s, t, th), Silent, sp, sp', hands, hands)
  {
    GripKept(s.tab, s.tab, s.threads[t], th, hands[t]);
    KeyFreeKept(s.tab, s.tab, s.threads[t], th);
    assert hands[t := hands[t]] == hands;
    PutHands(s, t, th, sp, sp', hands, hands);
  }

  lemma GiveUpHands(s: State, t: nat, sp: Spec, sp': Spec, hands: Hands)
    requires PrivateOk(s) && KeysFree(s) && HandsAre(s, hands) && Represents(s, sp) && Enabled(s, GiveUp(t))
    requires Represents(Apply(s, GiveUp(t)), sp') && SpecNext(sp, Silent, sp')
    ensures HandsStep(Apply(s, GiveUp(t)), Silent, sp, sp', hands, hands)
  {
    GiveUpNotInserted(s, t);
    QuietHands(s, t, s.threads[t].(pc := UnlockReload), sp, sp', hands);
  }

  lemma DropHands(s: State, t: nat, sp: Spec, sp': Spec, hands: Hands)
    requires KeysFree(s) && HandsAre(s, hands) && Represents(s, sp) && Enabled(s, Drop(t)) && OpOk(s.threads[t])
    requires Represents(Apply(s, Drop(t)), sp') && SpecNext(sp, Silent, sp')
    ensures HandsStep(Apply(s, Drop(t)), Silent, sp, sp', hands, hands)
  {
    VisitGrip(s.tab, s.threads[t]);
    QuietHands(s, t, NextVisit(Unlocked(s.threads[t])), sp, sp', hands);
  }

  lemma VisitGrip(tab: Table, th: Thread)
    requires th.pc.Visited? && th.op.Visit?
    ensures var th' := NextVisit(Unlocked(th)); SameGrip(tab, tab, th, th') && CallOf(th') == CallOf(th) && th'.op == th.op
  {
  }

  lemma RespondHands(s: State, t: nat, sp: Spec, sp': Spec, hands: Hands)
    requires KeysFree(s) && HandsAre(s, hands) && Represents(s, sp) && Enabled(s, Respond(t))
    ensures var th := s.threads[t];
      HandsStep(Apply(s, Respond(t)), Returned(t, th.result, HandedOver(s.tab, th)), sp, sp', hands, hands)
  {
    var s' := Apply(s, Respond(t));
    var th := s.threads[t];
    GripKept(s.tab, s.tab, th, s'.threads[t], hands[t]);
    if HandedOver(s.tab, th).Some? {
      LinkedHas(s.tab, th.found);
      assert Locked(s.tab, th.accs, KeyOf(s.tab, th.found), th.accs[th.found]);
      assert Shows(hands[t], KeyOf(s.tab, th.found), th.accs[th.found]);
    }
    HandsPut(s, s', t, hands, hands[t]);
    KeysPut(s, s', t);
    assert hands[t := hands[t]] == hands;
  }

  /** The key of an item that an idle thread has locked is in its hands. */
  lemma IdleShows(s: State, t: nat, id: nat, hands: Hands)
    requires HandsAre(s, hands) && t < |s.threads| && s.threads[t].pc.Idle? && id in s.threads[t].accs && Linked(s.tab, id)
    ensures Shows(hands[t], KeyOf(s.tab, id), s.threads[t].accs[id])
  {
    LinkedHas(s.tab, id);
    assert Locked(s.tab, s.threads[t].accs, KeyOf(s.tab, id), s.threads[t].accs[id]);
  }

  lemma LockedLess(tab: Table, accs: map<nat, bool>, id: nat, key: nat)
    requires id in accs && KeyAt(tab, id, key) && forall i :: Has(tab, Node(i, key)) ==> i == id
    ensures forall k: nat, w :: Locked(tab, accs - {id}, k, w) <==> Locked(tab, accs, k, w) && k != key
  {
    var accs' := accs - {id};
    forall k: nat, w ensures Locked(tab, accs', k, w) <==> Locked(tab, accs, k, w) && k != key {
      if Locked(tab, accs', k, w) {
        var i :| i in accs' && accs'[i] == w && Has(tab, Node(i, k));
        assert i in accs && accs[i] == w;
      }
      if Locked(tab, accs, k, w) && k != key {
        var i :| i in accs && accs[i] == w && Has(tab, Node(i, k));
        assert i in accs' && accs'[i] == w;
      }
    }
  }

  /** At the address is the only node with the key. */
  ghost predicate OnlyAt(tab: Table, id: nat, key: nat)
  {
    KeyAt(tab, id, key) && forall i :: Has(tab, Node(i, key)) ==> i == id
  }

  lemma LinkedOnly(tab: Table, id: nat)
    requires TableOk(tab) && Linked(tab, id)
    ensures OnlyAt(tab, id, KeyOf(tab, id))
  {
    var key := KeyOf(tab, id);
    LinkedHas(tab, id);
    FoundKey(tab, id, key);
    forall i | Has(tab, Node(i, key)) ensures i == id {
      OneNode(tab, Node(i, key), Node(id, key));
    }
  }

  lemma ReleaseHand(tab: Table, th: Thread, id: nat, key: nat, hand: map<nat, bool>)
    requires th.pc.Idle? && id in th.accs && OnlyAt(tab, id, key) && InHand(tab, th, hand)
    ensures InHand(tab, th.(accs := th.accs - {id}), hand - {key})
  {
    LockedLess(tab, th.accs, id, key);
    LessShows(hand, key);
  }

  lemma LessShows(hand: map<nat, bool>, key: nat)
    ensures forall k: nat, w :: Shows(hand - {key}, k, w) <==> Shows(hand, k, w) && k != key
  {
  }

  lemma ReleasedHands(s: State, t: nat, id: nat, key: nat, hands: Hands)
    requires KeysFree(s) && HandsAre(s, hands) && Enabled(s, Release(t, id)) && OnlyAt(s.tab, id, key)
    ensures HandsAre(Apply(s, Release(t, id)), hands[t := hands[t] - {key}]) && KeysFree(Apply(s, Release(t, id)))
  {
    ReleaseHand(s.tab, s.threads[t], id, key, hands[t]);
    HandsPut(s, Apply(s, Release(t, id)), t, hands, hands[t] - {key});
    KeysPut(s, Apply(s, Release(t, id)), t);
  }

  lemma AssignHands(s: State, t: nat, id: nat, val: Value, hands: Hands)
    requires KeysFree(s) && HandsAre(s, hands) && Enabled(s, Assign(t, id, val))
    ensures HandsAre(Apply(s, Assign(t, id, val)), hands) && KeysFree(Apply(s, Assign(t, id, val)))
  {
    assert forall u :: 0 <= u < |s.threads| ==> KeyFree(s.tab, s.threads[u]);
    assert forall u :: 0 <= u < |hands| ==> InHand(s.tab, s.threads[u], hands[u]);
  }

  lemma EmptyHanded(tab: Table, th: Thread, hand: map<nat, bool>)
    requires th.accs == map[] && th.pc.Idle?
    ensures InHand(tab, th, hand) <==> hand == map[]
    ensures KeyFree(tab, th)
  {
    if InHand(tab, th, hand) && hand != map[] {
      var key :| key in hand;
      assert Shows(hand, key, hand[key]);
    }
  }

  lemma ClearHands(s: State, hands: Hands)
    requires HandsAre(s, hands) && Enabled(s, Clear)
    ensures HandsAre(Apply(s, Clear), hands) && KeysFree(Apply(s, Clear))
    ensures forall t :: 0 <= t < |hands| ==> hands[t] == map[]
  {
    var s' := Apply(s, Clear);
    forall t | 0 <= t < |hands|
      ensures hands[t] == map[] && InHand(s'.tab, s'.threads[t], hands[t]) && KeyFree(s'.tab, s'.threads[t])
    {
      EmptyHanded(s.tab, s.threads[t], hands[t]);
      EmptyHanded(s'.tab, s'.threads[t], hands[t]);
    }
  }

  lemma StoppedHands(s: State, n: nat) returns (hands: Hands)
    requires s.threads == Stopped(n)
    ensures hands == seq(n, _ => map[]) && HandsAre(s, hands) && KeysFree(s)
  {
    hands := seq(n, _ => map[]);
    forall t | 0 <= t < |hands| ensures InHand(s.tab, s.threads[t], hands[t]) && KeyFree(s.tab, s.threads[t]) {
      EmptyHanded(s.tab, s.threads[t], hands[t]);
    }
  }

  // ---------- every action ----------

  /** Each action is a step of the atomic map, with what it shows. */
  lemma AtomicSim(s: State, a: Action, at: Atomic) returns (at': Atomic)
    requires Inv(s) && Delivered(s) && Shown(s, at) && Enabled(s, a)
    ensures AtomicNext(at, LabelOf(s, a), at') && Shown(Apply(s, a), at')
  {
    var sp' := ActionSim(s, a, at.book);
    var hands' := ActionHands(s, a, at.book, sp', at.hands);
    at' := Atomic(sp', hands');
  }

  lemma ActionHands(s: State, a: Action, sp: Spec, sp': Spec, hands: Hands) returns (hands': Hands)
    requires Inv(s) && KeysFree(s) && HandsAre(s, hands) && Represents(s, sp) && Enabled(s, a)
    requires Represents(Apply(s, a), sp') && SpecNext(sp, LabelOf(s, a), sp')
    ensures HandsStep(Apply(s, a), LabelOf(s, a), sp, sp', hands, hands')
  {
    if a.Run? || a.Alloc? {
      hands' := StepHands(s, a, sp, sp', hands);
    } else {
      assert a.Drop? ==> Shape(s.threads[a.t]);
      hands' := OtherHands(s, a, sp, sp', hands);
    }
  }

  lemma OtherHands(s: State, a: Action, sp: Spec, sp': Spec, hands: Hands) returns (hands': Hands)
    requires TableOk(s.tab) && ValsOk(s) && AccsLinked(s) && PrivateOk(s)
    requires KeysFree(s) && HandsAre(s, hands) && Represents(s, sp) && Enabled(s, a) && !a.Run? && !a.Alloc?
    requires Represents(Apply(s, a), sp') && SpecNext(sp, LabelOf(s, a), sp') && (a.Drop? ==> OpOk(s.threads[a.t]))
    ensures HandsStep(Apply(s, a), LabelOf(s, a), sp, sp', hands, hands')
  {
    if a.Clear? || a.Crash? {
      hands' := WholeHands(s, a, sp, sp', hands);
    } else if a.Release? || a.Load? || a.Assign? {
      hands' := ClientHands(s, a, sp, sp', hands);
    } else {
      hands' := hands;
      CallHands(s, a, sp, sp', hands);
    }
  }

  lemma StepHands(s: State, a: Action, sp: Spec, sp': Spec, hands: Hands) returns (hands': Hands)
    requires Inv(s) && KeysFree(s) && HandsAre(s, hands) && Represents(s, sp) && Enabled(s, a) && (a.Run? || a.Alloc?)
    requires Represents(Apply(s, a), sp') && SpecNext(sp, Silent, sp')
    ensures HandsStep(Apply(s, a), Silent, sp, sp', hands, hands')
  {
    match a
    case Run(t) => hands' := RunHands(s, t, sp, sp', hands);
    case Alloc(t, id) => hands' := AllocHands(s, t, id, sp, sp', hands);
  }

  /** The start and the end of operations, and what leaves a bucket. */
  lemma CallHands(s: State, a: Action, sp: Spec, sp': Spec, hands: Hands)
    requires ValsOk(s) && AccsLinked(s) && PrivateOk(s)
    requires KeysFree(s) && HandsAre(s, hands) && Represents(s, sp) && Enabled(s, a)
    requires a.Invoke? || a.GiveUp? || a.Drop? || a.Respond?
    requires Represents(Apply(s, a), sp') && SpecNext(sp, LabelOf(s, a), sp') && (a.Drop? ==> OpOk(s.threads[a.t]))
    ensures HandsStep(Apply(s, a), LabelOf(s, a), sp, sp', hands, hands)
  {
    match a
    case Invoke(t, op) => InvokeHands(s, t, op, sp, sp', hands);
    case GiveUp(t) => GiveUpHands(s, t, sp, sp', hands);
    case Drop(t) => DropHands(s, t, sp, sp', hands);
    case Respond(t) => RespondHands(s, t, sp, sp', hands);
  }

  lemma WholeHands(s: State, a: Action, sp: Spec, sp': Spec, hands: Hands) returns (hands': Hands)
    requires HandsAre(s, hands) && Represents(s, sp) && Enabled(s, a) && (a.Clear? || a.Crash?)
    ensures HandsStep(Apply(s, a), if a.Clear? then Wiped else Restarted, sp, sp', hands, hands')
  {
    hands' := hands;
    if a.Clear? {
      ClearHands(s, hands);
    } else {
      hands' := StoppedHands(Apply(s, a), |s.threads|);
    }
  }

  /** The item of an accessor, its key, and its place in the thread's hands. */
  lemma AccessorFacts(s: State, t: nat, id: nat, hands: Hands)
    requires TableOk(s.tab) && ValsOk(s) && AccsLinked(s) && HandsAre(s, hands)
    requires t < |s.threads| && s.threads[t].pc.Idle? && id in s.threads[t].accs
    ensures Linked(s.tab, id) && OnlyAt(s.tab, id, KeyOf(s.tab, id))
    ensures Shows(hands[t], KeyOf(s.tab, id), s.threads[t].accs[id])
  {
    assert id in s.vals;
    LinkedOnly(s.tab, id);
    IdleShows(s, t, id, hands);
  }

  /** What clients do with their accessors. */
  lemma ClientHands(s: State, a: Action, sp: Spec, sp': Spec, hands: Hands) returns (hands': Hands)
    requires TableOk(s.tab) && ValsOk(s) && AccsLinked(s)
    requires KeysFree(s) && HandsAre(s, hands) && Represents(s, sp) && Enabled(s, a)
    requires a.Release? || a.Load? || a.Assign?
    ensures HandsStep(Apply(s, a), LabelOf(s, a), sp, sp', hands, hands')
  {
    AccessorFacts(s, a.t, a.id, hands);
    hands' := AccessorHands(s, a, KeyOf(s.tab, a.id), sp, sp', hands);
  }

  lemma AccessorHands(s: State, a: Action, key: nat, sp: Spec, sp': Spec, hands: Hands) returns (hands': Hands)
    requires ValsOk(s) && AccsLinked(s) && KeysFree(s) && HandsAre(s, hands) && Represents(s, sp) && Enabled(s, a)
    requires (a.Release? || a.Load? || a.Assign?) && Linked(s.tab, a.id) && key == KeyOf(s.tab, a.id)
    requires OnlyAt(s.tab, a.id, key) && Shows(hands[a.t], key, s.threads[a.t].accs[a.id])
    ensures HandsStep(Apply(s, a), LabelOf(s, a), sp, sp', hands, hands')
  {
    hands' := hands;
    match a
    case Release(t, id) =>
      ReleaseStep(s, t, id, key, sp, sp', hands);
      hands' := hands[t := hands[t] - {key}];
    case Load(t, id) => LoadStep(s, t, id, key, s.vals[id], sp, sp', hands);
    case Assign(t, id, val) => AssignStep(s, t, id, key, val, sp, sp', hands);
  }

  lemma ReleaseStep(s: State, t: nat, id: nat, key: nat, sp: Spec, sp': Spec, hands: Hands)
    requires KeysFree(s) && HandsAre(s, hands) && Represents(s, sp) && Enabled(s, Release(t, id))
    requires OnlyAt(s.tab, id, key) && key in hands[t]
    ensures HandsStep(Apply(s, Release(t, id)), Released(t, key), sp, sp', hands, hands[t := hands[t] - {key}])
  {
    ReleasedHands(s, t, id, key, hands);
  }

  lemma LoadStep(s: State, t: nat, id: nat, key: nat, val: Value, sp: Spec, sp': Spec, hands: Hands)
    requires KeysFree(s) && HandsAre(s, hands) && Represents(s, sp) && Enabled(s, Load(t, id)) && key in hands[t]
    ensures HandsStep(Apply(s, Load(t, id)), Loaded(t, key, val), sp, sp', hands, hands)
  {
  }

  lemma AssignStep(s: State, t: nat, id: nat, key: nat, val: Value, sp: Spec, sp': Spec, hands: Hands)
    requires KeysFree(s) && HandsAre(s, hands) && Represents(s, sp) && Enabled(s, Assign(t, id, val))
    requires key in hands[t] && hands[t][key] == s.threads[t].accs[id]
    ensures HandsStep(Apply(s, Assign(t, id, val)), Stored(t, key, val), sp, sp', hands, hands)
  {
    AssignHands(s, t, id, val, hands);
  }

  // ---------- whole runs ----------

  ghost function Labels(s: State, acts: seq<Action>): seq<Label>
    requires Inv(s) && CanRun(s, acts)
    decreases |acts|
  {
    if acts == [] then []
    else
      ActionInv(s, acts[0]);
      [LabelOf(s, acts[0])] + Labels(Apply(s, acts[0]), acts[1..])
  }

  /** The atomic map can go through the states ats while showing labels. */
  ghost predicate Explains(ats: seq<Atomic>, labels: seq<Label>)
  {
    |ats| == |labels| + 1 && forall k :: 0 <= k < |labels| ==> AtomicNext(ats[k], labels[k], ats[k + 1])
  }

  lemma {:induction false} RunExplained(s: State, acts: seq<Action>, at: Atomic) returns (ats: seq<Atomic>)
    requires Inv(s) && Delivered(s) && Shown(s, at) && CanRun(s, acts)
    ensures ats != [] && ats[0] == at && Explains(ats, Labels(s, acts))
    ensures Shown(After(s, acts), ats[|ats| - 1])
    decreases |acts|
  {
    if acts == [] {
      ats := [at];
    } else {
      ActionInv(s, acts[0]);
      DeliveredStep(s, acts[0]);
      var at' := AtomicSim(s, acts[0], at);
      var rest := RunExplained(Apply(s, acts[0]), acts[1..], at');
      ats := [at] + rest;
      ExplainsCons(at, LabelOf(s, acts[0]), rest, Labels(Apply(s, acts[0]), acts[1..]));
    }
  }

  lemma ExplainsCons(at: Atomic, l: Label, rest: seq<Atomic>, labels: seq<Label>)
    requires rest != [] && AtomicNext(at, l, rest[0]) && Explains(rest, labels)
    ensures Explains([at] + rest, [l] + labels)
  {
    var ats := [at] + rest;
    forall k | 0 <= k < |labels| + 1 ensures AtomicNext(ats[k], ([l] + labels)[k], ats[k + 1]) {
      if k > 0 {
        assert AtomicNext(rest[k - 1], labels[k - 1], rest[k]);
      }
    }
  }

  /** In a run of the atomic map no thread ever holds a key that is not there, or that another holds exclusively. */
  lemma {:induction false} ExplainedOk(ats: seq<Atomic>, labels: seq<Label>, k: nat)
    requires Explains(ats, labels) && AtomicOk(ats[0]) && k < |ats|
    ensures AtomicOk(ats[k])
  {
    if k > 0 {
      ExplainedOk(ats, labels, k - 1);
      assert AtomicNext(ats[k - 1], labels[k - 1], ats[k]);
      HandsStay(ats[k - 1].book, labels[k - 1], ats[k].book, ats[k - 1].hands, ats[k].hands);
    }
  }

  /** The states ats of the atomic map account for the run acts of the system from s. */
  ghost predicate Accounts(ats: seq<Atomic>, s: State, acts: seq<Action>)
    requires Inv(s) && CanRun(s, acts)
  {
    && |ats| == |acts| + 1
    && Explains(ats, Labels(s, acts))
    && Shown(After(s, acts), ats[|acts|])
  }

  /** Every run is a run of the atomic map, from any state that shows one of its states. */
  lemma LinearizableFrom(s: State, acts: seq<Action>, at: Atomic)
    requires Inv(s) && Delivered(s) && Shown(s, at) && CanRun(s, acts)
    ensures exists ats :: Accounts(ats, s, acts) && ats[0] == at
  {
    var ats := RunExplained(s, acts, at);
    LabelsLength(s, acts);
    assert Accounts(ats, s, acts);
  }

  /**
    Every run of a fresh map is a run of the atomic map, starting empty with no call pending and
    nothing in anybody's hands.
   */
  lemma Linearizable(hash: nat -> nat, n: nat, acts: seq<Action>)
    requires CanRun(Initial(hash, n), acts)
    ensures Inv(Initial(hash, n))
    ensures exists ats ::
      && Accounts(ats, Initial(hash, n), acts) && ats[0] == Fresh(n)
      && forall k :: 0 <= k < |ats| ==> AtomicOk(ats[k])
  {
    var s := Initial(hash, n);
    InitialInv(hash, n);
    InitialDelivered(hash, n);
    InitialRepresents(hash, n);
    var hands := StoppedHands(s, n);
    var ats := RunExplained(s, acts, Fresh(n));
    LabelsLength(s, acts);
    forall k | 0 <= k < |ats| ensures AtomicOk(ats[k]) {
      ExplainedOk(ats, Labels(s, acts), k);
    }
    assert Accounts(ats, s, acts);
  }

  lemma InitialRepresents(hash: nat -> nat, n: nat)
    ensures Represents(Initial(hash, n), Spec(map[], seq(n, _ => Resting)))
  {
    assert forall i: nat :: Chain(Initial(hash, n).tab, i) == [];
  }

  lemma {:induction false} LabelsLength(s: State, acts: seq<Action>)
    requires Inv(s) && CanRun(s, acts)
    ensures |Labels(s, acts)| == |acts|
    decreases |acts|
  {
    if acts != [] {
      ActionInv(s, acts[0]);
      LabelsLength(Apply(s, acts[0]), acts[1..]);
    }
  }
}
