/**
  The items that the threads have locked, as the atomic map sees them: a key is handed over when the
  operation takes effect and stays with the thread until it releases it. Between two operations a
  thread holds exactly what it was handed and has not released.
 */
module MapHandles {
  import opened Wrappers
  import opened ChainSplit
  import opened MapState
  import opened MapInvariant
  import opened MapFrame
  import opened MapItems
  import opened MapLocks
  import opened MapNodes
  import opened MapReturns
  import opened MapLinearize

  // ---------- the atomic map ----------

  /** For each thread the keys whose items it holds, and whether exclusively. */
  type Hands = seq<map<nat, bool>>

  function Grasped(hand: map<nat, bool>, key: nat, write: bool): map<nat, bool>
  {
    hand[key := write]
  }

  /** Nobody's hold on the key excludes that of thread t. */
  ghost predicate Grantable(hands: Hands, t: nat, key: nat, write: bool)
    requires t < |hands|
  {
    key !in hands[t] && forall u :: 0 <= u < |hands| && key in hands[u] ==> !write && !hands[u][key]
  }

  /** An operation takes effect: find and insert hand over an item, a key that is erased is in nobody's hands. */
  ghost predicate Takes(op: Op, result: bool, hands: Hands, t: nat, hands': Hands)
    requires t < |hands|
  {
    && (op.Erase? && result ==> forall u :: 0 <= u < |hands| ==> op.key !in hands[u])
    && match Given(op, result)
       case None => hands' == hands
       case Some(item) =>
         Grantable(hands, t, item.key, item.write) && hands' == hands[t := Grasped(hands[t], item.key, item.write)]
  }

  ghost predicate HandsNext(a: Spec, l: Label, b: Spec, hands: Hands, hands': Hands)
    requires |hands| == |a.calls|
  {
    match l
    case Silent =>
      || (b == a && hands' == hands)
      || exists t: nat :: TakesEffect(a, b, t) && b.calls[t].Done? && Takes(b.calls[t].op, b.calls[t].result, hands, t, hands')
    case Called(t, op) => hands' == hands && t < |hands| && (!op.Visit? ==> op.key !in hands[t])
    case Returned(t, _, item) =>
      hands' == hands && (item.Some? ==> t < |hands| && item.value.key in hands[t] && hands[t][item.value.key] == item.value.write)
    case Released(t, key) => t < |hands| && key in hands[t] && hands' == hands[t := hands[t] - {key}]
    case Loaded(t, key, _) => t < |hands| && key in hands[t] && hands' == hands
    case Stored(t, key, _) => t < |hands| && key in hands[t] && hands[t][key] && hands' == hands
    case Wiped => hands' == hands && forall t :: 0 <= t < |hands| ==> hands[t] == map[]
    case Restarted => |hands'| == |hands| && forall t :: 0 <= t < |hands'| ==> hands'[t] == map[]
  }

  /** No thread holds a key that is not in the map, or one that another thread holds exclusively. */
  ghost predicate HandsOk(a: Spec, hands: Hands)
  {
    && |hands| == |a.calls|
    && (forall t, key :: 0 <= t < |hands| && key in hands[t] ==> key in a.data)
    && (forall t, u, key :: 0 <= t < |hands| && 0 <= u < |hands| && t != u && key in hands[t] && key in hands[u] ==>
          !hands[t][key] && !hands[u][key])
  }

  /** The atomic map keeps that. */
  lemma HandsStay(a: Spec, l: Label, b: Spec, hands: Hands, hands': Hands)
    requires HandsOk(a, hands) && SpecNext(a, l, b) && HandsNext(a, l, b, hands, hands')
    ensures HandsOk(b, hands')
  {
    if l.Silent? && !(b == a && hands' == hands) {
      var t: nat :| TakesEffect(a, b, t) && b.calls[t].Done? && Takes(b.calls[t].op, b.calls[t].result, hands, t, hands');
      EffectStays(a, b, t, hands, hands');
    }
  }

  lemma EffectStays(a: Spec, b: Spec, t: nat, hands: Hands, hands': Hands)
    requires HandsOk(a, hands) && TakesEffect(a, b, t)
    requires b.calls[t].Done? && Takes(b.calls[t].op, b.calls[t].result, hands, t, hands')
    ensures HandsOk(b, hands')
  {
    var op, result := b.calls[t].op, b.calls[t].result;
    assert Given(op, result).Some? ==> Given(op, result).value.key in b.data;
    assert forall key :: key in a.data && !(op.Erase? && result && key == op.key) ==> key in b.data;
  }

  // ---------- what a state of the system means ----------

  /** An insert has linked its node and is about to lock it for its caller. */
  predicate Promised(th: Thread)
  {
    (th.pc.BumpSize? || th.pc.TryItem?) && th.op.Insert? && th.inserted && !th.op.item.NoItem?
  }

  /** The items a thread has locked, without the one that an erase locks for a moment. */
  function Settled(th: Thread): map<nat, bool>
  {
    if th.pc.DropItem? then th.accs - {th.found} else th.accs
  }

  ghost predicate Locked(tab: Table, accs: map<nat, bool>, key: nat, write: bool)
  {
    exists id :: id in accs && accs[id] == write && Has(tab, Node(id, key))
  }

  ghost predicate Holds(tab: Table, th: Thread, key: nat, write: bool)
  {
    Locked(tab, Settled(th), key, write) || (Promised(th) && key == th.op.key && write == th.op.item.WriteItem?)
  }

  predicate Shows(hand: map<nat, bool>, key: nat, write: bool)
  {
    key in hand && hand[key] == write
  }

  ghost predicate InHand(tab: Table, th: Thread, hand: map<nat, bool>)
  {
    forall key: nat, write :: Shows(hand, key, write) <==> Holds(tab, th, key, write)
  }

  ghost predicate HandsAre(s: State, hands: Hands)
  {
    |hands| == |s.threads| && forall u :: 0 <= u < |hands| ==> InHand(s.tab, s.threads[u], hands[u])
  }

  /** The operation has not taken effect. */
  predicate Underway(th: Thread)
  {
    !th.pc.Idle? && !th.op.Visit? && !Committed(th)
  }

  /** A thread holds no item of the key it is working on. */
  ghost predicate KeyFree(tab: Table, th: Thread)
  {
    Underway(th) ==> forall id :: id in Settled(th) ==> !Has(tab, Node(id, OpKey(th.op)))
  }

  ghost predicate KeysFree(s: State)
  {
    forall u :: 0 <= u < |s.threads| ==> KeyFree(s.tab, s.threads[u])
  }

  // ---------- what stays in hand ----------

  /** A change of a thread and of the table that leaves what the thread holds as it is. */
  ghost predicate SameGrip(tab: Table, tab': Table, th: Thread, th': Thread)
  {
    && Settled(th') == Settled(th) && Promised(th') == Promised(th) && (Promised(th) ==> th'.op == th.op)
    && (forall id, key: nat :: id in th.accs ==> (Has(tab', Node(id, key)) <==> Has(tab, Node(id, key))))
  }

  lemma GripKept(tab: Table, tab': Table, th: Thread, th': Thread, hand: map<nat, bool>)
    requires SameGrip(tab, tab', th, th') && InHand(tab, th, hand)
    ensures InHand(tab', th', hand)
  {
    forall key: nat, write ensures Locked(tab', Settled(th), key, write) <==> Locked(tab, Settled(th), key, write) {
      if Locked(tab, Settled(th), key, write) {
        var id :| id in Settled(th) && Settled(th)[id] == write && Has(tab, Node(id, key));
        assert Has(tab', Node(id, key));
      }
      if Locked(tab', Settled(th), key, write) {
        var id :| id in Settled(th) && Settled(th)[id] == write && Has(tab', Node(id, key));
        assert Has(tab, Node(id, key));
      }
    }
    assert forall key: nat, write :: Holds(tab', th', key, write) <==> Holds(tab, th, key, write);
  }

  /** ... and a thread still holds no item of its key. */
  lemma KeyFreeKept(tab: Table, tab': Table, th: Thread, th': Thread)
    requires SameGrip(tab, tab', th, th') && KeyFree(tab, th)
    requires Underway(th') ==> Underway(th) && OpKey(th'.op) == OpKey(th.op)
    ensures KeyFree(tab', th')
  {
  }

  /** The items of another thread stay where they are in a step of thread t. */
  lemma OtherGrip(s: State, t: nat, u: nat)
    requires Base(s) && PrivateOk(s) && t < |s.threads| && u < |s.threads| && RunEnabled(s, t)
    ensures SameGrip(s.tab, RunThread(s, t).tab, s.threads[u], s.threads[u])
  {
    forall id, key: nat | id in s.threads[u].accs
      ensures Has(RunThread(s, t).tab, Node(id, key)) <==> Has(s.tab, Node(id, key))
    {
      assert s.threads[t].pc.EraseTx? ==> Private(s.threads[t]);
      RunHas(s, t, Node(id, key));
    }
  }

  /** One thread moves to a new record and the others keep their grip. */
  lemma HandsPut(s: State, s': State, t: nat, hands: Hands, hand: map<nat, bool>)
    requires HandsAre(s, hands) && t < |s.threads| && OneThread(s, s', t)
    requires forall u :: 0 <= u < |s.threads| && u != t ==> SameGrip(s.tab, s'.tab, s.threads[u], s.threads[u])
    requires InHand(s'.tab, s'.threads[t], hand)
    ensures HandsAre(s', hands[t := hand])
  {
    forall u | 0 <= u < |hands| ensures InHand(s'.tab, s'.threads[u], hands[t := hand][u]) {
      if u != t {
        GripKept(s.tab, s'.tab, s.threads[u], s.threads[u], hands[u]);
      }
    }
  }

  lemma KeysPut(s: State, s': State, t: nat)
    requires KeysFree(s) && t < |s.threads| && OneThread(s, s', t)
    requires forall u :: 0 <= u < |s.threads| && u != t ==> SameGrip(s.tab, s'.tab, s.threads[u], s.threads[u])
    requires KeyFree(s'.tab, s'.threads[t])
    ensures KeysFree(s')
  {
    forall u | 0 <= u < |s'.threads| ensures KeyFree(s'.tab, s'.threads[u]) {
      if u != t {
        KeyFreeKept(s.tab, s'.tab, s.threads[u], s.threads[u]);
      }
    }
  }

  // ---------- steps that leave the items alone ----------

  lemma OwnGrip(s: State, t: nat)
    requires t < |s.threads| && RunEnabled(s, t) && !s.threads[t].pc.TryItem? && !s.threads[t].pc.DropItem?
    requires OpOk(s.threads[t]) && RetryOk(s.threads[t])
    ensures var th, th' := s.threads[t], RunThread(s, t).threads[t];
      && Settled(th') == Settled(th) && Promised(th') == Promised(th) && th'.op == th.op
      && (Underway(th') ==> Underway(th))
  {
    if Acquiring(s.threads[t].pc) {
      AcquireFrameOk(s, t);
    } else if HasBase(s.threads[t].pc) {
      OperationGrip(s, t);
    } else {
      OutsideFrameOk(s, t);
    }
  }

  lemma OperationGrip(s: State, t: nat)
    requires t < |s.threads| && RunEnabled(s, t) && HasBase(s.threads[t].pc)
    requires !s.threads[t].pc.TryItem? && !s.threads[t].pc.DropItem?
    requires OpOk(s.threads[t]) && RetryOk(s.threads[t])
    ensures var th, th' := s.threads[t], RunOperation(s, t).threads[t];
      && Settled(th') == Settled(th) && Promised(th') == Promised(th) && th'.op == th.op
      && (Underway(th') ==> Underway(th))
  {
    if Looking(s.threads[t].pc) {
      LookFrameOk(s, t);
      LookUnderway(s, t);
    }
  }

  lemma LookUnderway(s: State, t: nat)
    requires t < |s.threads| && RunEnabled(s, t) && Looking(s.threads[t].pc) && OpOk(s.threads[t])
    ensures Underway(RunOperation(s, t).threads[t]) ==> Underway(s.threads[t])
  {
  }

  /** The grip of the thread that takes such a step, too. */
  lemma OwnSameGrip(s: State, t: nat)
    requires Base(s) && PrivateOk(s) && t < |s.threads| && RunEnabled(s, t)
    requires !s.threads[t].pc.TryItem? && !s.threads[t].pc.DropItem?
    ensures var th, th' := s.threads[t], RunThread(s, t).threads[t];
      && SameGrip(s.tab, RunThread(s, t).tab, th, th') && th'.op == th.op && (Underway(th') ==> Underway(th))
  {
    assert Shape(s.threads[t]);
    OwnGrip(s, t);
    OtherGrip(s, t, t);
  }

  // ---------- taking an item ----------

  /** The node behind a key in hand. */
  lemma HeldNode(tab: Table, th: Thread, key: nat, write: bool) returns (id: nat)
    requires ThreadOk(tab, th) && Holds(tab, th, key, write)
    ensures Has(tab, Node(id, key))
    ensures (id in th.accs && th.accs[id] == write) || (Promised(th) && id == th.found)
  {
    if Locked(tab, Settled(th), key, write) {
      id :| id in Settled(th) && Settled(th)[id] == write && Has(tab, Node(id, key));
    } else {
      id := th.found;
      TargetLinked(tab, th);
    }
  }

  /** The item about to be locked is not in the thread's hands. */
  lemma FoundUnheld(s: State, t: nat)
    requires PrivateOk(s) && t < |s.threads| && s.threads[t].pc.TryItem?
    requires ThreadOk(s.tab, s.threads[t]) && KeyFree(s.tab, s.threads[t])
    ensures s.threads[t].found !in s.threads[t].accs
  {
    var th := s.threads[t];
    TargetLinked(s.tab, th);
    assert Has(s.tab, Node(th.found, OpKey(th.op)));
    assert th.op.Insert? && th.inserted ==> Private(th);
  }

  /** The key of the node at an address. */
  ghost predicate KeyAt(tab: Table, id: nat, key: nat)
  {
    forall k: nat :: Has(tab, Node(id, k)) <==> k == key
  }

  lemma FoundKey(tab: Table, id: nat, key: nat)
    requires TableOk(tab) && Has(tab, Node(id, key))
    ensures KeyAt(tab, id, key)
  {
    forall k: nat | Has(tab, Node(id, k)) ensures k == key {
      OneNode(tab, Node(id, k), Node(id, key));
    }
  }

  /** One more item. */
  lemma LockedMore(tab: Table, accs: map<nat, bool>, id: nat, key: nat, write: bool)
    requires id !in accs && KeyAt(tab, id, key)
    ensures forall k: nat, w :: Locked(tab, accs[id := write], k, w) <==> Locked(tab, accs, k, w) || (k == key && w == write)
  {
    var accs' := accs[id := write];
    forall k: nat, w ensures Locked(tab, accs', k, w) <==> Locked(tab, accs, k, w) || (k == key && w == write) {
      if Locked(tab, accs', k, w) {
        var i :| i in accs' && accs'[i] == w && Has(tab, Node(i, k));
        assert i != id ==> i in accs;
      }
      if Locked(tab, accs, k, w) {
        var i :| i in accs && accs[i] == w && Has(tab, Node(i, k));
        assert i in accs' && accs'[i] == w;
      }
      if k == key && w == write {
        assert id in accs' && Has(tab, Node(id, key));
      }
    }
  }

  lemma TakeInserted(tab: Table, th: Thread, hand: map<nat, bool>)
    requires th.pc.TryItem? && th.op.Insert? && th.inserted && !th.op.item.NoItem?
    requires th.found !in th.accs && KeyAt(tab, th.found, th.op.key) && InHand(tab, th, hand)
    requires Took(th, th.op.item.WriteItem?)
    ensures InHand(tab, TookItem(th), hand)
  {
    LockedMore(tab, th.accs, th.found, th.op.key, th.op.item.WriteItem?);
    SettledTook(th, th.op.item.WriteItem?);
    assert forall key: nat, write :: Holds(tab, TookItem(th), key, write) <==> Holds(tab, th, key, write);
  }

  lemma TakeFound(tab: Table, th: Thread, hand: map<nat, bool>)
    requires th.pc.TryItem? && (th.op.Find? || (th.op.Insert? && !th.inserted)) && !th.op.item.NoItem?
    requires th.found !in th.accs && KeyAt(tab, th.found, th.op.key) && InHand(tab, th, hand)
    requires th.op.key !in hand && Took(th, th.op.item.WriteItem?)
    ensures InHand(tab, TookItem(th), Grasped(hand, th.op.key, th.op.item.WriteItem?))
  {
    LockedMore(tab, th.accs, th.found, th.op.key, th.op.item.WriteItem?);
    SettledTook(th, th.op.item.WriteItem?);
    TookHolds(tab, th, th.op.item.WriteItem?);
    GraspedIs(hand, th.op.key, th.op.item.WriteItem?);
  }

  lemma TookHolds(tab: Table, th: Thread, write: bool)
    requires th.pc.TryItem? && !Promised(th) && !Promised(TookItem(th)) && Settled(th) == th.accs
    requires th.op.Find? || th.op.Insert?
    requires forall k: nat, w :: Locked(tab, Settled(TookItem(th)), k, w) <==> Locked(tab, th.accs, k, w) || (k == th.op.key && w == write)
    ensures forall k: nat, w :: Holds(tab, TookItem(th), k, w) <==> Holds(tab, th, k, w) || (k == th.op.key && w == write)
  {
  }

  lemma GraspedIs(hand: map<nat, bool>, key: nat, write: bool)
    requires key !in hand
    ensures forall k: nat, w :: Shows(Grasped(hand, key, write), k, w) <==> Shows(hand, k, w) || (k == key && w == write)
  {
  }

  /** The item is locked in this mode. */
  predicate Took(th: Thread, write: bool)
  {
    TookItem(th).accs == th.accs[th.found := write]
  }

  lemma SettledTook(th: Thread, write: bool)
    requires th.pc.TryItem? && (th.op.Find? || th.op.Insert?) && Took(th, write)
    ensures Settled(th) == th.accs && Settled(TookItem(th)) == th.accs[th.found := write]
    ensures Promised(TookItem(th)) == false && TookItem(th).op == th.op
  {
  }

  /** An erase locks its item and unlocks it again. */
  lemma TakeErase(tab: Table, th: Thread, hand: map<nat, bool>)
    requires th.pc.TryItem? && th.op.Erase? && th.found !in th.accs && InHand(tab, th, hand)
    ensures InHand(tab, TookItem(th), hand)
  {
    assert Settled(TookItem(th)) == th.accs;
    assert forall key: nat, write :: Holds(tab, TookItem(th), key, write) <==> Holds(tab, th, key, write);
  }

  lemma DropGrip(tab: Table, th: Thread)
    requires th.pc.DropItem?
    ensures SameGrip(tab, tab, th, th.(pc := EraseTx, accs := th.accs - {th.found}))
  {
  }

  // ---------- what others may hold ----------

  /** A key that the map does not have is in nobody's hands. */
  lemma HeldInData(s: State, hands: Hands, data: map<nat, Value>, key: nat)
    requires ThreadsOk(s) && HandsAre(s, hands) && Means(s.tab, s.vals, data) && key !in data
    ensures forall u :: 0 <= u < |hands| ==> key !in hands[u]
  {
    forall u | 0 <= u < |hands| ensures key !in hands[u] {
      if key in hands[u] {
        assert ThreadOk(s.tab, s.threads[u]) && Shows(hands[u], key, hands[u][key]);
        var id := HeldNode(s.tab, s.threads[u], key, hands[u][key]);
      }
    }
  }

  /** A key in the hands of thread u, whose node thread t works on. */
  lemma HeldTarget(s: State, t: nat, u: nat, key: nat, write: bool)
    requires Base(s) && t < |s.threads| && u < |s.threads| && Targets(s.threads[t]) && OpKey(s.threads[t].op) == key
    requires !Promised(s.threads[t]) && (s.threads[t].pc.EraseTx? ==> s.threads[t].op.Erase?)
    requires Holds(s.tab, s.threads[u], key, write)
    ensures s.threads[t].found in s.threads[u].accs && s.threads[u].accs[s.threads[t].found] == write
  {
    assert ThreadOk(s.tab, s.threads[t]) && ThreadOk(s.tab, s.threads[u]);
    TargetLinked(s.tab, s.threads[t]);
    var id := HeldNode(s.tab, s.threads[u], key, write);
    OneNode(s.tab, Node(id, key), Node(s.threads[t].found, key));
    if Promised(s.threads[u]) && id == s.threads[u].found && !(id in s.threads[u].accs && s.threads[u].accs[id] == write) {
      SameTarget(s, t, u);
    }
  }

  /** An item that can be locked can be handed over. */
  lemma FreeGrantable(s: State, t: nat, hands: Hands)
    requires Base(s) && HandsAre(s, hands) && t < |s.threads| && s.threads[t].pc.TryItem?
    requires !Promised(s.threads[t]) && KeyFree(s.tab, s.threads[t]) && Underway(s.threads[t])
    requires ItemFree(s, s.threads[t].found, ItemWrite(s.threads[t].op))
    ensures Grantable(hands, t, OpKey(s.threads[t].op), ItemWrite(s.threads[t].op))
  {
    var th := s.threads[t];
    var key := OpKey(th.op);
    forall u | 0 <= u < |hands| && key in hands[u] ensures u != t && !ItemWrite(th.op) && !hands[u][key] {
      assert InHand(s.tab, s.threads[u], hands[u]) && Shows(hands[u], key, hands[u][key]);
      HeldTarget(s, t, u, key, hands[u][key]);
      assert ThreadOk(s.tab, th);
      TargetLinked(s.tab, th);
      assert Has(s.tab, Node(th.found, key));
    }
  }

  /** Nobody holds the key that is about to be erased. */
  lemma ErasedUnheld(s: State, t: nat, hands: Hands)
    requires Base(s) && PrivateOk(s) && HandsAre(s, hands) && t < |s.threads| && s.threads[t].pc.EraseTx?
    ensures s.threads[t].op.Erase? && forall u :: 0 <= u < |hands| ==> s.threads[t].op.key !in hands[u]
  {
    var th := s.threads[t];
    assert ThreadOk(s.tab, th);
    EraseTxErases(th);
    forall u | 0 <= u < |hands| ensures th.op.key !in hands[u] {
      if th.op.key in hands[u] {
        assert InHand(s.tab, s.threads[u], hands[u]) && Shows(hands[u], th.op.key, hands[u][th.op.key]);
        HeldTarget(s, t, u, th.op.key, hands[u][th.op.key]);
        assert Private(th);
      }
    }
  }

  // ---------- the steps ----------

  /** A step of thread t either leaves the atomic map alone, or is the effect of the call of that thread. */
  lemma EffectOf(s: State, s': State, t: nat, sp: Spec, sp': Spec)
    requires Represents(s, sp) && Represents(s', sp') && t < |s.threads| && OneThread(s, s', t)
    requires SpecNext(sp, Silent, sp')
    ensures if CallOf(s'.threads[t]) == CallOf(s.threads[t]) then sp' == sp
            else TakesEffect(sp, sp', t) && sp'.calls[t] == CallOf(s'.threads[t])
  {
    if sp' != sp {
      var u: nat :| TakesEffect(sp, sp', u);
      assert sp.calls[u] != sp'.calls[u];
    }
  }

  /** A step of one thread, with the hands afterwards, as a step of the atomic map. */
  lemma HandsEffect(s: State, s': State, t: nat, sp: Spec, sp': Spec, hands: Hands, hands': Hands)
    requires Represents(s, sp) && Represents(s', sp') && t < |s.threads| && OneThread(s, s', t)
    requires SpecNext(sp, Silent, sp') && |hands| == |sp.calls|
    requires if CallOf(s'.threads[t]) == CallOf(s.threads[t]) then hands' == hands
             else CallOf(s'.threads[t]).Done? && Takes(s'.threads[t].op, s'.threads[t].result, hands, t, hands')
    ensures HandsNext(sp, Silent, sp', hands, hands')
  {
    EffectOf(s, s', t, sp, sp');
  }

  /** A step of a thread moves its own record only; here the others keep their grip. */
  lemma RunHandsPut(s: State, t: nat, hands: Hands, hand: map<nat, bool>)
    requires Base(s) && PrivateOk(s) && KeysFree(s) && HandsAre(s, hands) && t < |s.threads| && RunEnabled(s, t)
    requires t < |RunThread(s, t).threads|
    requires InHand(RunThread(s, t).tab, RunThread(s, t).threads[t], hand)
    requires KeyFree(RunThread(s, t).tab, RunThread(s, t).threads[t])
    ensures HandsAre(RunThread(s, t), hands[t := hand]) && KeysFree(RunThread(s, t))
  {
    RunOneThread(s, t);
    forall u | 0 <= u < |s.threads| && u != t
      ensures SameGrip(s.tab, RunThread(s, t).tab, s.threads[u], s.threads[u])
    {
      OtherGrip(s, t, u);
    }
    HandsPut(s, RunThread(s, t), t, hands, hand);
    KeysPut(s, RunThread(s, t), t);
  }

  /** An operation that takes effect without locking an item has none to hand over. */
  lemma QuietGives(s: State, t: nat)
    requires t < |s.threads| && RunEnabled(s, t) && !s.threads[t].pc.TryItem? && !s.threads[t].pc.DropItem?
    requires OpOk(s.threads[t]) && RetryOk(s.threads[t]) && t < |RunThread(s, t).threads|
    requires CallOf(RunThread(s, t).threads[t]) != CallOf(s.threads[t])
    ensures var th' := RunThread(s, t).threads[t];
      && CallOf(th').Done? && Given(th'.op, th'.result) == None && (th'.op.Erase? && th'.result ==> s.threads[t].pc.EraseTx?)
  {
    var pc := s.threads[t].pc;
    if Acquiring(pc) {
      AcquireCall(s, t);
    } else if !HasBase(pc) {
      if !pc.VisitDone? {
        OutsideCall(s, t);
      }
    } else if pc.Search? || pc.LoadMaskAgain? || pc.ReadNextFlag? {
      LookDelivers(s, t);
      LookResult(s, t);
    }
  }

  lemma LookResult(s: State, t: nat)
    requires t < |s.threads| && RunEnabled(s, t) && OpOk(s.threads[t]) && RetryOk(s.threads[t])
    requires var pc := s.threads[t].pc; pc.Search? || pc.LoadMaskAgain? || pc.ReadNextFlag?
    ensures var th' := RunOperation(s, t).threads[t];
      CallOf(th') != CallOf(s.threads[t]) ==> th'.pc.UnlockDone? && !(th'.op.Erase? && th'.result)
  {
    var th := s.threads[t];
    if th.pc.Search? {
      SearchedResult(th, Lookup(Chain(s.tab, th.base), OpKey(th.op)));
    } else {
      MissedResult(th);
    }
  }

  lemma SearchedResult(th: Thread, hit: Option<nat>)
    requires th.pc.Search? && OpOk(th) && RetryOk(th)
    ensures var th' := Searched(th, hit); CallOf(th') != CallOf(th) ==> th'.pc.UnlockDone? && !(th'.op.Erase? && th'.result)
  {
  }

  lemma MissedResult(th: Thread)
    requires (th.pc.LoadMaskAgain? || th.pc.ReadNextFlag?) && OpOk(th) && RetryOk(th)
    ensures var th' := Missed(th); CallOf(th') != CallOf(th) ==> th'.pc.UnlockDone? && !(th'.op.Erase? && th'.result)
    ensures forall now :: th.level <= now ==> var th' := Reloaded(th, now);
      CallOf(th') != CallOf(th) ==> th'.pc.UnlockDone? && !(th'.op.Erase? && th'.result)
    ensures CallOf(th.(pc := UnlockAgain)) == CallOf(th)
  {
  }

  lemma QuietRun(s: State, t: nat, sp: Spec, sp': Spec, hands: Hands)
    requires Base(s) && PrivateOk(s) && KeysFree(s) && HandsAre(s, hands) && t < |s.threads| && RunEnabled(s, t)
    requires !s.threads[t].pc.TryItem? && !s.threads[t].pc.DropItem?
    requires Represents(s, sp) && Represents(RunThread(s, t), sp') && SpecNext(sp, Silent, sp')
    ensures HandsNext(sp, Silent, sp', hands, hands) && HandsAre(RunThread(s, t), hands) && KeysFree(RunThread(s, t))
  {
    var s' := RunThread(s, t);
    RunOneThread(s, t);
    assert Shape(s.threads[t]);
    OwnSameGrip(s, t);
    GripKept(s.tab, s'.tab, s.threads[t], s'.threads[t], hands[t]);
    KeyFreeKept(s.tab, s'.tab, s.threads[t], s'.threads[t]);
    RunHandsPut(s, t, hands, hands[t]);
    assert hands[t := hands[t]] == hands;
    if CallOf(s'.threads[t]) != CallOf(s.threads[t]) {
      QuietGives(s, t);
      if s.threads[t].pc.EraseTx? {
        ErasedUnheld(s, t, hands);
      }
    }
    HandsEffect(s, s', t, sp, sp', hands, hands);
  }

  /** The lock on the item: for find and for an insert that found its key, the instant of the effect. */
  lemma TryItemHand(s: State, t: nat, hands: Hands) returns (hands': Hands)
    requires Base(s) && PrivateOk(s) && HandsAre(s, hands) && t < |s.threads| && RunEnabled(s, t)
    requires s.threads[t].pc.TryItem? && KeyFree(s.tab, s.threads[t])
    ensures |hands'| == |hands| && hands' == hands[t := hands'[t]]
    ensures InHand(s.tab, TookItem(s.threads[t]), hands'[t]) && KeyFree(s.tab, TookItem(s.threads[t]))
    ensures TookHands(s.threads[t], hands, t, hands')
  {
    var th := s.threads[t];
    assert ThreadOk(s.tab, th);
    FoundUnheld(s, t);
    FoundIsKey(s.tab, th);
    hands' := hands;
    TookKeyFree(s.tab, th);
    if th.op.Erase? {
      TakeErase(s.tab, th, hands[t]);
    } else if th.op.Insert? && th.inserted {
      TakeInserted(s.tab, th, hands[t]);
    } else {
      FreeGrantable(s, t, hands);
      TakeFound(s.tab, th, hands[t]);
      hands' := hands[t := Grasped(hands[t], th.op.key, th.op.item.WriteItem?)];
    }
  }

  lemma FoundIsKey(tab: Table, th: Thread)
    requires TableOk(tab) && ThreadOk(tab, th) && th.pc.TryItem?
    ensures KeyAt(tab, th.found, OpKey(th.op)) && OpOk(th)
  {
    TargetLinked(tab, th);
    assert Has(tab, Node(th.found, OpKey(th.op)));
    FoundKey(tab, th.found, OpKey(th.op));
  }

  lemma TookKeyFree(tab: Table, th: Thread)
    requires th.pc.TryItem? && OpOk(th) && KeyFree(tab, th) && th.found !in th.accs
    ensures KeyFree(tab, TookItem(th))
  {
    assert th.op.Erase? ==> Settled(TookItem(th)) == th.accs;
  }

  /** The hands after the lock on the item are those of the effect, if there is one. */
  ghost predicate TookHands(th: Thread, hands: Hands, t: nat, hands': Hands)
    requires t < |hands|
  {
    var th' := TookItem(th);
    if CallOf(th') == CallOf(th) then hands' == hands else CallOf(th').Done? && Takes(th'.op, th'.result, hands, t, hands')
  }

  /** A step that changes the record of one thread and leaves the table alone. */
  lemma PutHands(s: State, t: nat, th: Thread, sp: Spec, sp': Spec, hands: Hands, hands': Hands)
    requires KeysFree(s) && HandsAre(s, hands) && t < |s.threads|
    requires |hands'| == |hands| && hands' == hands[t := hands'[t]] && InHand(s.tab, th, hands'[t]) && KeyFree(s.tab, th)
    requires Represents(s, sp) && Represents(Put(s, t, th), sp') && SpecNext(sp, Silent, sp')
    requires if CallOf(th) == CallOf(s.threads[t]) then hands' == hands
             else CallOf(th).Done? && Takes(th.op, th.result, hands, t, hands')
    ensures HandsNext(sp, Silent, sp', hands, hands') && HandsAre(Put(s, t, th), hands') && KeysFree(Put(s, t, th))
  {
    HandsPut(s, Put(s, t, th), t, hands, hands'[t]);
    KeysPut(s, Put(s, t, th), t);
    HandsEffect(s, Put(s, t, th), t, sp, sp', hands, hands');
  }

  lemma DropItemHand(tab: Table, th: Thread, hand: map<nat, bool>)
    requires th.pc.DropItem? && InHand(tab, th, hand) && KeyFree(tab, th) && OpOk(th)
    ensures var th' := th.(pc := EraseTx, accs := th.accs - {th.found});
      InHand(tab, th', hand) && KeyFree(tab, th') && CallOf(th') == CallOf(th)
  {
    var th' := th.(pc := EraseTx, accs := th.accs - {th.found});
    DropGrip(tab, th);
    GripKept(tab, tab, th, th', hand);
    KeyFreeKept(tab, tab, th, th');
  }

  /** The hands afterwards fit the state s', and the atomic map allows the change. */
  ghost predicate HandsStep(s': State, l: Label, sp: Spec, sp': Spec, hands: Hands, hands': Hands)
    requires |hands| == |sp.calls|
  {
    var holds := HandsNext(sp, l, sp', hands, hands') && HandsAre(s', hands') && KeysFree(s');
    holds
  }

  lemma TryItemRun(s: State, s': State, t: nat, sp: Spec, sp': Spec, hands: Hands) returns (hands': Hands)
    requires Base(s) && PrivateOk(s) && KeysFree(s) && HandsAre(s, hands) && t < |s.threads| && RunEnabled(s, t)
    requires s.threads[t].pc.TryItem? && s' == Put(s, t, TookItem(s.threads[t]))
    requires Represents(s, sp) && Represents(s', sp') && SpecNext(sp, Silent, sp')
    ensures HandsStep(s', Silent, sp, sp', hands, hands')
  {
    hands' := TryItemHand(s, t, hands);
    PutHands(s, t, TookItem(s.threads[t]), sp, sp', hands, hands');
  }

  lemma DropItemRun(s: State, s': State, t: nat, sp: Spec, sp': Spec, hands: Hands)
    requires KeysFree(s) && HandsAre(s, hands) && t < |s.threads| && OpOk(s.threads[t]) && s.threads[t].pc.DropItem?
    requires s' == var th := s.threads[t]; Put(s, t, th.(pc := EraseTx, accs := th.accs - {th.found}))
    requires Represents(s, sp) && Represents(s', sp') && SpecNext(sp, Silent, sp')
    ensures HandsStep(s', Silent, sp, sp', hands, hands)
  {
    var th := s.threads[t];
    DropItemHand(s.tab, th, hands[t]);
    assert hands[t := hands[t]] == hands;
    PutHands(s, t, th.(pc := EraseTx, accs := th.accs - {th.found}), sp, sp', hands, hands);
  }

  lemma RunHands(s: State, t: nat, sp: Spec, sp': Spec, hands: Hands) returns (hands': Hands)
    requires Base(s) && PrivateOk(s) && KeysFree(s) && HandsAre(s, hands) && t < |s.threads| && RunEnabled(s, t)
    requires Represents(s, sp) && Represents(RunThread(s, t), sp') && SpecNext(sp, Silent, sp')
    ensures HandsStep(RunThread(s, t), Silent, sp, sp', hands, hands')
  {
    hands' := hands;
    if s.threads[t].pc.TryItem? {
      ItemRunIs(s, t);
      hands' := TryItemRun(s, RunThread(s, t), t, sp, sp', hands);
    } else if s.threads[t].pc.DropItem? {
      ItemRunIs(s, t);
      assert Shape(s.threads[t]);
      DropItemRun(s, RunThread(s, t), t, sp, sp', hands);
    } else {
      QuietRun(s, t, sp, sp', hands);
    }
  }

  lemma ItemRunIs(s: State, t: nat)
    requires t < |s.threads| && RunEnabled(s, t) && (s.threads[t].pc.TryItem? || s.threads[t].pc.DropItem?)
    ensures var th := s.threads[t];
      RunThread(s, t) == if th.pc.TryItem? then Put(s, t, TookItem(th)) else Put(s, t, th.(pc := EraseTx, accs := th.accs - {th.found}))
  {
  }
}
