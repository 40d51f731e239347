/**
  The item that find and insert hand over: from the moment an operation that wanted one has
  succeeded until it returns, the node of its key is linked and locked for the caller.
 */
module MapReturns {
  import opened Wrappers
  import opened ChainSplit
  import opened MapState
  import opened MapInvariant
  import opened MapFrame
  import opened MapLocks
  import opened MapReachable
  import opened MapNodes

  /** A locked item: its key, and whether it is locked exclusively. */
  datatype Handle = Handle(key: nat, write: bool)

  /** The item that an operation with this result is to hand over. */
  function Given(op: Op, result: bool): Option<Handle>
  {
    if (op.Insert? && !op.item.NoItem?) || (op.Find? && !op.item.NoItem? && result) then
      Some(Handle(op.key, op.item.WriteItem?))
    else None
  }

  /** The item that a thread that returns has locked for its caller. */
  ghost function HandedOver(tab: Table, th: Thread): Option<Handle>
  {
    if Given(th.op, th.result).Some? && th.found in th.accs && Linked(tab, th.found) then
      Some(Handle(KeyOf(tab, th.found), th.accs[th.found]))
    else None
  }

  /** The operation has succeeded and is on its way to return. */
  predicate Delivering(th: Thread)
  {
    (th.pc.UnlockDone? || th.pc.TrySegment? || Growing(th.pc) || th.pc.Return?) && Given(th.op, th.result).Some?
  }

  ghost predicate DeliveredOk(tab: Table, th: Thread)
  {
    Delivering(th) ==>
      th.found in th.accs && th.accs[th.found] == th.op.item.WriteItem? && Has(tab, Node(th.found, OpKey(th.op)))
  }

  ghost predicate Delivered(s: State)
  {
    forall u :: 0 <= u < |s.threads| ==> DeliveredOk(s.tab, s.threads[u])
  }

  /** What a thread on its way to return has locked is what its operation is to hand over. */
  lemma HandedIsGiven(tab: Table, th: Thread)
    requires TableOk(tab) && DeliveredOk(tab, th) && th.pc.Return?
    ensures HandedOver(tab, th) == Given(th.op, th.result)
  {
    if Given(th.op, th.result).Some? {
      var n := Node(th.found, OpKey(th.op));
      var i: nat :| n in Chain(tab, i);
      assert Linked(tab, th.found);
      LinkedHas(tab, th.found);
      OneNode(tab, n, Node(th.found, KeyOf(tab, th.found)));
    }
  }

  // ---------- a linked node stays linked while an accessor holds it ----------

  /** A step unlinks no node but the one that its thread erases. */
  lemma RunHas(s: State, u: nat, n: Node)
    requires Base(s) && u < |s.threads| && RunEnabled(s, u)
    requires !(s.threads[u].pc.EraseTx? && n.id == s.threads[u].found)
    ensures Has(RunThread(s, u).tab, n) <==> Has(s.tab, n)
  {
    assert ThreadOk(s.tab, s.threads[u]);
    if Acquiring(s.threads[u].pc) {
      AcquireFrameOk(s, u);
      if s.threads[u].pc.Split? {
        SplitHas(s.tab, s.threads[u].pc.i, n);
      } else {
        SameHas(s.tab, RunAcquire(s, u).tab, n);
      }
    } else if HasBase(s.threads[u].pc) {
      OperationHas(s, u, n);
    } else {
      OutsideFrameOk(s, u);
      SameHas(s.tab, RunOutside(s, u).tab, n);
    }
  }

  lemma OperationHas(s: State, u: nat, n: Node)
    requires TableOk(s.tab) && u < |s.threads| && ThreadOk(s.tab, s.threads[u]) && RunEnabled(s, u)
    requires HasBase(s.threads[u].pc)
    requires !(s.threads[u].pc.EraseTx? && n.id == s.threads[u].found)
    ensures Has(RunOperation(s, u).tab, n) <==> Has(s.tab, n)
  {
    if s.threads[u].pc.EraseTx? {
      UnlinkHas(s.tab, s.threads[u].base, Node(s.threads[u].found, OpKey(s.threads[u].op)), n);
    }
  }

  // ---------- the thread that takes the step ----------

  /** The thread did not return yet, or had its item already. */
  lemma RunDelivers(s: State, t: nat)
    requires t < |s.threads| && RunEnabled(s, t)
    requires ThreadOk(s.tab, s.threads[t]) && DeliveredOk(s.tab, s.threads[t])
    ensures DeliveredOk(RunThread(s, t).tab, RunThread(s, t).threads[t])
  {
    var th := s.threads[t];
    if Acquiring(th.pc) {
      AcquireDelivers(s, t);
    } else if HasBase(th.pc) {
      OperationDelivers(s, t);
    } else {
      OutsideDelivers(s, t);
    }
  }

  lemma AcquireDelivers(s: State, t: nat)
    requires t < |s.threads| && RunEnabled(s, t) && Acquiring(s.threads[t].pc)
    ensures DeliveredOk(RunAcquire(s, t).tab, RunAcquire(s, t).threads[t])
  {
    AcquireFrameOk(s, t);
  }

  lemma OperationDelivers(s: State, t: nat)
    requires t < |s.threads| && RunEnabled(s, t) && HasBase(s.threads[t].pc)
    requires ThreadOk(s.tab, s.threads[t]) && DeliveredOk(s.tab, s.threads[t])
    ensures DeliveredOk(RunOperation(s, t).tab, RunOperation(s, t).threads[t])
  {
    var pc := s.threads[t].pc;
    if pc.TryItem? {
      assert PcFact(s.tab, s.threads[t]);
      TakeDelivers(s, t);
    } else if pc.Search? || pc.LoadMaskAgain? || pc.ReadNextFlag? {
      LookDelivers(s, t);
    } else {
      LeaveDelivers(s, t);
    }
  }

  lemma TakeDelivers(s: State, t: nat)
    requires t < |s.threads| && RunEnabled(s, t) && s.threads[t].pc.TryItem?
    requires Node(s.threads[t].found, OpKey(s.threads[t].op)) in Chain(s.tab, s.threads[t].base)
    ensures DeliveredOk(RunOperation(s, t).tab, RunOperation(s, t).threads[t])
  {
    assert Has(s.tab, Node(s.threads[t].found, OpKey(s.threads[t].op)));
  }

  lemma LookDelivers(s: State, t: nat)
    requires t < |s.threads| && RunEnabled(s, t) && OpOk(s.threads[t])
    requires var pc := s.threads[t].pc; pc.Search? || pc.LoadMaskAgain? || pc.ReadNextFlag?
    ensures !Delivering(RunOperation(s, t).threads[t])
  {
    var th := s.threads[t];
    if th.pc.Search? {
      SearchedGives(th, Lookup(Chain(s.tab, th.base), OpKey(th.op)));
    } else {
      MissGives(th);
    }
  }

  lemma LeaveDelivers(s: State, t: nat)
    requires t < |s.threads| && RunEnabled(s, t) && HasBase(s.threads[t].pc)
    requires var pc := s.threads[t].pc; !pc.TryItem? && !pc.Search? && !pc.LoadMaskAgain? && !pc.ReadNextFlag?
    requires OpOk(s.threads[t]) && DeliveredOk(s.tab, s.threads[t])
    ensures DeliveredOk(RunOperation(s, t).tab, RunOperation(s, t).threads[t])
  {
  }

  lemma SearchedGives(th: Thread, hit: Option<nat>)
    requires !th.op.Visit?
    ensures !Delivering(Searched(th, hit))
  {
  }

  lemma MissGives(th: Thread)
    requires !th.op.Visit?
    ensures !Delivering(Missed(th))
    ensures forall now :: th.level <= now ==> !Delivering(Reloaded(th, now))
  {
  }

  lemma OutsideDelivers(s: State, t: nat)
    requires t < |s.threads| && RunEnabled(s, t) && !Acquiring(s.threads[t].pc) && !HasBase(s.threads[t].pc)
    requires ThreadOk(s.tab, s.threads[t]) && DeliveredOk(s.tab, s.threads[t])
    ensures DeliveredOk(RunOutside(s, t).tab, RunOutside(s, t).threads[t])
  {
    var th := s.threads[t];
    OutsideFrameOk(s, t);
    if Delivering(th) {
      SameHas(s.tab, RunOutside(s, t).tab, Node(th.found, OpKey(th.op)));
    }
  }

  // ---------- all actions ----------

  lemma RunDelivered(s: State, t: nat)
    requires Base(s) && PrivateOk(s) && Delivered(s) && t < |s.threads| && RunEnabled(s, t)
    ensures Delivered(RunThread(s, t))
  {
    var s' := RunThread(s, t);
    RunOneThread(s, t);
    forall u | 0 <= u < |s'.threads| ensures DeliveredOk(s'.tab, s'.threads[u]) {
      assert DeliveredOk(s.tab, s.threads[u]);
      if u == t {
        assert ThreadOk(s.tab, s.threads[t]);
        RunDelivers(s, t);
      } else if Delivering(s.threads[u]) {
        assert s.threads[t].pc.EraseTx? ==> Private(s.threads[t]);
        RunHas(s, t, Node(s.threads[u].found, OpKey(s.threads[u].op)));
      }
    }
  }

  lemma AllocDelivered(s: State, t: nat, id: nat)
    requires Delivered(s) && Enabled(s, Alloc(t, id))
    ensures Delivered(Apply(s, Alloc(t, id)))
  {
    var s' := Apply(s, Alloc(t, id));
    forall u | 0 <= u < |s'.threads| ensures DeliveredOk(s'.tab, s'.threads[u]) {
      if u != t && Delivering(s.threads[u]) {
        assert DeliveredOk(s.tab, s.threads[u]);
        LinkHas(s.tab, s.threads[t].base, Node(id, s.threads[t].op.key), Node(s.threads[u].found, OpKey(s.threads[u].op)));
      }
    }
  }

  /** A step of one thread that is not on its way to return afterwards, and leaves the table alone. */
  lemma QuietDelivered(s: State, t: nat, th: Thread)
    requires Delivered(s) && t < |s.threads| && !Delivering(th)
    ensures Delivered(Put(s, t, th))
  {
    forall u | 0 <= u < |s.threads| ensures DeliveredOk(s.tab, Put(s, t, th).threads[u]) {
      assert DeliveredOk(s.tab, s.threads[u]);
    }
  }

  lemma CrashDelivered(s: State, flags: set<nat>)
    requires Enabled(s, Crash(flags))
    ensures Delivered(Apply(s, Crash(flags)))
  {
  }

  lemma ClearDelivered(s: State)
    requires Enabled(s, Clear)
    ensures Delivered(Apply(s, Clear))
  {
  }

  /** Starting, giving up, dropping a bucket, responding and releasing an item. */
  lemma QuietActions(s: State, a: Action)
    requires Delivered(s) && Enabled(s, a)
    requires a.Invoke? || a.GiveUp? || a.Drop? || a.Respond? || a.Release?
    ensures Delivered(Apply(s, a))
  {
    match a
    case Invoke(t, op) => QuietDelivered(s, t, Start(s.tab, s.threads[t], op));
    case GiveUp(t) => QuietDelivered(s, t, s.threads[t].(pc := UnlockReload));
    case Drop(t) => QuietDelivered(s, t, NextVisit(Unlocked(s.threads[t])));
    case Respond(t) => QuietDelivered(s, t, s.threads[t].(pc := Idle));
    case Release(t, id) => QuietDelivered(s, t, s.threads[t].(accs := s.threads[t].accs - {id}));
  }

  /** Every action keeps it. */
  lemma DeliveredStep(s: State, a: Action)
    requires Base(s) && PrivateOk(s) && Delivered(s) && Enabled(s, a)
    ensures Delivered(Apply(s, a))
  {
    match a
    case Run(t) => RunDelivered(s, t);
    case Alloc(t, id) => AllocDelivered(s, t, id);
    case Load(_, _) =>
    case Assign(_, _, _) => SameThreads(s, Apply(s, a));
    case Clear => ClearDelivered(s);
    case Crash(flags) => CrashDelivered(s, flags);
    case _ => QuietActions(s, a);
  }

  lemma SameThreads(s: State, s': State)
    requires Delivered(s) && s'.threads == s.threads && s'.tab == s.tab
    ensures Delivered(s')
  {
    assert forall u :: 0 <= u < |s.threads| ==> DeliveredOk(s.tab, s.threads[u]);
  }

  lemma InitialDelivered(hash: nat -> nat, n: nat)
    ensures Delivered(Initial(hash, n))
  {
  }

  /** In every run, whatever crashes, an operation that succeeds hands over the item of its key. */
  lemma {:induction false} ReachableDelivered(s: State, acts: seq<Action>)
    requires Inv(s) && Delivered(s) && CanRun(s, acts)
    ensures Delivered(After(s, acts))
    decreases |acts|
  {
    if acts != [] {
      ActionInv(s, acts[0]);
      DeliveredStep(s, acts[0]);
      ReachableDelivered(Apply(s, acts[0]), acts[1..]);
    }
  }
}
