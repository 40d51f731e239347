/**
  Item locks. A node is freed only by an erase that has its bucket locked, and by then no
  accessor holds it nor can come to hold it.
 */
module MapItems {
  import opened HashPath
  import opened ChainSplit
  import opened MapState
  import opened MapInvariant
  import opened MapTable
  import opened MapFrame
  import opened MapThreads

  // ---------- which addresses are linked ----------

  lemma SplitLinked(tab: Table, i: nat, id: nat)
    requires TableOk(tab) && i >= 2 && Dead(tab, i)
    ensures Linked(SplitTable(tab, i), id) <==> Linked(tab, id)
  {
    var tab' := SplitTable(tab, i);
    var p := Parent(i);
    SplitChains(tab, i);
    if Linked(tab, id) {
      var k: nat, n :| n in Chain(tab, k) && n.id == id;
      var k' := if k == p && OnPath(i, tab.hash(n.key)) then i else k;
      assert n in Chain(tab', k');
    }
    if Linked(tab', id) {
      var k: nat, n :| n in Chain(tab', k) && n.id == id;
      assert n in Chain(tab, if k == i then p else k);
    }
  }

  lemma LinkLinked(tab: Table, b: nat, node: Node, id: nat)
    ensures Linked(PutChain(tab, b, [node] + Chain(tab, b)), id) <==> Linked(tab, id) || id == node.id
  {
    var tab' := PutChain(tab, b, [node] + Chain(tab, b));
    if Linked(tab, id) {
      var k: nat, n :| n in Chain(tab, k) && n.id == id;
      assert n in Chain(tab', k);
    }
    assert node in Chain(tab', b);
    if Linked(tab', id) {
      var k: nat, n :| n in Chain(tab', k) && n.id == id;
      assert n == node || n in Chain(tab, k);
    }
  }

  lemma UnlinkChains(tab: Table, b: nat, gone: Node)
    requires ChainsOk(tab) && gone in Chain(tab, b)
    ensures var tab' := PutChain(tab, b, Without(Chain(tab, b), gone.id));
      forall k: nat, n :: n in Chain(tab', k) <==> n in Chain(tab, k) && n.id != gone.id
  {
    var tab' := PutChain(tab, b, Without(Chain(tab, b), gone.id));
    WithoutMembers(Chain(tab, b), gone.id);
    assert forall k: nat :: k != b ==> Chain(tab', k) == Chain(tab, k);
  }

  lemma UnlinkLinked(tab: Table, b: nat, gone: Node, id: nat)
    requires ChainsOk(tab) && gone in Chain(tab, b)
    ensures Linked(PutChain(tab, b, Without(Chain(tab, b), gone.id)), id) <==> Linked(tab, id) && id != gone.id
  {
    var tab' := PutChain(tab, b, Without(Chain(tab, b), gone.id));
    UnlinkChains(tab, b, gone);
    if Linked(tab, id) && id != gone.id {
      var k: nat, n :| n in Chain(tab, k) && n.id == id;
      assert n in Chain(tab', k);
    }
    if Linked(tab', id) {
      var k: nat, n :| n in Chain(tab', k) && n.id == id;
      assert n in Chain(tab, k);
    }
  }

  // ---------- the node a thread works on ----------

  predicate Targets(th: Thread)
  {
    th.pc.TryItem? || th.pc.DropItem? || th.pc.EraseTx? || (th.pc.BumpSize? && th.op.Insert?)
  }

  /** Two threads work on the same node only if both have its bucket locked, neither exclusively. */
  lemma SameTarget(s: State, u: nat, v: nat)
    requires Base(s) && u < |s.threads| && v < |s.threads| && u != v
    requires Targets(s.threads[u]) && Targets(s.threads[v]) && s.threads[u].found == s.threads[v].found
    ensures s.threads[u].op.Find? && s.threads[v].op.Find?
  {
    var a, b := s.threads[u], s.threads[v];
    TargetLinked(s.tab, a);
    TargetLinked(s.tab, b);
    assert a.base == b.base;
    BaseHeld(a);
    BaseHeld(b);
    assert Compatible(a, b) && Compatible(b, a);
  }

  lemma TargetLinked(tab: Table, th: Thread)
    requires ThreadOk(tab, th) && Targets(th)
    ensures HasBase(th.pc) && Node(th.found, OpKey(th.op)) in Chain(tab, th.base)
  {
  }

  // ---------- steps ----------

  /**
    A step that keeps or drops item locks of its own thread, or takes one that is free.
    What it frees nobody holds, and what it makes private nobody holds either.
   */
  lemma ItemsStep(s: State, s': State, t: nat, th: Thread)
    requires ItemsOk(s) && t < |s.threads| && s'.threads == s.threads[t := th]
    requires ValsOk(s') && PrivateOk(s') && DroppingOk(th)
    requires forall id :: id in th.accs ==>
               (id in s.threads[t].accs && th.accs[id] == s.threads[t].accs[id]) || ItemFree(s, id, th.accs[id])
    requires forall id :: id in th.accs ==> id in s'.vals
    requires forall u, id :: 0 <= u < |s.threads| && u != t && id in s.threads[u].accs ==> id in s'.vals
    ensures ItemsOk(s')
  {
    forall u, v | 0 <= u < |s'.threads| && 0 <= v < |s'.threads| && u != v
      ensures ItemsCompatible(s'.threads[u], s'.threads[v])
    {
      assert ItemsCompatible(s.threads[u], s.threads[v]);
    }
  }

  /** A step that changes no accessor, no value and no link, and makes no node private. */
  lemma QuietItems(s: State, s': State, t: nat)
    requires ItemsOk(s) && t < |s.threads| && |s'.threads| == |s.threads|
    requires forall u :: 0 <= u < |s.threads| && u != t ==> s'.threads[u] == s.threads[u]
    requires forall id :: Linked(s'.tab, id) <==> Linked(s.tab, id)
    requires s'.vals.Keys == s.vals.Keys
    requires s'.threads[t].accs == s.threads[t].accs
    requires Private(s'.threads[t]) ==> Private(s.threads[t]) && s'.threads[t].found == s.threads[t].found
    requires !s'.threads[t].pc.DropItem?
    ensures ItemsOk(s')
  {
    assert s'.threads == s.threads[t := s'.threads[t]];
    assert forall id :: id in s'.vals <==> id in s.vals;
    ItemsStep(s, s', t, s'.threads[t]);
  }

  lemma TryItemItems(s: State, t: nat)
    requires Base(s) && ItemsOk(s) && t < |s.threads| && RunEnabled(s, t) && s.threads[t].pc.TryItem?
    ensures ItemsOk(RunOperation(s, t))
  {
    assert ThreadOk(s.tab, s.threads[t]);
    FoundLinked(s.tab, s.threads[t]);
    TryItemPrivate(s, t);
    TookStep(s, t);
  }

  lemma TookStep(s: State, t: nat)
    requires ItemsOk(s) && t < |s.threads| && RunEnabled(s, t) && s.threads[t].pc.TryItem?
    requires Linked(s.tab, s.threads[t].found) && PrivateOk(Put(s, t, TookItem(s.threads[t])))
    ensures ItemsOk(RunOperation(s, t))
  {
    var th' := TookItem(s.threads[t]);
    ItemsStep(s, Put(s, t, th'), t, th');
    assert RunOperation(s, t) == Put(s, t, th');
  }

  function TookItem(th: Thread): (th': Thread)
    ensures th'.accs == th.accs[th.found := ItemWrite(th.op)] && th'.found == th.found && !Private(th')
    ensures th'.pc.DropItem? ==> th.op.Erase?
  {
    var locked := th.(accs := th.accs[th.found := ItemWrite(th.op)]);
    if th.op.Erase? then locked.(pc := DropItem)
    else locked.(pc := UnlockDone, result := th.op.Find? || th.inserted)
  }

  /** Nobody comes to hold a private node: its bucket is locked exclusively. */
  lemma TryItemPrivate(s: State, t: nat)
    requires Base(s) && ItemsOk(s) && t < |s.threads| && s.threads[t].pc.TryItem?
    ensures PrivateOk(Put(s, t, TookItem(s.threads[t])))
  {
    var th' := TookItem(s.threads[t]);
    assert PrivateOk(s);
    forall u | 0 <= u < |s.threads| && u != t && Private(s.threads[u])
      ensures s.threads[u].found !in th'.accs
    {
      if s.threads[u].found == th'.found {
        assert ThreadOk(s.tab, s.threads[u]);
        SameTarget(s, u, t);
      }
    }
  }

  lemma DropItemItems(s: State, t: nat)
    requires ItemsOk(s) && t < |s.threads| && RunEnabled(s, t) && s.threads[t].pc.DropItem?
    ensures ItemsOk(RunOperation(s, t))
  {
    var th := s.threads[t];
    var th' := th.(pc := EraseTx, accs := th.accs - {th.found});
    DropItemPrivate(s, t, th');
    ItemsStep(s, Put(s, t, th'), t, th');
    assert RunOperation(s, t) == Put(s, t, th');
  }

  lemma DropItemPrivate(s: State, t: nat, th': Thread)
    requires ItemsOk(s) && t < |s.threads| && s.threads[t].pc.DropItem?
    requires th'.found == s.threads[t].found && th'.accs == s.threads[t].accs - {th'.found}
    ensures PrivateOk(Put(s, t, th'))
  {
    assert DroppingOk(s.threads[t]);
    forall v | 0 <= v < |s.threads| && v != t ensures th'.found !in s.threads[v].accs {
      assert ItemsCompatible(s.threads[t], s.threads[v]);
    }
  }

  lemma EraseItems(s: State, t: nat)
    requires Base(s) && ItemsOk(s) && t < |s.threads| && RunEnabled(s, t) && s.threads[t].pc.EraseTx?
    ensures ItemsOk(RunOperation(s, t))
    ensures s.threads[t].found in s.vals
    ensures RunOperation(s, t).vals.Keys == s.vals.Keys - {s.threads[t].found}
  {
    var th := s.threads[t];
    var th' := th.(pc := BumpSize, result := true);
    var s' := Erased(s, t, th');
    assert ThreadOk(s.tab, th);
    EraseTxErases(th);
    EraseVals(s, t, th');
    ErasePrivate(s, t, th');
    EraseStep(s, t, th');
    assert RunOperation(s, t) == s';
  }

  lemma EraseTxErases(th: Thread)
    requires Shape(th) && th.pc.EraseTx?
    ensures th.op.Erase?
  {
  }

  lemma EraseStep(s: State, t: nat, th': Thread)
    requires ItemsOk(s) && t < |s.threads| && t < |s.diffs|
    requires th'.accs == s.threads[t].accs && !th'.pc.DropItem?
    requires ValsOk(Erased(s, t, th')) && PrivateOk(Erased(s, t, th'))
    requires forall u, id :: 0 <= u < |s.threads| && id in s.threads[u].accs ==> id in Erased(s, t, th').vals
    ensures ItemsOk(Erased(s, t, th'))
  {
    ItemsStep(s, Erased(s, t, th'), t, th');
  }

  lemma EraseVals(s: State, t: nat, th': Thread)
    requires Base(s) && ValsOk(s) && t < |s.threads| && t < |s.diffs| && s.threads[t].pc.EraseTx?
    ensures ValsOk(Erased(s, t, th')) && s.threads[t].found in s.vals
  {
    var th := s.threads[t];
    FoundLinked(s.tab, th);
    EraseLinked(s.tab, th);
    EraseKeys(s.vals, s.tab, Erased(s, t, th').tab, th.found);
  }

  lemma FoundLinked(tab: Table, th: Thread)
    requires ThreadOk(tab, th) && Targets(th)
    ensures Linked(tab, th.found)
  {
    TargetLinked(tab, th);
  }

  lemma EraseKeys(vals: map<nat, Value>, tab: Table, tab': Table, gone: nat)
    requires forall id :: id in vals <==> Linked(tab, id)
    requires forall id :: Linked(tab', id) <==> Linked(tab, id) && id != gone
    ensures forall id :: id in vals - {gone} <==> Linked(tab', id)
  {
  }

  function Erased(s: State, t: nat, th': Thread): State
    requires t < |s.threads| && t < |s.diffs|
  {
    var th := s.threads[t];
    Put(s.(tab := PutChain(s.tab, th.base, Without(Chain(s.tab, th.base), th.found)),
           vals := s.vals - {th.found},
           diffs := s.diffs[t := s.diffs[t] - 1]), t, th')
  }

  lemma ErasePrivate(s: State, t: nat, th': Thread)
    requires ItemsOk(s) && t < |s.threads| && t < |s.diffs| && s.threads[t].pc.EraseTx?
    requires th'.accs == s.threads[t].accs && !Private(th')
    ensures PrivateOk(Erased(s, t, th'))
    ensures forall u, id :: 0 <= u < |s.threads| && id in s.threads[u].accs ==> id in Erased(s, t, th').vals
  {
    assert Private(s.threads[t]);
  }

  lemma EraseLinked(tab: Table, th: Thread)
    requires TableOk(tab) && ThreadOk(tab, th) && th.pc.EraseTx?
    ensures var tab' := PutChain(tab, th.base, Without(Chain(tab, th.base), th.found));
            forall id :: Linked(tab', id) <==> Linked(tab, id) && id != th.found
  {
    var tab' := PutChain(tab, th.base, Without(Chain(tab, th.base), th.found));
    forall id ensures Linked(tab', id) <==> Linked(tab, id) && id != th.found {
      UnlinkLinked(tab, th.base, Node(th.found, OpKey(th.op)), id);
    }
  }

  lemma AllocItems(s: State, t: nat, id: nat)
    requires ItemsOk(s) && Enabled(s, Alloc(t, id))
    ensures ItemsOk(Apply(s, Alloc(t, id)))
    ensures id !in s.vals
  {
    var s' := Apply(s, Alloc(t, id));
    var th := s.threads[t];
    assert !Linked(s.tab, id);
    forall k ensures Linked(s'.tab, k) <==> Linked(s.tab, k) || k == id {
      LinkLinked(s.tab, th.base, Node(id, th.op.key), k);
    }
    ItemsStep(s, s', t, s'.threads[t]);
  }

  lemma AcquireItems(s: State, t: nat)
    requires Base(s) && ItemsOk(s) && t < |s.threads| && RunEnabled(s, t) && Acquiring(s.threads[t].pc)
    ensures ItemsOk(RunAcquire(s, t))
  {
    assert ThreadOk(s.tab, s.threads[t]);
    AcquireLinked(s, t);
    AcquireQuiet(s, t);
  }

  lemma AcquireQuiet(s: State, t: nat)
    requires ItemsOk(s) && t < |s.threads| && RunEnabled(s, t) && Acquiring(s.threads[t].pc)
    requires forall id :: Linked(RunAcquire(s, t).tab, id) <==> Linked(s.tab, id)
    ensures ItemsOk(RunAcquire(s, t))
  {
    AcquireFrameOk(s, t);
    QuietItems(s, RunAcquire(s, t), t);
  }

  lemma AcquireLinked(s: State, t: nat)
    requires t < |s.threads| && RunEnabled(s, t) && Acquiring(s.threads[t].pc)
    requires TableOk(s.tab) && ThreadOk(s.tab, s.threads[t])
    ensures forall id :: Linked(RunAcquire(s, t).tab, id) <==> Linked(s.tab, id)
  {
    var s' := RunAcquire(s, t);
    AcquireFrameOk(s, t);
    forall id ensures Linked(s'.tab, id) <==> Linked(s.tab, id) {
      if s.threads[t].pc.Split? {
        SplitLinked(s.tab, s.threads[t].pc.i, id);
      } else {
        SameLinked(s.tab, s'.tab, id);
      }
    }
  }

  lemma SameLinked(tab: Table, tab': Table, id: nat)
    requires tab'.chains == tab.chains
    ensures Linked(tab', id) <==> Linked(tab, id)
  {
    assert forall k: nat :: Chain(tab', k) == Chain(tab, k);
  }

  lemma OperationItems(s: State, t: nat)
    requires Base(s) && ItemsOk(s) && t < |s.threads| && RunEnabled(s, t) && HasBase(s.threads[t].pc)
    ensures ItemsOk(RunOperation(s, t))
  {
    var pc := s.threads[t].pc;
    if pc.TryItem? {
      TryItemItems(s, t);
    } else if pc.DropItem? {
      DropItemItems(s, t);
    } else if pc.EraseTx? {
      EraseItems(s, t);
    } else if pc.BumpSize? {
      BumpSizeItems(s, t);
    } else {
      LookItems(s, t);
    }
  }

  lemma BumpSizeItems(s: State, t: nat)
    requires Base(s) && ItemsOk(s) && t < |s.threads| && RunEnabled(s, t) && s.threads[t].pc.BumpSize?
    ensures ItemsOk(RunOperation(s, t))
  {
    assert ThreadOk(s.tab, s.threads[t]);
    QuietItems(s, RunOperation(s, t), t);
  }

  lemma LookItems(s: State, t: nat)
    requires Base(s) && ItemsOk(s) && t < |s.threads| && RunEnabled(s, t) && Looking(s.threads[t].pc)
    ensures ItemsOk(RunOperation(s, t))
  {
    assert Shape(s.threads[t]);
    LookFrameOk(s, t);
    QuietItems(s, RunOperation(s, t), t);
  }

  lemma OutsideItems(s: State, t: nat)
    requires ItemsOk(s) && t < |s.threads| && RunEnabled(s, t)
    requires !Acquiring(s.threads[t].pc) && !HasBase(s.threads[t].pc)
    ensures ItemsOk(RunOutside(s, t))
  {
    var s' := RunOutside(s, t);
    OutsideFrameOk(s, t);
    forall id ensures Linked(s'.tab, id) <==> Linked(s.tab, id) {
      SameLinked(s.tab, s'.tab, id);
    }
    QuietItems(s, s', t);
  }

  lemma RunItems(s: State, t: nat)
    requires Base(s) && ItemsOk(s) && t < |s.threads| && RunEnabled(s, t)
    ensures ItemsOk(RunThread(s, t))
  {
    if Acquiring(s.threads[t].pc) {
      AcquireItems(s, t);
    } else if HasBase(s.threads[t].pc) {
      OperationItems(s, t);
    } else {
      OutsideItems(s, t);
    }
  }
}
