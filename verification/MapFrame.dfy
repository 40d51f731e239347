/** What the steps of each kind leave alone. */
module MapFrame {
  import opened Wrappers
  import opened HashPath
  import opened ChainSplit
  import opened MapState

  ghost predicate OneThread(s: State, s': State, t: nat)
    requires t < |s.threads|
  {
    |s'.threads| == |s.threads| && forall u :: 0 <= u < |s.threads| && u != t ==> s'.threads[u] == s.threads[u]
  }

  /** Nothing but the record of one thread and the flags and chains of the table. */
  ghost predicate SameRest(s: State, s': State)
  {
    && s'.vals == s.vals && s'.segLock == s.segLock && s'.diffs == s.diffs
    && s'.onInit == s.onInit && s'.size == s.size
    && s'.tab == s.tab.(flags := s'.tab.flags, durable := s'.tab.durable, chains := s'.tab.chains)
  }

  /** The operation of a thread, without its progress. */
  predicate SameOp(th: Thread, th': Thread)
  {
    && th'.op == th.op && th'.hash == th.hash && th'.accs == th.accs && th'.found == th.found
    && th'.inserted == th.inserted && th'.newSize == th.newSize && th'.result == th.result
  }

  ghost predicate AcquireFrame(s: State, s': State, t: nat)
    requires t < |s.threads|
  {
    && OneThread(s, s', t) && SameRest(s, s')
    && SameOp(s.threads[t], s'.threads[t]) && s'.threads[t].level == s.threads[t].level
    && (Acquiring(s'.threads[t].pc) || s'.threads[t].pc.Search? || s'.threads[t].pc.Visited?)
    && (!s.threads[t].pc.Split? ==> s'.tab.chains == s.tab.chains)
  }

  lemma ResumeFrame(th: Thread)
    ensures var r := Resume(th);
      SameOp(th, r) && r.level == th.level && (r.pc.Split? || r.pc.Search? || r.pc.Visited?)
  {
  }

  lemma AcquireFrameOk(s: State, t: nat)
    requires t < |s.threads| && RunEnabled(s, t) && Acquiring(s.threads[t].pc)
    ensures AcquireFrame(s, RunAcquire(s, t), t)
  {
    var pc := s.threads[t].pc;
    if pc.Recheck? || pc.Block? || pc.Persist? || pc.DropParent? {
      ReturnFrame(s, t);
    } else {
      EnterFrame(s, t);
    }
  }

  lemma EnterFrame(s: State, t: nat)
    requires t < |s.threads| && RunEnabled(s, t)
    requires var pc := s.threads[t].pc; pc.ReadFlag? || pc.TryLock? || pc.CheckChain? || pc.Split? || pc.SetFlag?
    ensures AcquireFrame(s, RunAcquire(s, t), t)
  {
  }

  lemma ReturnFrame(s: State, t: nat)
    requires t < |s.threads| && RunEnabled(s, t)
    requires var pc := s.threads[t].pc; pc.Recheck? || pc.Block? || pc.Persist? || pc.DropParent?
    ensures AcquireFrame(s, RunAcquire(s, t), t)
  {
    var th := s.threads[t];
    ResumeFrame(th);
    if th.pc.Block? {
      ResumeFrame(th.(held := th.held[th.pc.i := WantsWrite(th)]));
    } else if th.pc.DropParent? {
      ResumeFrame(th.(held := th.held - {Parent(th.pc.i)}));
    }
  }

  /** Searching, checking the mask, unlocking and visiting. */
  predicate Looking(pc: Pc)
  {
    HasBase(pc) && !pc.TryItem? && !pc.DropItem? && !pc.EraseTx? && !pc.BumpSize? && !pc.InsertTx?
  }

  ghost predicate LookFrame(s: State, s': State, t: nat)
    requires t < |s.threads|
  {
    var th := s.threads[t];
    && OneThread(s, s', t) && SameRest(s, s') && s'.tab == s.tab && |s'.threads| > t
    && var th' := s'.threads[t];
       && th'.op == th.op && th'.hash == th.hash && th'.accs == th.accs && th'.inserted == th.inserted
       && th'.newSize == th.newSize
       && !Growing(th'.pc) && !th'.pc.DropItem? && !th'.pc.EraseTx? && !th'.pc.BumpSize? && !th'.pc.Idle?
       && (th'.pc.TryItem? ==> th.pc.Search?)
  }

  lemma LookFrameOk(s: State, t: nat)
    requires t < |s.threads| && RunEnabled(s, t) && Looking(s.threads[t].pc)
    ensures LookFrame(s, RunOperation(s, t), t)
  {
    var pc := s.threads[t].pc;
    if pc.Search? || pc.LoadMaskAgain? || pc.ReadNextFlag? {
      SearchFrame(s, t);
    } else {
      LeaveFrame(s, t);
    }
  }

  lemma SearchFrame(s: State, t: nat)
    requires t < |s.threads| && RunEnabled(s, t)
    requires var pc := s.threads[t].pc; pc.Search? || pc.LoadMaskAgain? || pc.ReadNextFlag?
    ensures LookFrame(s, RunOperation(s, t), t)
  {
    var th := s.threads[t];
    if th.pc.Search? {
      SearchedFrame(th, Lookup(Chain(s.tab, th.base), OpKey(th.op)));
    } else if th.pc.LoadMaskAgain? {
      ReloadedFrame(th, s.tab.level);
    }
  }

  lemma SearchedFrame(th: Thread, hit: Option<nat>)
    ensures var r := Searched(th, hit);
      && SameOp(th.(found := r.found, result := r.result), r)
      && (r.pc.TryItem? || r.pc.UnlockDone? || r.pc.LoadMaskAgain?)
  {
  }

  lemma ReloadedFrame(th: Thread, now: nat)
    requires th.level <= now
    ensures var r := Reloaded(th, now);
      && SameOp(th.(result := r.result), r)
      && (r.pc.InsertTx? || r.pc.UnlockDone? || r.pc.ReadNextFlag?)
  {
  }

  lemma LeaveFrame(s: State, t: nat)
    requires t < |s.threads| && RunEnabled(s, t)
    requires var pc := s.threads[t].pc; pc.UnlockAgain? || pc.UnlockReload? || pc.UnlockDone? || pc.Visited?
    ensures LookFrame(s, RunOperation(s, t), t)
  {
  }

  ghost predicate OutsideFrame(s: State, s': State, t: nat)
    requires t < |s.threads|
  {
    && OneThread(s, s', t)
    && s'.vals == s.vals && s'.diffs == s.diffs && s'.onInit == s.onInit && s'.size == s.size
    && s'.tab == s.tab.(level := s'.tab.level, enabled := s'.tab.enabled)
    && SameOp(s.threads[t].(result := s'.threads[t].result), s'.threads[t])
    && (!s.threads[t].pc.VisitDone? ==> s'.threads[t].result == s.threads[t].result)
    && !HasBase(s'.threads[t].pc)
    && (s.threads[t].pc.LoadMask? || s.threads[t].pc.VisitDone? ==>
          s'.segLock == s.segLock && s'.tab == s.tab && !Growing(s'.threads[t].pc))
    && (s'.threads[t].pc.Idle? <==> s.threads[t].pc.Idle?)
  }

  lemma OutsideFrameOk(s: State, t: nat)
    requires t < |s.threads| && RunEnabled(s, t)
    requires !Acquiring(s.threads[t].pc) && !HasBase(s.threads[t].pc)
    ensures OutsideFrame(s, RunOutside(s, t), t)
  {
    if Growing(s.threads[t].pc) {
      GrowFrame(s, t);
    } else if s.threads[t].pc.LoadMask? || s.threads[t].pc.VisitDone? {
      BoundaryFrame(s, t);
    }
  }

  lemma BoundaryFrame(s: State, t: nat)
    requires t < |s.threads| && RunEnabled(s, t) && (s.threads[t].pc.LoadMask? || s.threads[t].pc.VisitDone?)
    ensures OutsideFrame(s, RunOutside(s, t), t)
  {
  }

  lemma GrowFrame(s: State, t: nat)
    requires t < |s.threads| && RunEnabled(s, t) && Growing(s.threads[t].pc)
    ensures OutsideFrame(s, RunOutside(s, t), t)
  {
    var s' := RunOutside(s, t);
    assert s' == s.(tab := s'.tab, segLock := s'.segLock, threads := s.threads[t := s.threads[t].(pc := s'.threads[t].pc)]);
  }
}
