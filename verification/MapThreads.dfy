/** Every step keeps the table and every thread consistent. */
module MapThreads {
  import opened HashPath
  import opened ChainSplit
  import opened MapState
  import opened MapInvariant
  import opened MapActor
  import opened MapOthers
  import opened MapLocks

  lemma PersistingWrites(th: Thread, i: nat)
    requires Shape(th) && Persisting(th, i)
    ensures Writes(th, i)
  {
    assert Owns(th, i);
  }

  lemma FlaggingWrites(th: Thread, i: nat)
    requires Shape(th) && Flagging(th, i)
    ensures i >= 2 && Writes(th, i) && Writes(th, Parent(i))
  {
    assert Owns(th, i) && Owns(th, Parent(i));
  }

  lemma BaseHeld(th: Thread)
    requires Shape(th) && HasBase(th.pc)
    ensures th.base in th.held
  {
    assert Owns(th, th.base);
  }

  /** A flagged bucket that nobody has locked exclusively is durable. */
  lemma FlaggedDurable(s: State, i: nat)
    requires Base(s) && ReadFree(s, i) && i in s.tab.flags
    ensures i in s.tab.durable
  {
    if i !in s.tab.durable {
      var u :| 0 <= u < |s.threads| && Persisting(s.threads[u], i);
      PersistingWrites(s.threads[u], i);
      assert false;
    }
  }

  /** When the blocking acquire gets the lock, the bucket has been rehashed by someone else. */
  lemma BlockedDurable(s: State, t: nat)
    requires Base(s) && t < |s.threads| && s.threads[t].pc.Block? && RunEnabled(s, t)
    ensures s.threads[t].pc.i in s.tab.durable
  {
    var i := s.threads[t].pc.i;
    assert ReadFree(s, i);
    assert forall u :: 0 <= u < |s.threads| ==> !Writes(s.threads[u], i);
    FlaggedDurable(s, i);
  }

  /** A thread that has bucket j's parent locked sees no half-done rehash of j. */
  lemma NextNotFilled(s: State, t: nat)
    requires Base(s) && t < |s.threads| && s.threads[t].pc.ReadNextFlag? && s.threads[t].pc.j !in s.tab.flags
    ensures Chain(s.tab, s.threads[t].pc.j) == []
  {
    var th := s.threads[t];
    var j := th.pc.j;
    BaseHeld(th);
    if Chain(s.tab, j) != [] {
      var u :| 0 <= u < |s.threads| && Flagging(s.threads[u], j);
      FlaggingWrites(s.threads[u], j);
      assert false;
    }
  }

  lemma AcquireActor(s: State, t: nat)
    requires Base(s) && t < |s.threads| && RunEnabled(s, t) && Acquiring(s.threads[t].pc)
    ensures var s' := RunAcquire(s, t); TableOk(s'.tab) && ThreadOk(s'.tab, s'.threads[t])
  {
    var th := s.threads[t];
    assert ThreadOk(s.tab, th);
    match th.pc
    case ReadFlag(i) => ReadFlagOk(s.tab, th);
    case TryLock(i) =>
      if WriteFree(s, i) {
        if i in s.tab.flags { FlaggedDurable(s, i); }
        TryLockOk(s.tab, th);
      } else {
        TryLockFailOk(s.tab, th);
      }
    case Recheck(i) => if i in s.tab.flags { RecheckOk(s.tab, th); } else { RecheckUnflaggedOk(s.tab, th); }
    case Block(i) => BlockedDurable(s, t); BlockOk(s.tab, th);
    case CheckChain(i) =>
      if Chain(s.tab, i) != [] { CheckChainFilledOk(s.tab, th); } else { CheckChainEmptyOk(s.tab, th); }
    case Split(i) => SplitOk(s.tab, th);
    case SetFlag(i, split) => SetFlagOk(s.tab, th);
    case Persist(i, split) =>
      PersistActor(s.tab, th);
    case DropParent(i) => DropParentOk(s.tab, th);
  }

  lemma PersistActor(tab: Table, th: Thread)
    requires TableOk(tab) && ThreadOk(tab, th) && th.pc.Persist?
    ensures var tab' := tab.(durable := tab.durable + {th.pc.i});
            TableOk(tab') && ThreadOk(tab', if th.pc.split then th.(pc := DropParent(th.pc.i)) else Resume(th))
  {
    PersistKeepsThread(tab, th, th.pc.i);
    var tab' := tab.(durable := tab.durable + {th.pc.i});
    if th.pc.split { PersistSplitOk(tab', th); } else { PersistFilledOk(tab', th); }
  }

  lemma AcquireOthers(s: State, t: nat, u: nat)
    requires Base(s) && t < |s.threads| && RunEnabled(s, t) && Acquiring(s.threads[t].pc)
    requires u < |s.threads| && u != t
    ensures ThreadOk(RunAcquire(s, t).tab, s.threads[u])
  {
    var th := s.threads[t];
    assert ThreadOk(s.tab, th) && ThreadOk(s.tab, s.threads[u]) && Compatible(th, s.threads[u]);
    match th.pc
    case Split(i) => SplitOthers(s.tab, th, s.threads[u]);
    case SetFlag(i, split) => SetFlagOthers(s.tab, th, s.threads[u]);
    case Persist(i, split) => PersistOthers(s.tab, i, s.threads[u]);
    case _ =>
  }

  lemma OperationActor(s: State, t: nat)
    requires Base(s) && t < |s.threads| && RunEnabled(s, t) && HasBase(s.threads[t].pc)
    ensures var s' := RunOperation(s, t); TableOk(s'.tab) && ThreadOk(s'.tab, s'.threads[t])
  {
    var th := s.threads[t];
    assert ThreadOk(s.tab, th);
    match th.pc
    case Search => SearchOk(s.tab, th);
    case LoadMaskAgain => LoadMaskAgainOk(s.tab, th);
    case ReadNextFlag(j) =>
      if j !in s.tab.flags { NextNotFilled(s, t); }
      ReadNextFlagOk(s.tab, th);
    case TryItem => TryItemOk(s.tab, th, th.accs[th.found := ItemWrite(th.op)]);
    case DropItem => StayOk(s.tab, th, th.(pc := EraseTx, accs := th.accs - {th.found}));
    case EraseTx => EraseOk(s.tab, th);
    case BumpSize => BumpSizeOk(s, t);
    case UnlockAgain => UnlockAgainOk(s.tab, th);
    case UnlockReload => UnlockReloadOk(s.tab, th);
    case UnlockDone => UnlockDoneOk(s.tab, th);
    case Visited => VisitedOk(s.tab, th, th.held); assert th.(held := th.held) == th;
    case InsertTx =>
  }

  lemma BumpSizeOk(s: State, t: nat)
    requires Base(s) && t < |s.threads| && RunEnabled(s, t) && s.threads[t].pc.BumpSize?
    ensures ThreadOk(s.tab, RunOperation(s, t).threads[t])
  {
    assert ThreadOk(s.tab, s.threads[t]);
    StayOk(s.tab, s.threads[t], RunOperation(s, t).threads[t]);
  }

  lemma OperationOthers(s: State, t: nat, u: nat)
    requires Base(s) && t < |s.threads| && RunEnabled(s, t) && HasBase(s.threads[t].pc)
    requires u < |s.threads| && u != t
    ensures ThreadOk(RunOperation(s, t).tab, s.threads[u])
  {
    var th := s.threads[t];
    assert ThreadOk(s.tab, th) && ThreadOk(s.tab, s.threads[u]) && Compatible(th, s.threads[u]);
    if th.pc.EraseTx? {
      assert Owns(th, th.base);
      ChainOthers(s.tab, th, s.threads[u], th.base, Without(Chain(s.tab, th.base), th.found));
    }
  }

  lemma OutsideActor(s: State, t: nat)
    requires TableOk(s.tab) && SegmentOk(s) && t < |s.threads| && RunEnabled(s, t) && ThreadOk(s.tab, s.threads[t])
    requires !Acquiring(s.threads[t].pc) && !HasBase(s.threads[t].pc)
    ensures var s' := RunOutside(s, t); TableOk(s'.tab) && ThreadOk(s'.tab, s'.threads[t])
  {
    var th := s.threads[t];
    assert ThreadOk(s.tab, th);
    match th.pc
    case LoadMask => LoadMaskOk(s.tab, th);
    case VisitDone => VisitOverOk(s.tab, th);
    case TrySegment => OutsideOk(s.tab, s.tab, th, if s.segLock.None? then CheckMask else Return);
    case CheckMask => OutsideOk(s.tab, s.tab, th, if s.tab.level == th.level then EnableTx else UnlockSegment);
    case EnableTx => GrowActor(s.tab, th, s.tab.level, NextTable(th.level), StoreMask);
    case StoreMask => GrowActor(s.tab, th, NextTable(th.level), s.tab.enabled, UnlockSegment);
    case UnlockSegment => OutsideOk(s.tab, s.tab, th, Return);
    case _ =>
  }

  lemma VisitOverOk(tab: Table, th: Thread)
    requires ThreadOk(tab, th) && th.pc.VisitDone?
    ensures ThreadOk(tab, th.(pc := Return, held := map[], result := true))
  {
  }

  lemma GrowActor(tab: Table, th: Thread, level: nat, enabled: nat, pc: Pc)
    requires TableOk(tab) && ThreadOk(tab, th) && Growing(th.pc) && Growing(pc)
    requires tab.level <= level <= enabled
    ensures var tab' := tab.(level := level, enabled := enabled); TableOk(tab') && ThreadOk(tab', th.(pc := pc))
  {
    LevelKeepsTable(tab, level, enabled);
    OutsideOk(tab, tab.(level := level, enabled := enabled), th, pc);
  }

  lemma OutsideOthers(s: State, t: nat, u: nat)
    requires Base(s) && SegmentOk(s) && t < |s.threads| && RunEnabled(s, t)
    requires !Acquiring(s.threads[t].pc) && !HasBase(s.threads[t].pc)
    requires u < |s.threads| && u != t
    ensures ThreadOk(RunOutside(s, t).tab, s.threads[u])
  {
    var tab' := RunOutside(s, t).tab;
    LevelOthers(s.tab, tab'.level, tab'.enabled, s.threads[u]);
    assert tab' == s.tab.(level := tab'.level, enabled := tab'.enabled);
  }

  lemma RunThreads(s: State, t: nat)
    requires Base(s) && SegmentOk(s) && t < |s.threads| && RunEnabled(s, t)
    ensures TableOk(RunThread(s, t).tab) && ThreadsOk(RunThread(s, t))
  {
    var s' := RunThread(s, t);
    RunOneThread(s, t);
    forall u | 0 <= u < |s.threads| ensures ThreadOk(s'.tab, s'.threads[u]) {
      if Acquiring(s.threads[t].pc) {
        if u == t { AcquireActor(s, t); } else { AcquireOthers(s, t, u); }
      } else if HasBase(s.threads[t].pc) {
        if u == t { OperationActor(s, t); } else { OperationOthers(s, t, u); }
      } else {
        if u == t { OutsideActor(s, t); } else { OutsideOthers(s, t, u); }
      }
    }
    if Acquiring(s.threads[t].pc) {
      AcquireActor(s, t);
    } else if HasBase(s.threads[t].pc) {
      OperationActor(s, t);
    } else {
      OutsideActor(s, t);
    }
  }

  lemma AllocThreads(s: State, t: nat, id: nat)
    requires Base(s) && Enabled(s, Alloc(t, id))
    ensures var s' := Apply(s, Alloc(t, id)); TableOk(s'.tab) && ThreadsOk(s')
  {
    var s' := Apply(s, Alloc(t, id));
    var th := s.threads[t];
    assert ThreadOk(s.tab, th);
    AllocOk(s.tab, th, id);
    assert Owns(th, th.base);
    forall u | 0 <= u < |s.threads| && u != t ensures ThreadOk(s'.tab, s.threads[u]) {
      assert Compatible(th, s.threads[u]);
      ChainOthers(s.tab, th, s.threads[u], th.base, [Node(id, th.op.key)] + Chain(s.tab, th.base));
    }
  }
}
