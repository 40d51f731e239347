/**
  Half-done work always has a worker: a flag that is not durable, a filled bucket without
  its flag and an unflagged bucket somebody waits for each have a thread busy with it.
 */
module MapWorkers {
  import opened HashPath
  import opened MapState
  import opened MapInvariant
  import opened MapTable
  import opened MapLocks
  import opened MapThreads

  lemma PersistingKept(ths: seq<Thread>, t: nat, th: Thread, j: nat)
    requires t < |ths| && SomePersisting(ths, j) && (Persisting(ths[t], j) ==> Persisting(th, j))
    ensures SomePersisting(ths[t := th], j)
  {
    var u :| 0 <= u < |ths| && Persisting(ths[u], j);
    assert Persisting(ths[t := th][u], j);
  }

  lemma FlaggingKept(ths: seq<Thread>, t: nat, th: Thread, j: nat)
    requires t < |ths| && SomeFlagging(ths, j) && (Flagging(ths[t], j) ==> Flagging(th, j))
    ensures SomeFlagging(ths[t := th], j)
  {
    var u :| 0 <= u < |ths| && Flagging(ths[u], j);
    assert Flagging(ths[t := th][u], j);
  }

  lemma WritesKept(ths: seq<Thread>, t: nat, th: Thread, j: nat)
    requires t < |ths| && SomeWrites(ths, j) && (Writes(ths[t], j) ==> Writes(th, j))
    ensures SomeWrites(ths[t := th], j)
  {
    var u :| 0 <= u < |ths| && Writes(ths[u], j);
    assert Writes(ths[t := th][u], j);
  }

  /** A thread waits only for buckets that are flagged or being worked on. */
  ghost predicate WaitOk(tab: Table, ths: seq<Thread>, th: Thread)
  {
    th.pc.Block? ==> th.pc.i in tab.flags || SomeWrites(ths, th.pc.i)
  }

  /**
    One thread moves from ths[t] to th while the table moves from tab to tab'. It gives up
    its part of the work only when that work is done.
   */
  lemma WorkersStep(tab: Table, tab': Table, ths: seq<Thread>, t: nat, th: Thread)
    requires t < |ths| && WorkersOk(tab, ths)
    requires tab'.recovered == tab.recovered && tab.flags <= tab'.flags && tab.durable <= tab'.durable
    requires forall j :: j in tab'.flags && j !in tab'.durable ==>
               Persisting(th, j) || (j in tab.flags && (Persisting(ths[t], j) ==> Persisting(th, j)))
    requires forall j: nat :: j >= Pow2(tab.recovered) && j !in tab'.flags && Chain(tab', j) != [] ==>
               Flagging(th, j) || (Chain(tab, j) != [] && (Flagging(ths[t], j) ==> Flagging(th, j)))
    requires forall j :: Writes(ths[t], j) && !Writes(th, j) ==> j in tab'.flags
    requires WaitOk(tab', ths[t := th], th)
    ensures WorkersOk(tab', ths[t := th])
  {
    var ths' := ths[t := th];
    assert ths'[t] == th;
    forall j | j in tab'.flags && j !in tab'.durable ensures SomePersisting(ths', j) {
      if !Persisting(th, j) {
        PersistingKept(ths, t, th, j);
      } else {
        assert Persisting(ths'[t], j);
      }
    }
    forall j: nat | j >= Pow2(tab'.recovered) && j !in tab'.flags && Chain(tab', j) != []
      ensures SomeFlagging(ths', j)
    {
      if !Flagging(th, j) {
        FlaggingKept(ths, t, th, j);
      } else {
        assert Flagging(ths'[t], j);
      }
    }
    forall u | 0 <= u < |ths'| && ths'[u].pc.Block?
      ensures ths'[u].pc.i in tab'.flags || SomeWrites(ths', ths'[u].pc.i)
    {
      if u != t && ths[u].pc.i !in tab'.flags {
        WritesKept(ths, t, th, ths[u].pc.i);
      }
    }
  }

  lemma QuietWorkers(tab: Table, ths: seq<Thread>, t: nat, th: Thread)
    requires t < |ths| && WorkersOk(tab, ths)
    requires !ths[t].pc.Persist? && !ths[t].pc.SetFlag?
    requires forall j :: Writes(ths[t], j) && !Writes(th, j) ==> j in tab.flags
    requires WaitOk(tab, ths[t := th], th)
    ensures WorkersOk(tab, ths[t := th])
  {
    WorkersStep(tab, tab, ths, t, th);
  }

  /** Whoever is in the way of a lock on an unflagged bucket holds it exclusively. */
  lemma HolderWorks(s: State, t: nat, th: Thread, i: nat)
    requires Base(s) && t < |s.threads| && !WriteFree(s, i) && i !in s.tab.flags
    requires Writes(s.threads[t], i) ==> Writes(th, i)
    ensures SomeWrites(s.threads[t := th], i)
  {
    var u :| 0 <= u < |s.threads| && i in s.threads[u].held;
    assert ThreadOk(s.tab, s.threads[u]);
    assert Writes(s.threads[u], i);
    WritesKept(s.threads, t, th, i);
  }

  lemma ResumeNotBlock(th: Thread)
    ensures !Resume(th).pc.Block?
  {
  }

  lemma AcquireWorkers(s: State, t: nat)
    requires Base(s) && t < |s.threads| && RunEnabled(s, t) && Acquiring(s.threads[t].pc)
    ensures var s' := RunAcquire(s, t); WorkersOk(s'.tab, s'.threads)
  {
    var th := s.threads[t];
    var s' := RunAcquire(s, t);
    var th' := s'.threads[t];
    assert s'.threads == s.threads[t := th'];
    assert ThreadOk(s.tab, th);
    match th.pc
    case ReadFlag(i) => QuietWorkers(s.tab, s.threads, t, th');
    case TryLock(i) => TryLockWorkers(s, t);
    case Recheck(i) =>
      ResumeHeld(th);
      ResumeNotBlock(th);
      QuietWorkers(s.tab, s.threads, t, th');
    case Block(i) => BlockWorkers(s, t);
    case CheckChain(i) => QuietWorkers(s.tab, s.threads, t, th');
    case Split(i) => SplitWorkers(s, t);
    case SetFlag(i, split) => WorkersStep(s.tab, s'.tab, s.threads, t, th');
    case Persist(i, split) => PersistWorkers(s, t);
    case DropParent(i) => DropParentWorkers(s, t);
  }

  lemma DropParentWorkers(s: State, t: nat)
    requires Base(s) && t < |s.threads| && RunEnabled(s, t) && s.threads[t].pc.DropParent?
    ensures var s' := RunAcquire(s, t); WorkersOk(s'.tab, s'.threads)
  {
    var th := s.threads[t];
    var unlocked := th.(held := th.held - {Parent(th.pc.i)});
    ResumeHeld(unlocked);
    ResumeNotBlock(unlocked);
    assert RunAcquire(s, t).threads == s.threads[t := Resume(unlocked)];
    QuietWorkers(s.tab, s.threads, t, Resume(unlocked));
  }

  lemma TryLockWorkers(s: State, t: nat)
    requires Base(s) && t < |s.threads| && RunEnabled(s, t) && s.threads[t].pc.TryLock?
    ensures var s' := RunAcquire(s, t); WorkersOk(s'.tab, s'.threads)
  {
    var th' := RunAcquire(s, t).threads[t];
    assert RunAcquire(s, t).threads == s.threads[t := th'];
    var i := s.threads[t].pc.i;
    if !WriteFree(s, i) && i !in s.tab.flags { HolderWorks(s, t, th', i); }
    QuietWorkers(s.tab, s.threads, t, th');
  }

  lemma BlockWorkers(s: State, t: nat)
    requires Base(s) && t < |s.threads| && RunEnabled(s, t) && s.threads[t].pc.Block?
    ensures var s' := RunAcquire(s, t); WorkersOk(s'.tab, s'.threads)
  {
    var th := s.threads[t];
    var locked := th.(held := th.held[th.pc.i := WantsWrite(th)]);
    BlockedDurable(s, t);
    ResumeHeld(locked);
    ResumeNotBlock(locked);
    assert RunAcquire(s, t).threads == s.threads[t := Resume(locked)];
    QuietWorkers(s.tab, s.threads, t, Resume(locked));
  }

  lemma SplitWorkers(s: State, t: nat)
    requires Base(s) && t < |s.threads| && RunEnabled(s, t) && s.threads[t].pc.Split?
    ensures var s' := RunAcquire(s, t); WorkersOk(s'.tab, s'.threads)
  {
    var th := s.threads[t];
    var th' := th.(pc := SetFlag(th.pc.i, true));
    SplitChains(s.tab, th.pc.i);
    assert RunAcquire(s, t).threads == s.threads[t := th'];
    WorkersStep(s.tab, SplitTable(s.tab, th.pc.i), s.threads, t, th');
  }

  lemma PersistWorkers(s: State, t: nat)
    requires Base(s) && t < |s.threads| && RunEnabled(s, t) && s.threads[t].pc.Persist?
    ensures var s' := RunAcquire(s, t); WorkersOk(s'.tab, s'.threads)
  {
    var th := s.threads[t];
    var s' := RunAcquire(s, t);
    ResumeHeld(th);
    ResumeNotBlock(th);
    assert s'.threads == s.threads[t := s'.threads[t]];
    assert forall j: nat :: Chain(s'.tab, j) == Chain(s.tab, j);
    WorkersStep(s.tab, s'.tab, s.threads, t, s'.threads[t]);
  }

  lemma OperationNotBlock(s: State, t: nat)
    requires t < |s.threads| && RunEnabled(s, t) && HasBase(s.threads[t].pc)
    ensures var th := RunOperation(s, t).threads[t];
            !th.pc.Block? && (forall j :: Writes(s.threads[t], j) && !Writes(th, j) ==> j == s.threads[t].base)
  {
    VisitHeld(s.threads[t]);
  }

  lemma OperationWorkers(s: State, t: nat)
    requires Base(s) && t < |s.threads| && RunEnabled(s, t) && HasBase(s.threads[t].pc)
    ensures var s' := RunOperation(s, t); WorkersOk(s'.tab, s'.threads)
  {
    var th := s.threads[t];
    var s' := RunOperation(s, t);
    assert ThreadOk(s.tab, th);
    OperationNotBlock(s, t);
    assert s'.threads == s.threads[t := s'.threads[t]];
    if th.pc.EraseTx? {
      WorkersStep(s.tab, s'.tab, s.threads, t, s'.threads[t]);
    } else {
      QuietWorkers(s.tab, s.threads, t, s'.threads[t]);
    }
  }

  lemma OutsideWorkers(s: State, t: nat)
    requires Base(s) && t < |s.threads| && RunEnabled(s, t)
    requires !Acquiring(s.threads[t].pc) && !HasBase(s.threads[t].pc)
    ensures var s' := RunOutside(s, t); WorkersOk(s'.tab, s'.threads)
  {
    var th := s.threads[t];
    var s' := RunOutside(s, t);
    assert ThreadOk(s.tab, th);
    assert s'.threads == s.threads[t := s'.threads[t]];
    assert forall j: nat :: Chain(s'.tab, j) == Chain(s.tab, j);
    WorkersStep(s.tab, s'.tab, s.threads, t, s'.threads[t]);
  }

  lemma RunWorkers(s: State, t: nat)
    requires Base(s) && t < |s.threads| && RunEnabled(s, t)
    ensures var s' := RunThread(s, t); WorkersOk(s'.tab, s'.threads)
  {
    if Acquiring(s.threads[t].pc) {
      AcquireWorkers(s, t);
    } else if HasBase(s.threads[t].pc) {
      OperationWorkers(s, t);
    } else {
      OutsideWorkers(s, t);
    }
  }

  lemma AllocWorkers(s: State, t: nat, id: nat)
    requires Base(s) && Enabled(s, Alloc(t, id))
    ensures var s' := Apply(s, Alloc(t, id)); WorkersOk(s'.tab, s'.threads)
  {
    var s' := Apply(s, Alloc(t, id));
    assert ThreadOk(s.tab, s.threads[t]);
    assert s'.threads == s.threads[t := s'.threads[t]];
    WorkersStep(s.tab, s'.tab, s.threads, t, s'.threads[t]);
  }
}
