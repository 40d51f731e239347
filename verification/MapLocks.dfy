/** Bucket locks exclude each other in every reachable state. */
module MapLocks {
  import opened MapState
  import opened MapInvariant

  /** A thread keeps the locks it had, gives some up, or takes one that nobody is in the way of. */
  ghost predicate LockStep(s: State, t: nat, held: map<nat, bool>)
    requires t < |s.threads|
  {
    forall k :: k in held ==>
      || (k in s.threads[t].held && held[k] == s.threads[t].held[k])
      || WriteFree(s, k)
      || (!held[k] && ReadFree(s, k))
  }

  lemma LockStepOk(s: State, t: nat, th: Thread)
    requires t < |s.threads| && LocksOk(s.threads) && LockStep(s, t, th.held)
    ensures LocksOk(s.threads[t := th])
  {
    forall u | 0 <= u < |s.threads| && u != t ensures Compatible(th, s.threads[u]) && Compatible(s.threads[u], th) {
      assert Compatible(s.threads[t], s.threads[u]);
    }
  }

  /** A step changes the record of its own thread only. */
  lemma RunOneThread(s: State, t: nat)
    requires t < |s.threads| && RunEnabled(s, t)
    ensures var s' := RunThread(s, t);
            |s'.threads| == |s.threads| && forall u :: 0 <= u < |s.threads| && u != t ==> s'.threads[u] == s.threads[u]
  {
  }

  ghost predicate Shrinks(before: map<nat, bool>, after: map<nat, bool>)
  {
    forall k :: k in after ==> k in before && after[k] == before[k]
  }

  /** Every step but the two that take a bucket lock. */
  lemma RunShrinks(s: State, t: nat)
    requires t < |s.threads| && RunEnabled(s, t)
    requires !s.threads[t].pc.TryLock? && !s.threads[t].pc.Block?
    ensures Shrinks(s.threads[t].held, RunThread(s, t).threads[t].held)
  {
    var th := s.threads[t];
    if Acquiring(th.pc) {
      RunAcquireShrinks(s, t);
    } else if HasBase(th.pc) {
      RunOperationShrinks(s, t);
    }
  }

  lemma RunAcquireShrinks(s: State, t: nat)
    requires t < |s.threads| && RunEnabled(s, t) && Acquiring(s.threads[t].pc)
    requires !s.threads[t].pc.TryLock? && !s.threads[t].pc.Block?
    ensures Shrinks(s.threads[t].held, RunAcquire(s, t).threads[t].held)
  {
    ResumeHeld(s.threads[t]);
  }

  lemma RunOperationShrinks(s: State, t: nat)
    requires t < |s.threads| && RunEnabled(s, t) && HasBase(s.threads[t].pc)
    ensures Shrinks(s.threads[t].held, RunOperation(s, t).threads[t].held)
  {
    VisitHeld(s.threads[t]);
  }

  lemma ResumeHeld(th: Thread)
    ensures Resume(th).held == th.held
  {
  }

  lemma VisitHeld(th: Thread)
    ensures NextVisit(th).held == th.held
  {
  }

  lemma RunLockStep(s: State, t: nat)
    requires t < |s.threads| && RunEnabled(s, t)
    ensures var s' := RunThread(s, t); t < |s'.threads| && LockStep(s, t, s'.threads[t].held)
  {
    var th := s.threads[t];
    if th.pc.TryLock? {
    } else if th.pc.Block? {
      var i, w := th.pc.i, WantsWrite(th);
      ResumeHeld(th.(held := th.held[i := w]));
      assert RunThread(s, t).threads[t].held == th.held[i := w];
    } else {
      RunShrinks(s, t);
    }
  }

  lemma RunLocks(s: State, t: nat)
    requires t < |s.threads| && RunEnabled(s, t) && LocksOk(s.threads)
    ensures LocksOk(RunThread(s, t).threads)
  {
    var s' := RunThread(s, t);
    RunOneThread(s, t);
    RunLockStep(s, t);
    assert s'.threads == s.threads[t := s'.threads[t]];
    LockStepOk(s, t, s'.threads[t]);
  }
}
