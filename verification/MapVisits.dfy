/**
  The traversals of defragment and rehash: a visit rehashes every bucket of its range, whether it
  keeps or drops it, and keeps the others locked exclusively until it is over.
 */
module MapVisits {
  import opened HashPath
  import opened MapState
  import opened MapInvariant
  import opened MapFrame
  import opened MapLocks
  import opened MapReachable

  /** The buckets from lo up to hi are rehashed, and their flags persisted. */
  ghost predicate Rehashed(tab: Table, lo: nat, hi: nat)
  {
    forall k: nat :: lo <= k <= hi ==> k in tab.durable
  }

  ghost predicate VisitOk(tab: Table, th: Thread)
  {
    th.op.Visit? && !th.pc.Idle? ==>
      && (Acquiring(th.pc) ==> th.op.lo <= th.base <= th.op.hi && Rehashed(tab, th.base + 1, th.op.hi))
      && (th.pc.Visited? ==> th.op.lo <= th.base <= th.op.hi && Rehashed(tab, th.base, th.op.hi))
      && (th.pc.VisitDone? || th.pc.Return? ==> Rehashed(tab, th.op.lo, th.op.hi))
  }

  ghost predicate VisitsOk(s: State)
  {
    forall u :: 0 <= u < |s.threads| ==> VisitOk(s.tab, s.threads[u])
  }

  // ---------- the steps ----------

  lemma DurableGrows(s: State, t: nat)
    requires t < |s.threads| && RunEnabled(s, t)
    ensures s.tab.durable <= RunThread(s, t).tab.durable
  {
    if !Acquiring(s.threads[t].pc) && !HasBase(s.threads[t].pc) {
      OutsideFrameOk(s, t);
    }
  }

  lemma VisitKept(tab: Table, tab': Table, th: Thread)
    requires VisitOk(tab, th) && tab.durable <= tab'.durable
    ensures VisitOk(tab', th)
  {
  }

  lemma AcquireBase(s: State, t: nat)
    requires t < |s.threads| && RunEnabled(s, t) && Acquiring(s.threads[t].pc)
    ensures t < |RunAcquire(s, t).threads| && RunAcquire(s, t).threads[t].base == s.threads[t].base
  {
    ResumeBase(s.threads[t]);
  }

  lemma ResumeBase(th: Thread)
    ensures Resume(th).base == th.base
  {
  }

  lemma AcquireVisit(s: State, t: nat)
    requires t < |s.threads| && RunEnabled(s, t) && Acquiring(s.threads[t].pc) && VisitOk(s.tab, s.threads[t])
    requires ThreadOk(RunAcquire(s, t).tab, RunAcquire(s, t).threads[t])
    ensures VisitOk(RunAcquire(s, t).tab, RunAcquire(s, t).threads[t])
  {
    var s' := RunAcquire(s, t);
    AcquireFrameOk(s, t);
    AcquireBase(s, t);
    DurableGrows(s, t);
    assert s'.threads[t].pc.Visited? ==> s'.threads[t].base in s'.tab.durable;
  }

  lemma NextVisitOk(tab: Table, th: Thread)
    requires th.op.Visit? && th.op.lo <= th.base <= th.op.hi && Rehashed(tab, th.base, th.op.hi)
    ensures VisitOk(tab, NextVisit(th))
  {
  }

  lemma OperationVisit(s: State, t: nat)
    requires t < |s.threads| && RunEnabled(s, t) && HasBase(s.threads[t].pc)
    requires OpOk(s.threads[t]) && VisitOk(s.tab, s.threads[t])
    ensures VisitOk(RunOperation(s, t).tab, RunOperation(s, t).threads[t])
  {
    var th := s.threads[t];
    if th.pc.Visited? {
      NextVisitOk(s.tab, th);
    } else if Looking(th.pc) {
      LookFrameOk(s, t);
    }
  }

  lemma OutsideVisit(s: State, t: nat)
    requires t < |s.threads| && RunEnabled(s, t) && !Acquiring(s.threads[t].pc) && !HasBase(s.threads[t].pc)
    requires OpOk(s.threads[t]) && VisitOk(s.tab, s.threads[t])
    ensures VisitOk(RunOutside(s, t).tab, RunOutside(s, t).threads[t])
  {
    OutsideFrameOk(s, t);
  }

  lemma RunVisits(s: State, t: nat)
    requires VisitsOk(s) && t < |s.threads| && RunEnabled(s, t) && OpOk(s.threads[t])
    requires ThreadsOk(RunThread(s, t)) && OneThread(s, RunThread(s, t), t)
    ensures VisitsOk(RunThread(s, t))
  {
    var s' := RunThread(s, t);
    DurableGrows(s, t);
    forall u | 0 <= u < |s'.threads| ensures VisitOk(s'.tab, s'.threads[u]) {
      assert VisitOk(s.tab, s.threads[u]) && ThreadOk(s'.tab, s'.threads[u]);
      if u != t {
        VisitKept(s.tab, s'.tab, s.threads[u]);
      } else if Acquiring(s.threads[t].pc) {
        AcquireVisit(s, t);
      } else if HasBase(s.threads[t].pc) {
        OperationVisit(s, t);
      } else {
        OutsideVisit(s, t);
      }
    }
  }

  /** A step of one thread that leaves the table alone. */
  lemma PutVisits(s: State, t: nat, th: Thread)
    requires VisitsOk(s) && t < |s.threads| && VisitOk(s.tab, th)
    ensures VisitsOk(Put(s, t, th))
  {
    assert forall u :: 0 <= u < |s.threads| ==> VisitOk(s.tab, s.threads[u]);
  }

  lemma StartVisit(tab: Table, th: Thread, op: Op)
    requires op.Visit? ==> op.lo <= op.hi
    ensures VisitOk(tab, Start(tab, th, op))
  {
  }

  lemma SameVisits(s: State, s': State)
    requires VisitsOk(s) && s'.threads == s.threads && s'.tab.durable == s.tab.durable
    ensures VisitsOk(s')
  {
    assert forall u :: 0 <= u < |s.threads| ==> VisitOk(s.tab, s.threads[u]);
  }

  lemma AllocVisits(s: State, t: nat, id: nat)
    requires VisitsOk(s) && Enabled(s, Alloc(t, id))
    ensures VisitsOk(Apply(s, Alloc(t, id)))
  {
    assert forall u :: 0 <= u < |s.threads| ==> VisitOk(s.tab, s.threads[u]);
  }

  lemma DropVisits(s: State, t: nat)
    requires VisitsOk(s) && Enabled(s, Drop(t)) && OpOk(s.threads[t])
    ensures VisitsOk(Apply(s, Drop(t)))
  {
    assert VisitOk(s.tab, s.threads[t]);
    NextVisitOk(s.tab, Unlocked(s.threads[t]));
    PutVisits(s, t, NextVisit(Unlocked(s.threads[t])));
  }

  lemma IdleVisits(s: State)
    requires forall u :: 0 <= u < |s.threads| ==> s.threads[u].pc.Idle?
    ensures VisitsOk(s)
  {
  }

  lemma QuietVisits(s: State, a: Action)
    requires VisitsOk(s) && Enabled(s, a)
    requires a.Invoke? || a.GiveUp? || a.Respond? || a.Release?
    requires a.GiveUp? ==> OpOk(s.threads[a.t])
    ensures VisitsOk(Apply(s, a))
  {
    match a
    case Invoke(t, op) => StartVisit(s.tab, s.threads[t], op); PutVisits(s, t, Start(s.tab, s.threads[t], op));
    case GiveUp(t) => PutVisits(s, t, s.threads[t].(pc := UnlockReload));
    case Respond(t) => PutVisits(s, t, s.threads[t].(pc := Idle));
    case Release(t, id) => PutVisits(s, t, s.threads[t].(accs := s.threads[t].accs - {id}));
  }

  /** Every action keeps it. */
  lemma ActionVisits(s: State, a: Action)
    requires Base(s) && VisitsOk(s) && Enabled(s, a) && ThreadsOk(Apply(s, a))
    ensures VisitsOk(Apply(s, a))
  {
    match a
    case Run(t) => StepVisits(s, t);
    case Alloc(t, id) => AllocVisits(s, t, id);
    case Drop(t) => assert Shape(s.threads[t]); DropVisits(s, t);
    case Load(_, _) =>
    case Assign(_, _, _) => SameVisits(s, Apply(s, a));
    case Clear => IdleVisits(Apply(s, a));
    case Crash(_) => IdleVisits(Apply(s, a));
    case GiveUp(t) => assert Shape(s.threads[t]); QuietVisits(s, a);
    case Invoke(_, _) => QuietVisits(s, a);
    case Respond(_) => QuietVisits(s, a);
    case Release(_, _) => QuietVisits(s, a);
  }

  lemma StepVisits(s: State, t: nat)
    requires Base(s) && VisitsOk(s) && t < |s.threads| && RunEnabled(s, t) && ThreadsOk(RunThread(s, t))
    ensures VisitsOk(RunThread(s, t))
  {
    assert Shape(s.threads[t]);
    RunOneThread(s, t);
    RunVisits(s, t);
  }

  lemma {:induction false} ReachableVisits(s: State, acts: seq<Action>)
    requires Inv(s) && VisitsOk(s) && CanRun(s, acts)
    ensures VisitsOk(After(s, acts))
    decreases |acts|
  {
    if acts != [] {
      ActionInv(s, acts[0]);
      ActionVisits(s, acts[0]);
      ReachableVisits(Apply(s, acts[0]), acts[1..]);
    }
  }

  // ---------- the locks of a visit ----------

  /** Bucket k was visited and is still locked exclusively. */
  predicate Kept(th: Thread, k: nat)
  {
    th.op.Visit? && k in th.held && th.held[k] &&
    ((th.pc.Visited? && th.base <= k) || (Acquiring(th.pc) && th.base < k) || th.pc.VisitDone?)
  }

  /** In a run from s thread t neither drops bucket k nor finishes its visit, and nothing crashes. */
  ghost predicate KeepsOn(s: State, acts: seq<Action>, t: nat, k: nat)
    requires CanRun(s, acts)
    decreases |acts|
  {
    acts != [] && t < |s.threads| ==>
      && !acts[0].Crash?
      && !(acts[0] == Run(t) && s.threads[t].pc.VisitDone?)
      && !(acts[0] == Drop(t) && s.threads[t].base == k)
      && KeepsOn(Apply(s, acts[0]), acts[1..], t, k)
  }

  lemma AcquireKeeps(s: State, t: nat, k: nat)
    requires t < |s.threads| && RunEnabled(s, t) && Acquiring(s.threads[t].pc)
    requires Kept(s.threads[t], k) && s.threads[t].pc.i <= s.threads[t].base
    ensures Kept(RunAcquire(s, t).threads[t], k)
  {
    var th := s.threads[t];
    AcquireFrameOk(s, t);
    AcquireBase(s, t);
    AcquireHeld(s, t, k);
  }

  lemma AcquireHeld(s: State, t: nat, k: nat)
    requires t < |s.threads| && RunEnabled(s, t) && Acquiring(s.threads[t].pc)
    requires k in s.threads[t].held && s.threads[t].pc.i < k
    ensures t < |RunAcquire(s, t).threads|
    ensures var held := RunAcquire(s, t).threads[t].held; k in held && held[k] == s.threads[t].held[k]
  {
    ResumeHeld(s.threads[t]);
    if s.threads[t].pc.Block? {
      ResumeHeld(s.threads[t].(held := s.threads[t].held[s.threads[t].pc.i := WantsWrite(s.threads[t])]));
    } else if s.threads[t].pc.DropParent? {
      ResumeHeld(s.threads[t].(held := s.threads[t].held - {Parent(s.threads[t].pc.i)}));
    }
  }

  lemma ActionKeeps(s: State, a: Action, t: nat, k: nat)
    requires Enabled(s, a) && t < |s.threads| && Kept(s.threads[t], k) && Shape(s.threads[t])
    requires !a.Crash? && !(a == Run(t) && s.threads[t].pc.VisitDone?) && !(a == Drop(t) && s.threads[t].base == k)
    ensures t < |Apply(s, a).threads| && Kept(Apply(s, a).threads[t], k)
  {
    if a.Run? {
      RunOneThread(s, a.t);
      if a.t == t && Acquiring(s.threads[t].pc) {
        AcquireKeeps(s, t, k);
      }
    }
  }

  /** A bucket that a visit has gone through stays locked exclusively until the visit drops it or ends. */
  lemma {:induction false} KeptHeld(s: State, acts: seq<Action>, t: nat, k: nat)
    requires Inv(s) && t < |s.threads| && Kept(s.threads[t], k) && CanRun(s, acts) && KeepsOn(s, acts, t, k)
    ensures t < |After(s, acts).threads| && Kept(After(s, acts).threads[t], k)
    decreases |acts|
  {
    if acts != [] {
      assert ThreadOk(s.tab, s.threads[t]);
      ActionKeeps(s, acts[0], t, k);
      ActionInv(s, acts[0]);
      KeptHeld(Apply(s, acts[0]), acts[1..], t, k);
    }
  }
}
