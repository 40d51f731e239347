/**
  An operation that runs alone on a map at rest completes: it is never in its own way, and a number
  that bounds its remaining steps goes down.
 */
module MapSolo {
  import opened HashPath
  import opened MapState
  import opened MapInvariant
  import opened MapFrame
  import opened MapLocks
  import opened MapItems
  import opened MapReachable
  import opened MapGrowth
  import opened MapHandles
  import opened MapTheorems

  // ---------- how much is left to do ----------

  /** For the buckets of a visit from b down. */
  function VisitCost(b: nat): nat
  {
    if b == 0 then 0 else VisitCost(b - 1) + 12 * b + 40
  }

  /** Once the bucket is acquired. */
  function Tail(th: Thread): nat
  {
    if th.op.Visit? then VisitCost(th.base) + 4 else 30
  }

  /** In the bucket that is being acquired. */
  function Steps(pc: Pc): nat
    requires Acquiring(pc)
  {
    match pc
    case ReadFlag(i) => 12 * i + 11
    case TryLock(i) => 12 * i + 10
    case Recheck(i) => 12 * i + 9
    case CheckChain(i) => 12 * i + 7
    case Block(i) => 12 * i + 5
    case Split(_) => 5
    case SetFlag(_, _) => 4
    case Persist(_, _) => 3
    case DropParent(_) => 2
  }

  /** In what follows. */
  function Stage(pc: Pc, inserted: bool): nat
  {
    match pc
    case Search => 20
    case LoadMaskAgain => 19
    case InsertTx => 18
    case TryItem => if inserted then 12 else 16
    case DropItem => 15
    case EraseTx => 14
    case BumpSize => 13
    case UnlockDone => 11
    case TrySegment => 10
    case CheckMask => 9
    case EnableTx => 8
    case StoreMask => 7
    case UnlockSegment => 6
    case VisitDone => 2
    case Return => 1
    case _ => 0
  }

  function Rank(level: nat, th: Thread): nat
  {
    if th.pc.LoadMask? then 12 * Pow2(level) + 100
    else if Acquiring(th.pc) then Steps(th.pc) + 6 * |th.stack| + Tail(th)
    else if th.pc.Visited? then VisitCost(th.base) + 3
    else Stage(th.pc, th.op.Insert? && th.inserted)
  }

  // ---------- a thread that runs alone ----------

  predicate Taking(pc: Pc)
  {
    pc.DropItem? || pc.UnlockDone? || pc.TrySegment? || Growing(pc) || pc.Return?
  }

  predicate SoloThread(level: nat, th: Thread)
  {
    && ((Acquiring(th.pc) || th.pc.Search? || th.pc.LoadMaskAgain?) && !th.op.Visit? ==> th.level == level)
    && !th.pc.ReadNextFlag? && !th.pc.UnlockAgain? && !th.pc.UnlockReload?
    && (!Taking(th.pc) ==> th.accs == map[]) && (th.pc.DropItem? ==> th.accs.Keys <= {th.found})
  }

  ghost predicate Solo(s: State, t: nat)
  {
    t < |s.threads| && OthersRest(s, t) && SoloThread(s.tab.level, s.threads[t])
  }

  lemma ResumeRank(level: nat, th: Thread)
    requires Acquiring(th.pc)
    ensures var r := Resume(th);
      && Rank(level, r) <= (if th.stack == [] then Tail(th) - 1 else 6 * |th.stack| - 1 + Tail(th))
      && (SoloThread(level, th) ==> SoloThread(level, r))
  {
  }

  /** The step of thread t brings it nearer to its end. */
  ghost predicate Nearer(s: State, s': State, t: nat)
    requires t < |s.threads|
  {
    var holds :=
      && t < |s'.threads| && SoloThread(s'.tab.level, s'.threads[t])
      && Rank(s'.tab.level, s'.threads[t]) < Rank(s.tab.level, s.threads[t]);
    holds
  }

  lemma AcquireRank(s: State, t: nat)
    requires t < |s.threads| && RunEnabled(s, t) && Acquiring(s.threads[t].pc) && SoloThread(s.tab.level, s.threads[t])
    ensures Nearer(s, RunAcquire(s, t), t)
  {
    var pc := s.threads[t].pc;
    if pc.Recheck? || pc.Block? || pc.Persist? || pc.DropParent? {
      ReturnRank(s, t);
    } else {
      EnterRank(s, t);
    }
  }

  lemma EnterRank(s: State, t: nat)
    requires t < |s.threads| && RunEnabled(s, t) && SoloThread(s.tab.level, s.threads[t])
    requires var pc := s.threads[t].pc; pc.ReadFlag? || pc.TryLock? || pc.CheckChain? || pc.Split? || pc.SetFlag?
    ensures Nearer(s, RunAcquire(s, t), t)
  {
    EnterSteps(s, t);
    EnterNearer(s, RunAcquire(s, t), t);
  }

  lemma EnterSteps(s: State, t: nat)
    requires t < |s.threads| && RunEnabled(s, t)
    requires var pc := s.threads[t].pc; pc.ReadFlag? || pc.TryLock? || pc.CheckChain? || pc.Split? || pc.SetFlag?
    ensures var s' := RunAcquire(s, t); t < |s'.threads| && s'.tab.level == s.tab.level && var th, th' := s.threads[t], s'.threads[t];
      && Acquiring(th'.pc) && th' == th.(pc := th'.pc, stack := th'.stack, held := th'.held)
      && Steps(th'.pc) + 6 * |th'.stack| < Steps(th.pc) + 6 * |th.stack|
  {
  }

  lemma EnterNearer(s: State, s': State, t: nat)
    requires t < |s.threads| && t < |s'.threads| && s'.tab.level == s.tab.level && SoloThread(s.tab.level, s.threads[t])
    requires var th, th' := s.threads[t], s'.threads[t];
      && Acquiring(th.pc) && Acquiring(th'.pc) && th' == th.(pc := th'.pc, stack := th'.stack, held := th'.held)
      && Steps(th'.pc) + 6 * |th'.stack| < Steps(th.pc) + 6 * |th.stack|
    ensures Nearer(s, s', t)
  {
  }

  lemma ReturnRank(s: State, t: nat)
    requires t < |s.threads| && RunEnabled(s, t) && SoloThread(s.tab.level, s.threads[t])
    requires var pc := s.threads[t].pc; pc.Recheck? || pc.Block? || pc.Persist? || pc.DropParent?
    ensures Nearer(s, RunAcquire(s, t), t)
  {
    var th := s.threads[t];
    ResumeRank(s.tab.level, th);
    if th.pc.Block? {
      ResumeRank(s.tab.level, th.(held := th.held[th.pc.i := WantsWrite(th)]));
    } else if th.pc.DropParent? {
      ResumeRank(s.tab.level, th.(held := th.held - {Parent(th.pc.i)}));
    }
  }

  lemma VisitRank(level: nat, th: Thread)
    requires th.pc.Visited? && th.op.Visit? && SoloThread(level, th)
    ensures Rank(level, NextVisit(th)) < Rank(level, th) && SoloThread(level, NextVisit(th))
  {
  }

  lemma OperationRank(s: State, t: nat)
    requires t < |s.threads| && RunEnabled(s, t) && HasBase(s.threads[t].pc) && SoloThread(s.tab.level, s.threads[t])
    requires OpOk(s.threads[t]) && RetryOk(s.threads[t])
    ensures Nearer(s, RunOperation(s, t), t)
  {
    var pc := s.threads[t].pc;
    if pc.Visited? {
      VisitRank(s.tab.level, s.threads[t]);
    } else if pc.Search? || pc.LoadMaskAgain? {
      SearchRank(s, t);
    } else {
      ItemRank(s, t);
    }
  }

  lemma SearchRank(s: State, t: nat)
    requires t < |s.threads| && RunEnabled(s, t) && (s.threads[t].pc.Search? || s.threads[t].pc.LoadMaskAgain?)
    requires SoloThread(s.tab.level, s.threads[t]) && OpOk(s.threads[t]) && RetryOk(s.threads[t])
    ensures Nearer(s, RunOperation(s, t), t)
  {
  }

  lemma ItemRank(s: State, t: nat)
    requires t < |s.threads| && RunEnabled(s, t) && SoloThread(s.tab.level, s.threads[t]) && OpOk(s.threads[t])
    requires var pc := s.threads[t].pc; pc.TryItem? || pc.DropItem? || pc.EraseTx? || pc.BumpSize? || pc.UnlockDone?
    ensures Nearer(s, RunOperation(s, t), t)
  {
    ItemStage(s, t);
    StageNearer(s, RunOperation(s, t), t);
  }

  lemma ItemStage(s: State, t: nat)
    requires t < |s.threads| && RunEnabled(s, t) && SoloThread(s.tab.level, s.threads[t]) && OpOk(s.threads[t])
    requires var pc := s.threads[t].pc; pc.TryItem? || pc.DropItem? || pc.EraseTx? || pc.BumpSize? || pc.UnlockDone?
    ensures var s' := RunOperation(s, t); t < |s'.threads| && s'.tab.level == s.tab.level && var th, th' := s.threads[t], s'.threads[t];
      && Late(th'.pc) && SoloThread(s.tab.level, th') && th'.op == th.op && th'.inserted == th.inserted
      && Stage(th'.pc, th.op.Insert? && th.inserted) < Stage(th.pc, th.op.Insert? && th.inserted)
  {
    if s.threads[t].pc.TryItem? {
      TakeStage(s.tab.level, s.threads[t]);
      ItemRunIs(s, t);
    }
  }

  lemma TakeStage(level: nat, th: Thread)
    requires th.pc.TryItem? && SoloThread(level, th) && OpOk(th)
    ensures var th' := TookItem(th);
      && Late(th'.pc) && SoloThread(level, th') && th'.op == th.op && th'.inserted == th.inserted
      && Stage(th'.pc, th.op.Insert? && th.inserted) < Stage(th.pc, th.op.Insert? && th.inserted)
  {
  }

  predicate Late(pc: Pc)
  {
    !pc.LoadMask? && !Acquiring(pc) && !pc.Visited?
  }

  lemma StageNearer(s: State, s': State, t: nat)
    requires t < |s.threads| && t < |s'.threads| && s'.tab.level == s.tab.level && SoloThread(s'.tab.level, s'.threads[t])
    requires var th, th' := s.threads[t], s'.threads[t];
      && Late(th.pc) && Late(th'.pc) && th'.op == th.op && th'.inserted == th.inserted
      && Stage(th'.pc, th.op.Insert? && th.inserted) < Stage(th.pc, th.op.Insert? && th.inserted)
    ensures Nearer(s, s', t)
  {
  }

  lemma OutsideRank(s: State, t: nat)
    requires t < |s.threads| && RunEnabled(s, t) && !Acquiring(s.threads[t].pc) && !HasBase(s.threads[t].pc)
    requires SoloThread(s.tab.level, s.threads[t]) && OpOk(s.threads[t])
    ensures Nearer(s, RunOutside(s, t), t)
  {
    if s.threads[t].pc.LoadMask? {
      StartRank(s, t);
    } else if s.threads[t].pc.VisitDone? {
      assert Nearer(s, RunOutside(s, t), t);
    } else {
      GrowRank(s, t);
    }
  }

  lemma GrowRank(s: State, t: nat)
    requires t < |s.threads| && RunEnabled(s, t) && (s.threads[t].pc.TrySegment? || Growing(s.threads[t].pc))
    requires SoloThread(s.tab.level, s.threads[t])
    ensures Nearer(s, RunOutside(s, t), t)
  {
    GrowStage(s, t);
    LateNearer(s, RunOutside(s, t), t);
  }

  lemma GrowStage(s: State, t: nat)
    requires t < |s.threads| && RunEnabled(s, t) && (s.threads[t].pc.TrySegment? || Growing(s.threads[t].pc))
    ensures var s' := RunOutside(s, t);
      && t < |s'.threads| && (Growing(s'.threads[t].pc) || s'.threads[t].pc.Return?)
      && Stage(s'.threads[t].pc, false) < Stage(s.threads[t].pc, false)
  {
  }

  /** Past the unlocking of the bucket only the stage counts. */
  lemma LateNearer(s: State, s': State, t: nat)
    requires t < |s.threads| && t < |s'.threads| && (s.threads[t].pc.TrySegment? || Growing(s.threads[t].pc))
    requires (Growing(s'.threads[t].pc) || s'.threads[t].pc.Return?)
    requires Stage(s'.threads[t].pc, false) < Stage(s.threads[t].pc, false)
    ensures Nearer(s, s', t)
  {
  }

  lemma StartRank(s: State, t: nat)
    requires t < |s.threads| && RunEnabled(s, t) && s.threads[t].pc.LoadMask? && !s.threads[t].op.Visit?
    requires SoloThread(s.tab.level, s.threads[t])
    ensures Nearer(s, RunOutside(s, t), t)
  {
    MaskBelow(s.threads[t].hash, s.tab.level);
  }

  lemma MaskBelow(h: nat, k: nat)
    ensures Masked(h, k) < Pow2(k)
  {
    MaskedIsRemainder(h, k);
  }

  lemma AllocRank(s: State, t: nat, id: nat)
    requires Enabled(s, Alloc(t, id)) && SoloThread(s.tab.level, s.threads[t])
    ensures Nearer(s, Apply(s, Alloc(t, id)), t)
  {
  }

  // ---------- the next step ----------

  /** Nobody is in the way of a thread that runs alone, not even itself. */
  lemma SoloLock(s: State, t: nat)
    requires ThreadsOk(s) && Solo(s, t) && s.threads[t].pc.Block?
    requires forall k :: k in s.threads[t].held ==> k > s.threads[t].pc.i
    ensures RunEnabled(s, t)
  {
    forall u | 0 <= u < |s.threads| && u != t ensures s.threads[u].held == map[] {
      assert ThreadOk(s.tab, s.threads[u]);
      IdleHoldsNothing(s.threads[u]);
    }
    assert WriteFree(s, s.threads[t].pc.i);
  }

  lemma SoloEnabled(s: State, t: nat) returns (a: Action)
    requires Inv(s) && Solo(s, t) && !s.threads[t].pc.Idle? && !s.threads[t].pc.Return?
    ensures Enabled(s, a) && (a == Run(t) || (a.Alloc? && a.t == t))
  {
    if s.threads[t].pc.Block? {
      HoldsOnlyAbove(s, t);
      SoloLock(s, t);
      a := Run(t);
    } else if s.threads[t].pc.InsertTx? {
      assert ThreadOk(s.tab, s.threads[t]);
      a := SoloAlloc(s, t);
    } else {
      assert ThreadOk(s.tab, s.threads[t]);
      SoloFree(s, t);
      a := Run(t);
    }
  }

  lemma SoloAlloc(s: State, t: nat) returns (a: Action)
    requires ValsOk(s) && t < |s.threads| && t < |s.diffs| && s.threads[t].pc.InsertTx? && OpOk(s.threads[t])
    ensures Enabled(s, a) && a.Alloc? && a.t == t
  {
    var id := FreeAddress(s.vals);
    assert !Linked(s.tab, id);
    a := Alloc(t, id);
  }

  lemma SoloFree(s: State, t: nat)
    requires TableOk(s.tab) && Solo(s, t) && ThreadOk(s.tab, s.threads[t]) && t < |s.diffs|
    requires var pc := s.threads[t].pc; !pc.Idle? && !pc.Return? && !pc.Block? && !pc.InsertTx?
    ensures RunEnabled(s, t)
  {
    if s.threads[t].pc.TryItem? {
      assert forall u :: 0 <= u < |s.threads| ==> s.threads[u].accs == map[];
    } else {
      BusyFacts(s.tab, s.threads[t]);
      BusyRun(s, t);
    }
  }

  lemma RunNearer(s: State, t: nat)
    requires t < |s.threads| && RunEnabled(s, t) && SoloThread(s.tab.level, s.threads[t])
    requires OpOk(s.threads[t]) && RetryOk(s.threads[t])
    ensures Nearer(s, RunThread(s, t), t)
  {
    if Acquiring(s.threads[t].pc) {
      AcquireRank(s, t);
    } else if HasBase(s.threads[t].pc) {
      OperationRank(s, t);
    } else {
      OutsideRank(s, t);
    }
  }

  lemma SoloStep(s: State, t: nat, a: Action)
    requires ThreadsOk(s) && Solo(s, t) && Enabled(s, a) && (a == Run(t) || (a.Alloc? && a.t == t))
    ensures Nearer(s, Apply(s, a), t) && Solo(Apply(s, a), t)
  {
    if a.Run? {
      assert Shape(s.threads[t]);
      RunOneThread(s, t);
      RunNearer(s, t);
    } else {
      AllocRank(s, t, a.id);
    }
  }

  /** The steps to the end. */
  lemma {:induction false} SoloRun(s: State, t: nat) returns (steps: seq<Action>)
    requires Inv(s) && Solo(s, t) && !s.threads[t].pc.Idle?
    ensures Alone(steps, t) && CanRun(s, steps)
    ensures t < |After(s, steps).threads| && After(s, steps).threads[t].pc.Return?
    decreases Rank(s.tab.level, s.threads[t])
  {
    if s.threads[t].pc.Return? {
      steps := [];
    } else {
      var a := SoloNext(s, t);
      var rest := SoloRun(Apply(s, a), t);
      SoloCons(s, t, a, rest);
      steps := [a] + rest;
    }
  }

  lemma SoloCons(s: State, t: nat, a: Action, rest: seq<Action>)
    requires Enabled(s, a) && StepOf(a, t) && Alone(rest, t) && CanRun(Apply(s, a), rest)
    requires t < |After(Apply(s, a), rest).threads| && After(Apply(s, a), rest).threads[t].pc.Return?
    ensures Alone([a] + rest, t) && CanRun(s, [a] + rest)
    ensures t < |After(s, [a] + rest).threads| && After(s, [a] + rest).threads[t].pc.Return?
  {
    RunCons(s, a, rest);
  }

  lemma SoloNext(s: State, t: nat) returns (a: Action)
    requires Inv(s) && Solo(s, t) && !s.threads[t].pc.Idle? && !s.threads[t].pc.Return?
    ensures Enabled(s, a) && (a == Run(t) || (a.Alloc? && a.t == t))
    ensures var s' := Apply(s, a); Inv(s') && Solo(s', t) && !s'.threads[t].pc.Idle? && Nearer(s, s', t)
  {
    a := SoloEnabled(s, t);
    SoloStep(s, t, a);
    ActionInv(s, a);
    StaysBusy(s, t, a);
  }

  lemma StaysBusy(s: State, t: nat, a: Action)
    requires t < |s.threads| && !s.threads[t].pc.Idle? && Enabled(s, a) && (a == Run(t) || (a.Alloc? && a.t == t))
    requires t < |Apply(s, a).threads|
    ensures !Apply(s, a).threads[t].pc.Idle?
  {
    if a.Run? {
      RunBusy(s, t);
    }
  }

  lemma RunBusy(s: State, t: nat)
    requires t < |s.threads| && !s.threads[t].pc.Idle? && RunEnabled(s, t) && t < |RunThread(s, t).threads|
    ensures !RunThread(s, t).threads[t].pc.Idle?
  {
    if Acquiring(s.threads[t].pc) {
      AcquireFrameOk(s, t);
    } else if HasBase(s.threads[t].pc) {
      if Looking(s.threads[t].pc) {
        LookFrameOk(s, t);
      }
    } else {
      OutsideFrameOk(s, t);
    }
  }

  /** Every operation that is called alone on a map at rest completes. */
  lemma SoloCompletes(s: State, t: nat, op: Op) returns (steps: seq<Action>)
    requires Reachable(s) && Quiescent(s) && Enabled(s, Invoke(t, op))
    ensures Alone(steps, t) && CanRun(s, [Invoke(t, op)] + steps + [Respond(t)])
  {
    ReachableIsInv(s);
    ActionInv(s, Invoke(t, op));
    var s' := Apply(s, Invoke(t, op));
    StartSolo(s, t, op);
    steps := SoloRun(s', t);
    WholeCall(s, Invoke(t, op), steps, Respond(t));
  }

  lemma StartSolo(s: State, t: nat, op: Op)
    requires Quiescent(s) && Enabled(s, Invoke(t, op))
    ensures Solo(Apply(s, Invoke(t, op)), t) && !Apply(s, Invoke(t, op)).threads[t].pc.Idle?
  {
  }

  lemma WholeCall(s: State, call: Action, steps: seq<Action>, end: Action)
    requires Enabled(s, call) && CanRun(Apply(s, call), steps) && Enabled(After(Apply(s, call), steps), end)
    ensures CanRun(s, [call] + steps + [end])
  {
    RunCons(After(Apply(s, call), steps), end, []);
    RunAppend(Apply(s, call), steps, [end]);
    RunCons(s, call, steps + [end]);
    assert [call] + steps + [end] == [call] + (steps + [end]);
    assert [end] + [] == [end];
  }
}
