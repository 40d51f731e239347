/**
  Which masks can occur: the one of the embedded segment, and from the first growth on each next one
  until the mask is beyond what my_size can count to.
 */
module MapLevels {
  import opened HashPath
  import opened MapState
  import opened MapInvariant
  import opened MapFrame
  import opened MapLocks
  import opened MapReachable
  import opened MapNodes
  import opened MapGrowth
  import opened MapSolo

  predicate LevelFits(level: nat)
  {
    level == 1 || 8 <= level <= 65
  }

  /** A thread that grows the table has seen a size that reaches the mask; an insert that found its key has seen none. */
  predicate GrowthOk(th: Thread)
  {
    && th.newSize < WORD && (th.pc.TrySegment? || Growing(th.pc) ==> th.newSize >= Pow2(th.level) - 1)
    && (th.op.Insert? && !th.inserted && !th.pc.Idle? ==> th.newSize == 0)
  }

  ghost predicate LevelsFit(s: State)
  {
    LevelFits(s.tab.level) && LevelFits(s.tab.enabled) && forall u :: 0 <= u < |s.threads| ==> GrowthOk(s.threads[u])
  }

  /** A mask that a 64-bit size can reach has at most 64 bits. */
  lemma ReachedLevel(level: nat, size: nat)
    requires LevelFits(level) && size < WORD && size >= Pow2(level) - 1
    ensures LevelFits(NextTable(level))
  {
    PowWord();
    assert Pow2(65) == 2 * Pow2(64);
  }

  lemma PowWord()
    ensures Pow2(64) == WORD
  {
    assert Pow2(8) == 256;
    PowDouble(8, 8);
    PowDouble(16, 16);
    PowDouble(32, 32);
  }

  lemma {:induction false} PowDouble(j: nat, k: nat)
    ensures Pow2(j + k) == Pow2(j) * Pow2(k)
  {
    if k > 0 {
      PowDouble(j, k - 1);
      assert Pow2(j) * Pow2(k) == 2 * (Pow2(j) * Pow2(k - 1));
    }
  }

  // ---------- no other levels ----------

  lemma RunGrowth(s: State, t: nat)
    requires t < |s.threads| && RunEnabled(s, t) && GrowthOk(s.threads[t]) && OpOk(s.threads[t])
    ensures t < |RunThread(s, t).threads| && GrowthOk(RunThread(s, t).threads[t])
  {
    if Acquiring(s.threads[t].pc) {
      AcquireGrowth(s, t);
    } else if HasBase(s.threads[t].pc) {
      OperationGrowth(s, t);
    } else {
      OutsideGrowth(s, t);
    }
  }

  lemma AcquireGrowth(s: State, t: nat)
    requires t < |s.threads| && RunEnabled(s, t) && Acquiring(s.threads[t].pc) && GrowthOk(s.threads[t])
    ensures t < |RunAcquire(s, t).threads| && GrowthOk(RunAcquire(s, t).threads[t])
  {
    AcquireFrameOk(s, t);
  }

  lemma OperationGrowth(s: State, t: nat)
    requires t < |s.threads| && RunEnabled(s, t) && HasBase(s.threads[t].pc) && GrowthOk(s.threads[t]) && OpOk(s.threads[t])
    ensures t < |RunOperation(s, t).threads| && GrowthOk(RunOperation(s, t).threads[t])
  {
    if Looking(s.threads[t].pc) {
      LookGrowth(s, t);
    } else {
      ItemGrowth(s, t);
    }
  }

  lemma ItemGrowth(s: State, t: nat)
    requires t < |s.threads| && RunEnabled(s, t) && HasBase(s.threads[t].pc) && !Looking(s.threads[t].pc)
    requires GrowthOk(s.threads[t]) && OpOk(s.threads[t])
    ensures t < |RunOperation(s, t).threads| && GrowthOk(RunOperation(s, t).threads[t])
  {
    var th' := RunOperation(s, t).threads[t];
    assert th'.pc.DropItem? || th'.pc.EraseTx? || th'.pc.BumpSize? || th'.pc.TryItem? || th'.pc.UnlockDone?;
  }

  lemma LookGrowth(s: State, t: nat)
    requires t < |s.threads| && RunEnabled(s, t) && Looking(s.threads[t].pc) && GrowthOk(s.threads[t])
    ensures t < |RunOperation(s, t).threads| && GrowthOk(RunOperation(s, t).threads[t])
  {
    LookFrameOk(s, t);
    if s.threads[t].pc.UnlockDone? {
      assert RunOperation(s, t).threads[t].level == s.threads[t].level;
    }
  }

  lemma OutsideGrowth(s: State, t: nat)
    requires t < |s.threads| && RunEnabled(s, t) && !Acquiring(s.threads[t].pc) && !HasBase(s.threads[t].pc)
    requires GrowthOk(s.threads[t])
    ensures t < |RunOutside(s, t).threads| && GrowthOk(RunOutside(s, t).threads[t])
  {
    OutsideFrameOk(s, t);
  }

  lemma RunTableLevel(s: State, t: nat)
    requires SegmentOk(s) && LevelsFit(s) && t < |s.threads| && RunEnabled(s, t)
    ensures LevelFits(RunThread(s, t).tab.level) && LevelFits(RunThread(s, t).tab.enabled)
  {
    if Acquiring(s.threads[t].pc) {
      AcquireFrameOk(s, t);
    } else if !HasBase(s.threads[t].pc) {
      if s.threads[t].pc.EnableTx? {
        ReachedLevel(s.tab.level, s.threads[t].newSize);
      } else if !s.threads[t].pc.StoreMask? {
        OutsideLevel(s, t);
      }
    }
  }

  lemma OutsideLevel(s: State, t: nat)
    requires t < |s.threads| && RunEnabled(s, t) && !Acquiring(s.threads[t].pc) && !HasBase(s.threads[t].pc)
    requires !s.threads[t].pc.EnableTx? && !s.threads[t].pc.StoreMask?
    ensures RunOutside(s, t).tab == s.tab
  {
  }

  lemma ActionLevels(s: State, a: Action)
    requires SegmentOk(s) && ThreadsOk(s) && LevelsFit(s) && Enabled(s, a)
    ensures LevelsFit(Apply(s, a))
  {
    if a.Run? {
      assert ThreadOk(s.tab, s.threads[a.t]);
      RunOneThread(s, a.t);
      RunGrowth(s, a.t);
      RunTableLevel(s, a.t);
    } else {
      QuietLevels(s, a);
    }
  }

  lemma QuietLevels(s: State, a: Action)
    requires LevelsFit(s) && Enabled(s, a) && !a.Run?
    ensures LevelsFit(Apply(s, a))
  {
    if a.Invoke? || a.Alloc? || a.GiveUp? || a.Drop? || a.Respond? || a.Release? {
      ThreadLevels(s, a);
    }
  }

  lemma ThreadLevels(s: State, a: Action)
    requires LevelsFit(s) && Enabled(s, a)
    requires a.Invoke? || a.Alloc? || a.GiveUp? || a.Drop? || a.Respond? || a.Release?
    ensures LevelsFit(Apply(s, a))
  {
    ThreadGrowth(s, a);
    var s' := Apply(s, a);
    assert s'.threads == s.threads[a.t := s'.threads[a.t]];
  }

  lemma ThreadGrowth(s: State, a: Action)
    requires Enabled(s, a) && (a.Invoke? || a.Alloc? || a.GiveUp? || a.Drop? || a.Respond? || a.Release?)
    requires a.t < |s.threads| && GrowthOk(s.threads[a.t])
    ensures a.t < |Apply(s, a).threads| && GrowthOk(Apply(s, a).threads[a.t])
  {
    match a
    case Invoke(t, op) => assert GrowthOk(Start(s.tab, s.threads[t], op));
    case Drop(t) => assert GrowthOk(NextVisit(Unlocked(s.threads[t])));
    case _ =>
  }

  lemma {:induction false} RunLevels(s: State, acts: seq<Action>)
    requires Inv(s) && LevelsFit(s) && CanRun(s, acts)
    ensures LevelsFit(After(s, acts))
    decreases |acts|
  {
    if acts != [] {
      ActionLevels(s, acts[0]);
      ActionInv(s, acts[0]);
      RunLevels(Apply(s, acts[0]), acts[1..]);
    }
  }

  /** Only an insert that has inserted its node grows the table, and only when the size it has counted reaches the mask. */
  lemma GrowerInserted(s: State, t: nat)
    requires Reachable(s) && t < |s.threads| && (s.threads[t].pc.TrySegment? || Growing(s.threads[t].pc))
    ensures var th := s.threads[t]; th.op.Insert? && th.inserted && th.newSize >= Pow2(th.level) - 1
  {
    var hash, n: nat, acts :| CanRun(Initial(hash, n), acts) && s == After(Initial(hash, n), acts);
    InitialInv(hash, n);
    RunLevels(Initial(hash, n), acts);
    ReachableIsInv(s);
    GrowerFacts(s.tab, s.threads[t]);
  }

  lemma GrowerFacts(tab: Table, th: Thread)
    requires TableOk(tab) && ThreadOk(tab, th) && GrowthOk(th) && (th.pc.TrySegment? || Growing(th.pc))
    ensures th.op.Insert? && th.inserted
  {
    Pow2Grows(1, th.level);
    assert Pow2(1) == 2;
  }

  // ---------- all of these levels ----------

  function Below(n: nat): (ks: set<nat>)
    ensures forall k: nat :: k in ks <==> k < n
  {
    if n == 0 then {} else Below(n - 1) + {n - 1}
  }

  ghost predicate KeysBelow(tab: Table, count: nat)
  {
    forall n :: Has(tab, n) ==> n.key < count
  }

  /** A map at rest, with the nodes that so many inserts of the keys 0, 1, 2, .. have made. */
  ghost predicate Filled(s: State, hash: nat -> nat, n: nat, count: nat)
  {
    var holds :=
      && ReachableFrom(hash, n, s) && Quiescent(s) && |s.threads| == n && |s.vals| == count
      && KeysBelow(s.tab, count);
    holds
  }

  ghost predicate ReachableFrom(hash: nat -> nat, n: nat, s: State)
  {
    exists acts :: CanRun(Initial(hash, n), acts) && s == After(Initial(hash, n), acts)
  }

  lemma ReachableIs(hash: nat -> nat, n: nat, s: State)
    requires ReachableFrom(hash, n, s)
    ensures Reachable(s)
  {
  }

  lemma ReachableOn(hash: nat -> nat, n: nat, s: State, acts: seq<Action>)
    requires ReachableFrom(hash, n, s) && CanRun(s, acts)
    ensures ReachableFrom(hash, n, After(s, acts))
  {
    var before :| CanRun(Initial(hash, n), before) && s == After(Initial(hash, n), before);
    RunAppend(Initial(hash, n), before, acts);
  }

  /** The actions of one more insert. */
  function InsertRun(count: nat, steps: seq<Action>): seq<Action>
  {
    [Invoke(0, Insert(count, 0, NoItem))] + steps + [Respond(0)]
  }

  /** One more insert. */
  lemma FillOne(s: State, hash: nat -> nat, n: nat, count: nat) returns (s': State)
    requires n > 0 && Filled(s, hash, n, count)
    ensures Filled(s', hash, n, count + 1)
    ensures s'.tab.level == (if Word(count + 1) < Pow2(s.tab.level) - 1 then s.tab.level
                             else if s.tab.level == 1 then 8 else s.tab.level + 1)
  {
    ReachableIs(hash, n, s);
    NoneHeld(s, Insert(count, 0, NoItem));
    var steps := SoloCompletes(s, 0, Insert(count, 0, NoItem));
    s' := After(s, InsertRun(count, steps));
    InsertFills(s, s', count, steps);
    ReachableOn(hash, n, s, InsertRun(count, steps));
    ThreadsStay(s, InsertRun(count, steps));
  }

  lemma InsertFills(s: State, s': State, count: nat, steps: seq<Action>)
    requires Reachable(s) && Quiescent(s) && |s.threads| > 0 && |s.vals| == count && KeysBelow(s.tab, count)
    requires Alone(steps, 0) && CanRun(s, InsertRun(count, steps)) && s' == After(s, InsertRun(count, steps))
    ensures Quiescent(s') && |s'.vals| == count + 1 && KeysBelow(s'.tab, count + 1)
    ensures s'.tab.level == (if Word(count + 1) < Pow2(s.tab.level) - 1 then s.tab.level
                             else if s.tab.level == 1 then 8 else s.tab.level + 1)
  {
    InsertGrew(s, s', count, steps);
    FilledUp(s', Insert(count, 0, NoItem), count);
  }

  lemma InsertGrew(s: State, s': State, count: nat, steps: seq<Action>)
    requires Reachable(s) && Quiescent(s) && |s.threads| > 0 && |s.vals| == count && KeysBelow(s.tab, count)
    requires Alone(steps, 0) && CanRun(s, InsertRun(count, steps)) && s' == After(s, InsertRun(count, steps))
    ensures Over(s', 0, Insert(count, 0, NoItem)) && |s'.vals| == count + 1 && KeysIn(s'.tab, Below(count) + {count})
    ensures s'.tab.level == (if Word(count + 1) < Pow2(s.tab.level) - 1 then s.tab.level
                             else if s.tab.level == 1 then 8 else s.tab.level + 1)
  {
    BelowKeys(s.tab, count);
    InsertGrows(s, 0, Insert(count, 0, NoItem), steps, Below(count));
  }

  lemma BelowKeys(tab: Table, count: nat)
    requires KeysBelow(tab, count)
    ensures KeysIn(tab, Below(count)) && count !in Below(count)
  {
  }

  lemma NoneHeld(s: State, op: Op)
    requires Quiescent(s) && |s.threads| > 0 && op.Insert?
    ensures Enabled(s, Invoke(0, op))
  {
  }

  lemma FilledUp(s: State, op: Op, count: nat)
    requires op == Insert(count, 0, NoItem) && Over(s, 0, op) && KeysIn(s.tab, Below(count) + {op.key})
    ensures Quiescent(s) && KeysBelow(s.tab, count + 1)
  {
  }

  lemma {:induction false} ThreadsStay(s: State, acts: seq<Action>)
    requires CanRun(s, acts)
    ensures |After(s, acts).threads| == |s.threads|
    decreases |acts|
  {
    if acts != [] {
      if acts[0].Run? {
        RunOneThread(s, acts[0].t);
      }
      ThreadsStay(Apply(s, acts[0]), acts[1..]);
    }
  }

  /** Inserting on until the table grows once more. */
  lemma {:induction false} FillOn(s: State, hash: nat -> nat, n: nat, count: nat) returns (s': State, count': nat)
    requires n > 0 && Filled(s, hash, n, count) && 1 <= s.tab.level <= 64 && count < Pow2(s.tab.level) - 1
    ensures Filled(s', hash, n, count') && count' < Pow2(s'.tab.level) - 1
    ensures s'.tab.level == if s.tab.level == 1 then 8 else s.tab.level + 1
    decreases Pow2(s.tab.level) - count
  {
    SizeFits(s.tab.level, count + 1);
    s' := FillOne(s, hash, n, count);
    count' := count + 1;
    if s'.tab.level == s.tab.level {
      s', count' := FillOn(s', hash, n, count + 1);
    } else {
      CountFits(s.tab.level, s'.tab.level, count + 1);
    }
  }

  lemma CountFits(level: nat, level': nat, count: nat)
    requires count < Pow2(level) && 1 <= level < level'
    ensures count < Pow2(level') - 1
  {
    Pow2Grows(level + 1, level');
  }

  lemma SizeFits(level: nat, size: nat)
    requires level <= 64 && size < Pow2(level)
    ensures Word(size) == size
  {
    PowWord();
    Pow2Grows(level, 64);
  }

  lemma FillTo(hash: nat -> nat, n: nat, level: nat) returns (s: State, count: nat)
    requires n > 0 && LevelFits(level)
    ensures Filled(s, hash, n, count) && s.tab.level == level && count < Pow2(level) - 1
    decreases level
  {
    if level == 1 {
      s, count := Initial(hash, n), 0;
      EmptyFilled(hash, n);
    } else {
      s, count := FillTo(hash, n, if level == 8 then 1 else level - 1);
      s, count := FillOn(s, hash, n, count);
    }
  }

  lemma EmptyFilled(hash: nat -> nat, n: nat)
    ensures Filled(Initial(hash, n), hash, n, 0) && Pow2(1) == 2
  {
    var s := Initial(hash, n);
    assert CanRun(s, []) && After(s, []) == s;
    assert forall i: nat :: Chain(s.tab, i) == [];
  }

  /**
    Whatever the hash function and the number of threads: a state with this many mask bits can be
    reached if and only if they are one, or 8 to 65.
   */
  lemma LevelsReached(hash: nat -> nat, n: nat, level: nat)
    requires n > 0
    ensures (exists s :: ReachableFrom(hash, n, s) && s.tab.level == level) <==> level == 1 || 8 <= level <= 65
  {
    if LevelFits(level) {
      var s, count := FillTo(hash, n, level);
    }
    forall s | ReachableFrom(hash, n, s) ensures LevelFits(s.tab.level) {
      var acts :| CanRun(Initial(hash, n), acts) && s == After(Initial(hash, n), acts);
      InitialInv(hash, n);
      RunLevels(Initial(hash, n), acts);
    }
  }
}
