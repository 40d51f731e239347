/** What an insert that runs alone does to the table: it grows exactly when the new size reaches the mask. */
module MapGrowth {
  import opened Wrappers
  import opened HashPath
  import opened ChainSplit
  import opened MapState
  import opened MapInvariant
  import opened MapFrame
  import opened MapLocks
  import opened MapItems
  import opened MapSize
  import opened MapReachable
  import opened MapNodes
  import opened MapReturns

  /** The number of mask bits after the insert of a new key into a map of `count` nodes. */
  function Target(level: nat, count: nat): nat
  {
    if Word(count + 1) >= Pow2(level) - 1 then (if level == 1 then 8 else level + 1) else level
  }

  ghost predicate OthersRest(s: State, t: nat)
  {
    forall u :: 0 <= u < |s.threads| && u != t ==> s.threads[u].pc.Idle? && s.threads[u].accs == map[]
  }

  ghost predicate KeysIn(tab: Table, keys: set<nat>)
  {
    forall n :: Has(tab, n) ==> n.key in keys
  }

  /** Looking for the key, which is not there. */
  predicate Seeking(pc: Pc)
  {
    pc.LoadMask? || Acquiring(pc) || pc.Search? || pc.LoadMaskAgain? || pc.InsertTx?
  }

  /** How far the insert has got that started with `level` mask bits, `count` nodes and these keys. */
  ghost predicate Progress(s: State, t: nat, op: Op, level: nat, count: nat, keys: set<nat>)
    requires t < |s.threads| && op.Insert?
  {
    s.threads[t].op == op && OthersRest(s, t) && Stands(s, t, level, count, keys)
  }

  ghost predicate NotYet(s: State, th: Thread, level: nat, count: nat, keys: set<nat>)
    requires th.op.Insert?
  {
    && !th.inserted && th.accs == map[] && s.tab.level == level && (Busy(th.pc) ==> th.level == level)
    && |s.vals| == count && Word(s.size) == Word(count) && s.segLock == None
    && KeysIn(s.tab, keys) && th.op.key !in keys
  }

  ghost predicate Inserted(s: State, th: Thread, level: nat, count: nat, keys: set<nat>)
    requires th.op.Insert?
  {
    && th.inserted && th.result && (th.op.item.NoItem? ==> th.accs == map[]) && th.level == level && |s.vals| == count + 1 && KeysIn(s.tab, keys + {th.op.key})
    && (th.pc.BumpSize? || th.pc.TryItem? || th.pc.UnlockDone? || th.pc.TrySegment? || Growing(th.pc) || th.pc.Return?)
    && (if th.pc.BumpSize? then Word(s.size) == Word(count) else th.newSize == Word(count + 1))
    && (th.pc.TrySegment? || Growing(th.pc) ==> th.newSize >= Pow2(level) - 1)
    && (!Growing(th.pc) ==> s.segLock == None)
    && s.tab.level == (if th.pc.UnlockSegment? || th.pc.Return? then Target(level, count) else level)
  }

  // ---------- the steps ----------

  lemma RunKeys(s: State, t: nat, keys: set<nat>)
    requires Base(s) && t < |s.threads| && RunEnabled(s, t) && !s.threads[t].pc.EraseTx? && KeysIn(s.tab, keys)
    ensures KeysIn(RunThread(s, t).tab, keys)
  {
    forall n | Has(RunThread(s, t).tab, n) ensures n.key in keys {
      RunHas(s, t, n);
    }
  }

  lemma SeekAcquire(s: State, t: nat, level: nat, count: nat, keys: set<nat>)
    requires Base(s) && t < |s.threads| && RunEnabled(s, t) && Acquiring(s.threads[t].pc)
    requires s.threads[t].op.Insert? && NotYet(s, s.threads[t], level, count, keys) && OpOk(s.threads[t])
    requires ThreadsOk(RunThread(s, t))
    ensures var s' := RunThread(s, t); t < |s'.threads| && Seeking(s'.threads[t].pc) && s'.threads[t].op == s.threads[t].op
    ensures NotYet(RunThread(s, t), RunThread(s, t).threads[t], level, count, keys)
  {
    AcquireFrameOk(s, t);
    RunKeys(s, t, keys);
    assert OpOk(RunThread(s, t).threads[t]);
  }

  /** The search misses, the mask is as it was: the insert goes on. */
  lemma SeekMiss(s: State, t: nat, level: nat, count: nat, keys: set<nat>)
    requires Base(s) && t < |s.threads| && RunEnabled(s, t) && (s.threads[t].pc.Search? || s.threads[t].pc.LoadMaskAgain?)
    requires s.threads[t].op.Insert? && NotYet(s, s.threads[t], level, count, keys)
    ensures var s' := RunThread(s, t); t < |s'.threads| && Seeking(s'.threads[t].pc) && s'.threads[t].op == s.threads[t].op
    ensures NotYet(RunThread(s, t), RunThread(s, t).threads[t], level, count, keys)
  {
    var th := s.threads[t];
    if th.pc.Search? {
      MissingKey(s.tab, th.base, th.op.key, keys);
    }
  }

  lemma MissingKey(tab: Table, b: nat, key: nat, keys: set<nat>)
    requires KeysIn(tab, keys) && key !in keys
    ensures Lookup(Chain(tab, b), key) == None
  {
    if Lookup(Chain(tab, b), key).Some? {
      assert Has(tab, Node(Lookup(Chain(tab, b), key).value, key));
    }
  }

  lemma SeekStart(s: State, t: nat, level: nat, count: nat, keys: set<nat>)
    requires t < |s.threads| && RunEnabled(s, t) && s.threads[t].pc.LoadMask?
    requires s.threads[t].op.Insert? && NotYet(s, s.threads[t], level, count, keys)
    ensures var s' := RunThread(s, t); t < |s'.threads| && Seeking(s'.threads[t].pc) && s'.threads[t].op == s.threads[t].op
    ensures NotYet(RunThread(s, t), RunThread(s, t).threads[t], level, count, keys)
  {
  }

  lemma AllocProgress(s: State, t: nat, id: nat, level: nat, count: nat, keys: set<nat>)
    requires ItemsOk(s) && Enabled(s, Alloc(t, id)) && NotYet(s, s.threads[t], level, count, keys)
    ensures Inserted(Apply(s, Alloc(t, id)), Apply(s, Alloc(t, id)).threads[t], level, count, keys)
  {
    var s' := Apply(s, Alloc(t, id));
    var th := s.threads[t];
    AllocItems(s, t, id);
    NewKey(s.vals, id, th.op.val);
    forall n | Has(s'.tab, n) ensures n.key in keys + {th.op.key} {
      LinkHas(s.tab, th.base, Node(id, th.op.key), n);
    }
  }

  /** After the insert transaction: the size, the item, the unlocking. */
  lemma LeaveProgress(s: State, t: nat, level: nat, count: nat, keys: set<nat>)
    requires t < |s.threads| && RunEnabled(s, t)
    requires var pc := s.threads[t].pc; pc.BumpSize? || pc.TryItem? || pc.UnlockDone?
    requires OpOk(s.threads[t]) && s.threads[t].op.Insert? && Inserted(s, s.threads[t], level, count, keys)
    ensures var s' := RunThread(s, t); t < |s'.threads| && !Seeking(s'.threads[t].pc) && s'.threads[t].op == s.threads[t].op
    ensures Inserted(RunThread(s, t), RunThread(s, t).threads[t], level, count, keys)
  {
    WordAdd(s.size, 1);
    WordAdd(count, 1);
  }

  /** check_growth, with nobody else at it. */
  lemma GrowProgress(s: State, t: nat, level: nat, count: nat, keys: set<nat>)
    requires t < |s.threads| && RunEnabled(s, t) && (s.threads[t].pc.TrySegment? || Growing(s.threads[t].pc))
    requires s.threads[t].op.Insert? && Inserted(s, s.threads[t], level, count, keys)
    ensures var s' := RunThread(s, t); t < |s'.threads| && !Seeking(s'.threads[t].pc) && s'.threads[t].op == s.threads[t].op
    ensures Inserted(RunThread(s, t), RunThread(s, t).threads[t], level, count, keys)
  {
    var s' := RunThread(s, t);
    OutsideFrameOk(s, t);
    forall n | Has(s'.tab, n) ensures n.key in keys + {s.threads[t].op.key} {
      SameHas(s.tab, s'.tab, n);
    }
    assert s'.threads[t] == s.threads[t].(pc := s'.threads[t].pc);
  }

  lemma SeekProgress(s: State, t: nat, level: nat, count: nat, keys: set<nat>)
    requires Base(s) && t < |s.threads| && RunEnabled(s, t) && Seeking(s.threads[t].pc)
    requires s.threads[t].op.Insert? && NotYet(s, s.threads[t], level, count, keys) && ThreadsOk(RunThread(s, t))
    ensures var s' := RunThread(s, t); t < |s'.threads| && Seeking(s'.threads[t].pc) && s'.threads[t].op == s.threads[t].op
    ensures NotYet(RunThread(s, t), RunThread(s, t).threads[t], level, count, keys)
  {
    assert ThreadOk(s.tab, s.threads[t]);
    if Acquiring(s.threads[t].pc) {
      SeekAcquire(s, t, level, count, keys);
    } else if s.threads[t].pc.LoadMask? {
      SeekStart(s, t, level, count, keys);
    } else {
      SeekMiss(s, t, level, count, keys);
    }
  }

  lemma LaterProgress(s: State, t: nat, level: nat, count: nat, keys: set<nat>)
    requires t < |s.threads| && RunEnabled(s, t) && !Seeking(s.threads[t].pc) && OpOk(s.threads[t])
    requires s.threads[t].op.Insert? && Inserted(s, s.threads[t], level, count, keys)
    ensures var s' := RunThread(s, t); t < |s'.threads| && !Seeking(s'.threads[t].pc) && s'.threads[t].op == s.threads[t].op
    ensures Inserted(RunThread(s, t), RunThread(s, t).threads[t], level, count, keys)
  {
    var pc := s.threads[t].pc;
    if pc.BumpSize? || pc.TryItem? || pc.UnlockDone? {
      LeaveProgress(s, t, level, count, keys);
    } else {
      GrowProgress(s, t, level, count, keys);
    }
  }

  /** Where the thread is now. */
  ghost predicate Stands(s: State, t: nat, level: nat, count: nat, keys: set<nat>)
  {
    var holds := t < |s.threads| && s.threads[t].op.Insert? &&
      if Seeking(s.threads[t].pc) then NotYet(s, s.threads[t], level, count, keys)
      else Inserted(s, s.threads[t], level, count, keys);
    holds
  }

  lemma RunStands(s: State, t: nat, level: nat, count: nat, keys: set<nat>)
    requires Base(s) && t < |s.threads| && RunEnabled(s, t) && Stands(s, t, level, count, keys) && ThreadsOk(RunThread(s, t))
    ensures Stands(RunThread(s, t), t, level, count, keys) && RunThread(s, t).threads[t].op == s.threads[t].op
  {
    if Seeking(s.threads[t].pc) {
      SeekProgress(s, t, level, count, keys);
    } else {
      assert Shape(s.threads[t]);
      LaterProgress(s, t, level, count, keys);
    }
  }

  lemma RunStepProgress(s: State, t: nat, op: Op, level: nat, count: nat, keys: set<nat>)
    requires Base(s) && t < |s.threads| && RunEnabled(s, t) && op.Insert? && Progress(s, t, op, level, count, keys)
    requires ThreadsOk(RunThread(s, t))
    ensures t < |RunThread(s, t).threads| && Progress(RunThread(s, t), t, op, level, count, keys)
  {
    RunOneThread(s, t);
    RunStands(s, t, level, count, keys);
  }

  /** A step of thread t within an operation. */
  predicate StepOf(a: Action, t: nat)
  {
    a == Run(t) || (a.Alloc? && a.t == t) || a == GiveUp(t)
  }

  lemma AllocStepProgress(s: State, t: nat, id: nat, op: Op, level: nat, count: nat, keys: set<nat>)
    requires ItemsOk(s) && Enabled(s, Alloc(t, id)) && op.Insert? && Progress(s, t, op, level, count, keys)
    ensures t < |Apply(s, Alloc(t, id)).threads| && Progress(Apply(s, Alloc(t, id)), t, op, level, count, keys)
  {
    AllocProgress(s, t, id, level, count, keys);
  }

  lemma NoGiveUp(s: State, t: nat, op: Op, level: nat, count: nat, keys: set<nat>)
    requires PrivateOk(s) && t < |s.threads| && op.Insert? && Progress(s, t, op, level, count, keys)
    ensures !Enabled(s, GiveUp(t))
  {
    if Enabled(s, GiveUp(t)) {
      GiveUpNotInserted(s, t);
    }
  }

  lemma StepProgress(s: State, t: nat, a: Action, op: Op, level: nat, count: nat, keys: set<nat>)
    requires Base(s) && ItemsOk(s) && t < |s.threads| && StepOf(a, t) && Enabled(s, a)
    requires ThreadsOk(Apply(s, a)) && op.Insert? && Progress(s, t, op, level, count, keys)
    ensures t < |Apply(s, a).threads| && Progress(Apply(s, a), t, op, level, count, keys)
  {
    NoGiveUp(s, t, op, level, count, keys);
    if a.Run? {
      RunStepProgress(s, t, op, level, count, keys);
    } else {
      AllocStepProgress(s, t, a.id, op, level, count, keys);
    }
  }

  /** Only thread t takes steps. */
  predicate Alone(acts: seq<Action>, t: nat)
  {
    forall k :: 0 <= k < |acts| ==> StepOf(acts[k], t)
  }

  lemma FirstAlone(acts: seq<Action>, t: nat)
    requires acts != [] && Alone(acts, t)
    ensures StepOf(acts[0], t) && Alone(acts[1..], t)
  {
  }

  lemma NextProgress(s: State, t: nat, a: Action, op: Op, level: nat, count: nat, keys: set<nat>)
    requires Inv(s) && t < |s.threads| && StepOf(a, t) && Enabled(s, a) && op.Insert? && Progress(s, t, op, level, count, keys)
    ensures Inv(Apply(s, a)) && t < |Apply(s, a).threads| && Progress(Apply(s, a), t, op, level, count, keys)
  {
    ActionInv(s, a);
    StepProgress(s, t, a, op, level, count, keys);
  }

  lemma {:induction false} RunsOn(s: State, t: nat, acts: seq<Action>, op: Op, level: nat, count: nat, keys: set<nat>)
    requires Inv(s) && t < |s.threads| && Alone(acts, t) && CanRun(s, acts) && op.Insert?
    requires Progress(s, t, op, level, count, keys)
    ensures t < |After(s, acts).threads| && Progress(After(s, acts), t, op, level, count, keys)
    decreases |acts|
  {
    if acts != [] {
      FirstAlone(acts, t);
      NextProgress(s, t, acts[0], op, level, count, keys);
      RunsOn(Apply(s, acts[0]), t, acts[1..], op, level, count, keys);
    }
  }

  /** Between operations, my_size counts the nodes. */
  lemma QuietCount(s: State)
    requires SizeOk(s) && forall u :: 0 <= u < |s.threads| ==> s.threads[u].pc.Idle?
    ensures Word(s.size) == Word(|s.vals|)
  {
    IdleLags(s.threads);
  }

  /** The start of an insert into a map at rest. */
  lemma StartsOut(s: State, t: nat, op: Op, keys: set<nat>)
    requires Inv(s) && Quiescent(s) && t < |s.threads| && op.Insert? && Enabled(s, Invoke(t, op))
    requires KeysIn(s.tab, keys) && op.key !in keys
    ensures t < |Apply(s, Invoke(t, op)).threads|
    ensures Progress(Apply(s, Invoke(t, op)), t, op, s.tab.level, |s.vals|, keys)
  {
    QuietCount(s);
  }

  /**
    An insert of a new key that runs alone, from its call to its return, into a map at rest: it
    succeeds, there is one node more, and the table grows if and only if the new size, counted
    modulo the word size, has reached the mask.
   */
  lemma InsertGrows(s: State, t: nat, op: Op, steps: seq<Action>, keys: set<nat>)
    requires Reachable(s) && Quiescent(s) && t < |s.threads| && op.Insert?
    requires KeysIn(s.tab, keys) && op.key !in keys
    requires Alone(steps, t) && CanRun(s, [Invoke(t, op)] + steps + [Respond(t)])
    ensures var s' := After(s, [Invoke(t, op)] + steps + [Respond(t)]);
      && Over(s', t, op) && |s'.vals| == |s.vals| + 1 && KeysIn(s'.tab, keys + {op.key})
      && s'.tab.level == (if Word(|s.vals| + 1) < Pow2(s.tab.level) - 1 then s.tab.level
                          else if s.tab.level == 1 then 8 else s.tab.level + 1)
  {
    ReachableIsInv(s);
    CallRun(s, Invoke(t, op), steps, Respond(t));
    ActionInv(s, Invoke(t, op));
    StartsOut(s, t, op, keys);
    RunsOn(Apply(s, Invoke(t, op)), t, steps, op, s.tab.level, |s.vals|, keys);
    EndsWell(After(Apply(s, Invoke(t, op)), steps), t, op, s.tab.level, |s.vals|, keys);
  }

  /** The insert has succeeded, and the map is at rest but for the item that the caller may have wanted. */
  ghost predicate Over(s: State, t: nat, op: Op)
    requires op.Insert?
  {
    && t < |s.threads| && s.threads[t].pc.Idle? && s.threads[t].result && OthersRest(s, t)
    && (op.item.NoItem? ==> s.threads[t].accs == map[])
  }

  lemma EndsWell(s: State, t: nat, op: Op, level: nat, count: nat, keys: set<nat>)
    requires t < |s.threads| && op.Insert? && Progress(s, t, op, level, count, keys) && Enabled(s, Respond(t))
    ensures var s' := Apply(s, Respond(t));
      && Over(s', t, op) && |s'.vals| == count + 1 && KeysIn(s'.tab, keys + {op.key})
      && s'.tab.level == Target(level, count)
  {
  }
}
