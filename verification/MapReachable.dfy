/** The invariant holds initially, every action keeps it, and so it holds in every reachable state. */
module MapReachable {
  import opened HashPath
  import opened MapState
  import opened MapInvariant
  import opened MapActor
  import opened MapLocks
  import opened MapThreads
  import opened MapWorkers
  import opened MapItems
  import opened MapSegment
  import opened MapSize

  lemma IdleOk(tab: Table)
    ensures ThreadOk(tab, IdleThread())
  {
  }

  lemma InitialInv(hash: nat -> nat, n: nat)
    ensures Inv(Initial(hash, n))
  {
    var s := Initial(hash, n);
    InitialTable(s.tab);
    InitialBase(s);
    SumZero(s.diffs);
    IdleLags(s.threads);
  }

  lemma InitialBase(s: State)
    requires TableOk(s.tab) && s.tab.flags == s.tab.durable && forall j: nat :: Chain(s.tab, j) == []
    requires forall u :: 0 <= u < |s.threads| ==> s.threads[u] == IdleThread()
    ensures Base(s)
  {
    forall u | 0 <= u < |s.threads| ensures ThreadOk(s.tab, s.threads[u]) {
      IdleOk(s.tab);
    }
  }

  lemma InitialTable(tab: Table)
    requires tab == Table(tab.hash, 1, 1, 1, {0, 1}, {0, 1}, map[])
    ensures TableOk(tab) && (forall j: nat :: Chain(tab, j) == []) && forall id :: !Linked(tab, id)
  {
    assert Pow2(1) == 2;
    assert forall j: nat :: Chain(tab, j) == [];
  }

  lemma RunInv(s: State, t: nat)
    requires Inv(s) && Enabled(s, Run(t))
    ensures Inv(Apply(s, Run(t)))
  {
    RunThreads(s, t);
    RunLocks(s, t);
    RunWorkers(s, t);
    RunSegment(s, t);
    RunItems(s, t);
    assert ThreadOk(s.tab, s.threads[t]);
    RunSize(s, t);
  }

  lemma AllocLocks(s: State, t: nat, id: nat)
    requires LocksOk(s.threads) && SegmentOk(s) && Enabled(s, Alloc(t, id))
    ensures LocksOk(Apply(s, Alloc(t, id)).threads) && SegmentOk(Apply(s, Alloc(t, id)))
  {
    var s' := Apply(s, Alloc(t, id));
    LockStepOk(s, t, s'.threads[t]);
    QuietSegment(s, s', t);
  }

  lemma AllocInv(s: State, t: nat, id: nat)
    requires Inv(s) && Enabled(s, Alloc(t, id))
    ensures Inv(Apply(s, Alloc(t, id)))
  {
    AllocThreads(s, t, id);
    AllocWorkers(s, t, id);
    AllocLocks(s, t, id);
    AllocItems(s, t, id);
    AllocSize(s, t, id);
  }

  /** A change of one thread's record that takes no lock and gives up no work. */
  ghost predicate Harmless(tab: Table, th: Thread, th': Thread)
  {
    && ThreadOk(tab, th')
    && Shrinks(th.held, th'.held)
    && (forall k :: Writes(th, k) && !Writes(th', k) ==> k in tab.flags)
    && !th.pc.Persist? && !th.pc.SetFlag? && !th'.pc.Block? && !Growing(th.pc) && !Growing(th'.pc)
    && (forall id :: id in th'.accs ==> id in th.accs && th'.accs[id] == th.accs[id])
    && !Private(th') && !th'.pc.DropItem? && !th'.pc.BumpSize? && !th.pc.BumpSize?
  }

  lemma PutInv(s: State, t: nat, th: Thread)
    requires Inv(s) && t < |s.threads| && Harmless(s.tab, s.threads[t], th)
    ensures Inv(Put(s, t, th))
  {
    PutBase(s, t, th);
    QuietSegment(s, Put(s, t, th), t);
    PutItems(s, t, th);
    QuietSize(s, Put(s, t, th), t);
  }

  lemma PutBase(s: State, t: nat, th: Thread)
    requires Base(s) && t < |s.threads| && Harmless(s.tab, s.threads[t], th)
    ensures Base(Put(s, t, th))
  {
    LockStepOk(s, t, th);
    QuietWorkers(s.tab, s.threads, t, th);
  }

  lemma PutItems(s: State, t: nat, th: Thread)
    requires ItemsOk(s) && t < |s.threads| && Harmless(s.tab, s.threads[t], th)
    ensures ItemsOk(Put(s, t, th))
  {
    ItemsStep(s, Put(s, t, th), t, th);
  }

  lemma InvokeOk(tab: Table, th: Thread, op: Op)
    requires TableOk(tab) && ThreadOk(tab, th) && th.pc.Idle?
    requires op.Visit? ==> op.lo <= op.hi < Pow2(tab.level)
    ensures Harmless(tab, th, Start(tab, th, op))
  {
    StartOk(tab, th, op);
  }

  lemma StartOk(tab: Table, th: Thread, op: Op)
    requires TableOk(tab) && ThreadOk(tab, th) && th.pc.Idle?
    requires op.Visit? ==> op.lo <= op.hi < Pow2(tab.level)
    ensures th.held == map[] && ThreadOk(tab, Start(tab, th, op))
  {
    assert th.held == map[];
    if op.Visit? {
      EnterOk(tab, th.(op := op, inserted := false, newSize := 0, level := tab.level), op.hi);
    } else {
      assert Shape(Start(tab, th, op));
    }
  }

  lemma GiveUpOk(tab: Table, th: Thread)
    requires ThreadOk(tab, th) && th.pc.TryItem? && (th.op.Insert? ==> !th.inserted)
    ensures Harmless(tab, th, th.(pc := UnlockReload))
  {
    StayOk(tab, th, th.(pc := UnlockReload));
  }

  /** The item of a node just inserted is free: an insert never retries after it has inserted. */
  lemma GiveUpNotInserted(s: State, t: nat)
    requires PrivateOk(s) && Enabled(s, GiveUp(t))
    ensures s.threads[t].op.Insert? ==> !s.threads[t].inserted
  {
    if s.threads[t].op.Insert? && s.threads[t].inserted {
      assert Private(s.threads[t]);
      assert ItemFree(s, s.threads[t].found, ItemWrite(s.threads[t].op));
    }
  }

  lemma DropOk(tab: Table, th: Thread)
    requires TableOk(tab) && ThreadOk(tab, th) && th.pc.Visited?
    ensures Harmless(tab, th, NextVisit(Unlocked(th)))
  {
    VisitedOk(tab, th, th.held - {th.base});
    VisitHeld(Unlocked(th));
  }

  lemma RespondOk(tab: Table, th: Thread)
    requires ThreadOk(tab, th) && th.pc.Return?
    ensures Harmless(tab, th, th.(pc := Idle))
  {
    OutsideOk(tab, tab, th, Idle);
  }

  lemma ReleaseOk(tab: Table, th: Thread, id: nat)
    requires ThreadOk(tab, th) && th.pc.Idle?
    ensures Harmless(tab, th, th.(accs := th.accs - {id}))
  {
    assert th.held == map[];
  }

  lemma AssignInv(s: State, t: nat, id: nat, val: Value)
    requires Inv(s) && Enabled(s, Assign(t, id, val))
    ensures Inv(Apply(s, Assign(t, id, val)))
  {
    AssignItems(s, t, id, val);
    QuietSize(s, Apply(s, Assign(t, id, val)), t);
    SameBase(s, Apply(s, Assign(t, id, val)));
  }

  lemma SameBase(s: State, s': State)
    requires Base(s) && SegmentOk(s)
    requires s'.tab == s.tab && s'.threads == s.threads && s'.segLock == s.segLock
    ensures Base(s') && SegmentOk(s')
  {
  }

  lemma AssignItems(s: State, t: nat, id: nat, val: Value)
    requires ItemsOk(s) && Enabled(s, Assign(t, id, val))
    ensures ItemsOk(Apply(s, Assign(t, id, val)))
    ensures Apply(s, Assign(t, id, val)).vals.Keys == s.vals.Keys
  {
    var s' := Apply(s, Assign(t, id, val));
    assert id in s.vals;
    assert s'.vals.Keys == s.vals.Keys;
    assert forall k :: k in s'.vals <==> k in s.vals;
    assert AccsLinked(s') && ValsOk(s') && PrivateOk(s');
  }

  lemma ClearedThread(tab: Table, tab': Table, th: Thread)
    requires ThreadOk(tab, th) && th.pc.Idle?
    ensures ThreadOk(tab', th)
  {
    assert th.held == map[];
  }

  lemma ClearInv(s: State)
    requires Inv(s) && Enabled(s, Clear)
    ensures Inv(Apply(s, Clear))
  {
    ClearBase(s);
    ClearSegment(s);
    ClearItems(s);
    ClearSize(s);
  }

  lemma ClearSegment(s: State)
    requires SegmentOk(s) && Enabled(s, Clear)
    ensures SegmentOk(Apply(s, Clear))
  {
  }

  lemma ClearItems(s: State)
    requires ItemsOk(s) && Enabled(s, Clear)
    ensures ItemsOk(Apply(s, Clear))
  {
    var s' := Apply(s, Clear);
    assert forall j: nat :: Chain(s'.tab, j) == [];
    assert forall k :: !Linked(s'.tab, k);
  }

  lemma ClearSize(s: State)
    requires SizeOk(s) && Enabled(s, Clear)
    ensures SizeOk(Apply(s, Clear))
  {
    var s' := Apply(s, Clear);
    SumZero(s'.diffs);
    IdleLags(s'.threads);
  }

  lemma ClearBase(s: State)
    requires Base(s) && Enabled(s, Clear)
    ensures Base(Apply(s, Clear))
  {
    var s' := Apply(s, Clear);
    assert Pow2(1) == 2;
    assert forall j: nat :: Chain(s'.tab, j) == [];
    forall u | 0 <= u < |s'.threads| ensures ThreadOk(s'.tab, s'.threads[u]) {
      assert ThreadOk(s.tab, s.threads[u]);
      ClearedThread(s.tab, s'.tab, s.threads[u]);
    }
  }

  lemma CrashTable(tab: Table, flags: set<nat>)
    requires TableOk(tab) && tab.durable <= flags <= tab.flags
    ensures var tab' := tab.(level := tab.enabled, recovered := tab.enabled, flags := flags, durable := flags);
            TableOk(tab') && forall j: nat :: Chain(tab', j) != [] ==> j < Pow2(tab'.recovered)
  {
    var tab' := tab.(level := tab.enabled, recovered := tab.enabled, flags := flags, durable := flags);
    Pow2Grows(tab.level, tab.enabled);
    assert forall j: nat :: Chain(tab', j) == Chain(tab, j);
    assert forall j: nat :: Dead(tab, j) ==> Dead(tab', j);
    assert forall j: nat :: Chain(tab', j) != [] ==> !Dead(tab, j);
    assert PathsOk(tab');
    assert ChainsOk(tab');
  }

  lemma CrashInv(s: State, flags: set<nat>)
    requires Inv(s) && Enabled(s, Crash(flags))
    ensures Inv(Apply(s, Crash(flags)))
  {
    CrashTable(s.tab, flags);
    CrashBase(s, flags);
    CrashItems(s, flags);
    CrashSize(s, flags);
    CrashSegment(s, flags);
  }

  lemma CrashSegment(s: State, flags: set<nat>)
    requires Enabled(s, Crash(flags))
    ensures SegmentOk(Apply(s, Crash(flags)))
  {
  }

  lemma CrashBase(s: State, flags: set<nat>)
    requires TableOk(s.tab) && Enabled(s, Crash(flags))
    ensures Base(Apply(s, Crash(flags)))
  {
    var s' := Apply(s, Crash(flags));
    CrashTable(s.tab, flags);
    forall u | 0 <= u < |s'.threads| ensures ThreadOk(s'.tab, s'.threads[u]) {
      IdleOk(s'.tab);
    }
  }

  lemma CrashItems(s: State, flags: set<nat>)
    requires ItemsOk(s) && Enabled(s, Crash(flags))
    ensures ItemsOk(Apply(s, Crash(flags)))
  {
    var s' := Apply(s, Crash(flags));
    forall id ensures Linked(s'.tab, id) <==> Linked(s.tab, id) {
      SameLinked(s.tab, s'.tab, id);
    }
  }

  lemma ActionInv(s: State, a: Action)
    requires Inv(s) && Enabled(s, a)
    ensures Inv(Apply(s, a))
  {
    match a
    case Invoke(t, op) => InvokeOk(s.tab, s.threads[t], op); PutInv(s, t, Start(s.tab, s.threads[t], op));
    case Run(t) => RunInv(s, t);
    case Alloc(t, id) => AllocInv(s, t, id);
    case GiveUp(t) =>
      GiveUpNotInserted(s, t);
      GiveUpOk(s.tab, s.threads[t]);
      PutInv(s, t, s.threads[t].(pc := UnlockReload));
    case Drop(t) => DropOk(s.tab, s.threads[t]); PutInv(s, t, NextVisit(Unlocked(s.threads[t])));
    case Respond(t) => RespondOk(s.tab, s.threads[t]); PutInv(s, t, s.threads[t].(pc := Idle));
    case Release(t, id) =>
      ReleaseOk(s.tab, s.threads[t], id);
      PutInv(s, t, s.threads[t].(accs := s.threads[t].accs - {id}));
    case Load(_, _) =>
    case Assign(t, id, val) => AssignInv(s, t, id, val);
    case Clear => ClearInv(s);
    case Crash(flags) => CrashInv(s, flags);
  }

  /** Every state of every run of any number of threads, with any number of crashes. */
  lemma {:induction false} ReachableInv(s: State, acts: seq<Action>)
    requires Inv(s) && CanRun(s, acts)
    ensures Inv(After(s, acts))
    decreases |acts|
  {
    if acts != [] {
      ActionInv(s, acts[0]);
      ReachableInv(Apply(s, acts[0]), acts[1..]);
    }
  }

  /** A state the system can get to from a fresh map, whatever the threads do and whenever it crashes. */
  ghost predicate Reachable(s: State)
  {
    exists hash, n: nat, acts :: CanRun(Initial(hash, n), acts) && s == After(Initial(hash, n), acts)
  }

  lemma ReachableIsInv(s: State)
    requires Reachable(s)
    ensures Inv(s)
  {
    var hash, n: nat, acts :| CanRun(Initial(hash, n), acts) && s == After(Initial(hash, n), acts);
    InitialInv(hash, n);
    ReachableInv(Initial(hash, n), acts);
  }

  lemma RunCons(s: State, a: Action, rest: seq<Action>)
    requires Enabled(s, a) && CanRun(Apply(s, a), rest)
    ensures CanRun(s, [a] + rest) && After(s, [a] + rest) == After(Apply(s, a), rest)
  {
    assert ([a] + rest)[0] == a && ([a] + rest)[1..] == rest;
  }

  lemma {:induction false} RunAppend(s: State, first: seq<Action>, second: seq<Action>)
    requires CanRun(s, first)
    ensures CanRun(s, first + second) <==> CanRun(After(s, first), second)
    ensures CanRun(s, first + second) ==> After(s, first + second) == After(After(s, first), second)
    decreases |first|
  {
    if first == [] {
      assert first + second == second;
    } else {
      assert (first + second)[1..] == first[1..] + second;
      RunAppend(Apply(s, first[0]), first[1..], second);
    }
  }

  lemma {:induction false} RunPrefix(s: State, first: seq<Action>, second: seq<Action>)
    requires CanRun(s, first + second)
    ensures CanRun(s, first)
    decreases |first|
  {
    if first != [] {
      assert (first + second)[1..] == first[1..] + second;
      RunPrefix(Apply(s, first[0]), first[1..], second);
    }
  }

  /** A run of an operation: its call, its steps and its return. */
  lemma CallRun(s: State, call: Action, steps: seq<Action>, end: Action)
    requires CanRun(s, [call] + steps + [end])
    ensures Enabled(s, call) && CanRun(Apply(s, call), steps) && Enabled(After(Apply(s, call), steps), end)
    ensures After(s, [call] + steps + [end]) == Apply(After(Apply(s, call), steps), end)
  {
    var all := [call] + steps + [end];
    assert all[0] == call && all[1..] == steps + [end];
    RunPrefix(Apply(s, call), steps, [end]);
    RunAppend(Apply(s, call), steps, [end]);
    assert [end][0] == end && [end][1..] == [];
  }
}
