/** What the invariant says to a client, about every reachable state of every run. */
module MapTheorems {
  import opened Wrappers
  import opened HashPath
  import opened ChainSplit
  import opened MapState
  import opened MapInvariant
  import opened MapTable
  import opened MapActor
  import opened MapFrame
  import opened MapItems
  import opened MapThreads
  import opened MapLocks
  import opened MapReachable
  import opened MapNodes
  import opened MapReturns
  import opened MapVisits

  // ---------- where the nodes are ----------

  /**
    A node lies in a bucket that some mask selects for its hash, no flagged bucket is
    selected by a longer mask, and no other node anywhere has its key.
   */
  lemma Placement(s: State, i: nat, n: Node)
    requires Reachable(s) && n in Chain(s.tab, i)
    ensures OnPath(i, s.tab.hash(n.key))
    ensures forall j: nat :: i < j && OnPath(j, s.tab.hash(n.key)) ==> j !in s.tab.flags && Chain(s.tab, j) == []
    ensures forall j: nat, m :: m in Chain(s.tab, j) && m.key == n.key ==> j == i && m == n
    ensures forall x, y :: 0 <= x < y < |Chain(s.tab, i)| ==> Chain(s.tab, i)[x].key != Chain(s.tab, i)[y].key
  {
    ReachableIsInv(s);
    forall j: nat | i < j && OnPath(j, s.tab.hash(n.key)) ensures j !in s.tab.flags && Chain(s.tab, j) == [] {
      assert Dead(s.tab, j);
    }
    forall j: nat, m | m in Chain(s.tab, j) && m.key == n.key ensures j == i && m == n {
      KeyOnce(s.tab, j, i, m, n);
    }
  }

  // ---------- deadlock ----------

  /** Thread t cannot get on because thread u has the bucket lock it waits for. */
  ghost predicate WaitsFor(s: State, t: nat, u: nat)
  {
    && t < |s.threads| && u < |s.threads| && s.threads[t].pc.Block?
    && s.threads[t].pc.i in s.threads[u].held
    && (WantsWrite(s.threads[t]) || s.threads[u].held[s.threads[t].pc.i])
  }

  /** A waiting thread holds only buckets above the one it waits for. */
  lemma HoldsOnlyAbove(s: State, t: nat)
    requires Inv(s) && t < |s.threads| && s.threads[t].pc.Block?
    ensures forall k :: k in s.threads[t].held ==> k > s.threads[t].pc.i
  {
    var th := s.threads[t];
    assert Shape(th);
    StackAbove(th);
  }

  /** So whom a waiting thread waits for waits, if at all, for a lower bucket. */
  lemma WaitsDescend(s: State, t: nat, u: nat)
    requires Inv(s) && WaitsFor(s, t, u) && s.threads[u].pc.Block?
    ensures s.threads[u].pc.i < s.threads[t].pc.i
  {
    HoldsOnlyAbove(s, u);
  }

  lemma {:induction false} WaitChain(s: State, c: seq<nat>, k: nat)
    requires Inv(s) && 0 < k < |c|
    requires forall j :: 0 <= j < |c| - 1 ==> WaitsFor(s, c[j], c[j + 1])
    requires forall j :: 0 <= j < |c| ==> c[j] < |s.threads| && s.threads[c[j]].pc.Block?
    ensures s.threads[c[k]].pc.i < s.threads[c[0]].pc.i
  {
    WaitsDescend(s, c[k - 1], c[k]);
    if k > 1 {
      WaitChain(s, c, k - 1);
    }
  }

  /** No cycle of threads waiting for each other's bucket locks is reachable, not even of a thread for itself. */
  lemma NoWaitCycle(s: State, c: seq<nat>)
    requires Reachable(s) && c != []
    requires forall j :: 0 <= j < |c| - 1 ==> WaitsFor(s, c[j], c[j + 1])
    ensures !WaitsFor(s, c[|c| - 1], c[0])
  {
    ReachableIsInv(s);
    if WaitsFor(s, c[|c| - 1], c[0]) {
      CloseCycle(s, c);
      WaitChain(s, c + [c[0]], |c|);
      assert false;
    }
  }

  lemma CloseCycle(s: State, c: seq<nat>)
    requires c != [] && WaitsFor(s, c[|c| - 1], c[0])
    requires forall j :: 0 <= j < |c| - 1 ==> WaitsFor(s, c[j], c[j + 1])
    ensures var d := c + [c[0]];
      && (forall j :: 0 <= j < |d| - 1 ==> WaitsFor(s, d[j], d[j + 1]))
      && (forall j :: 0 <= j < |d| ==> d[j] < |s.threads| && s.threads[d[j]].pc.Block?)
  {
    var d := c + [c[0]];
    forall j | 0 <= j < |d| - 1 ensures WaitsFor(s, d[j], d[j + 1]) {
      assert j < |c| - 1 ==> WaitsFor(s, c[j], c[j + 1]);
    }
    forall j | 0 <= j < |d| ensures d[j] < |s.threads| && s.threads[d[j]].pc.Block? {
      var k := if j == |c| then 0 else j;
      assert WaitsFor(s, d[k], d[k + 1]);
    }
  }

  /** Some address is not in use. */
  lemma FreeAddress(vals: map<nat, Value>) returns (id: nat)
    ensures id !in vals
  {
    id := 0;
    var rest := vals.Keys;
    while rest != {}
      invariant forall k :: k in vals && k !in rest ==> k < id
      decreases rest
    {
      var k :| k in rest;
      rest := rest - {k};
      id := if k < id then id else k + 1;
    }
  }

  /** Whether thread t can take a step of its operation. */
  ghost predicate CanStep(s: State, t: nat)
  {
    exists a :: Enabled(s, a) && (a == Run(t) || a == GiveUp(t) || a == Respond(t) || (a.Alloc? && a.t == t))
  }

  lemma AllocStep(s: State, t: nat)
    requires Inv(s) && t < |s.threads| && s.threads[t].pc.InsertTx?
    ensures CanStep(s, t)
  {
    assert OpOk(s.threads[t]);
    var id := FreeAddress(s.vals);
    assert !Linked(s.tab, id);
    assert Enabled(s, Alloc(t, id));
  }

  lemma BusyRun(s: State, t: nat)
    requires t < |s.threads| && t < |s.diffs| && OpOk(s.threads[t])
    requires s.threads[t].pc.LoadMaskAgain? ==> s.threads[t].level <= s.tab.level
    requires s.threads[t].pc.Recheck? ==> s.threads[t].pc.i in s.tab.flags || s.threads[t].pc.i >= 2
    requires var pc := s.threads[t].pc;
             !pc.Idle? && !pc.Block? && !pc.InsertTx? && !pc.TryItem? && !pc.Return?
    ensures RunEnabled(s, t)
  {
  }

  lemma BusyStep(s: State, t: nat)
    requires Inv(s) && t < |s.threads| && s.threads[t].pc != Idle && !s.threads[t].pc.Block?
    ensures CanStep(s, t)
  {
    var th := s.threads[t];
    if th.pc.InsertTx? {
      AllocStep(s, t);
    } else if th.pc.TryItem? {
      ItemStep(s, t);
    } else if th.pc.Return? {
      assert Enabled(s, Respond(t));
    } else {
      BusyFacts(s.tab, th);
      BusyRun(s, t);
      RunStep(s, t);
    }
  }

  lemma ItemStep(s: State, t: nat)
    requires t < |s.threads| && s.threads[t].pc.TryItem?
    ensures CanStep(s, t)
  {
    assert Enabled(s, Run(t)) || Enabled(s, GiveUp(t));
  }

  lemma RunStep(s: State, t: nat)
    requires t < |s.threads| && RunEnabled(s, t)
    ensures CanStep(s, t)
  {
    assert Enabled(s, Run(t));
  }

  lemma BusyFacts(tab: Table, th: Thread)
    requires TableOk(tab) && ThreadOk(tab, th)
    ensures OpOk(th) && (th.pc.LoadMaskAgain? ==> th.level <= tab.level)
    ensures th.pc.Recheck? ==> th.pc.i in tab.flags || th.pc.i >= 2
  {
  }

  /** Whoever is waited for has an operation in progress. */
  lemma HolderBusy(s: State, t: nat) returns (u: nat)
    requires ThreadsOk(s) && t < |s.threads| && s.threads[t].pc.Block? && !RunEnabled(s, t)
    ensures u < |s.threads| && WaitsFor(s, t, u) && s.threads[u].pc != Idle
  {
    var i := s.threads[t].pc.i;
    u :| 0 <= u < |s.threads| && i in s.threads[u].held && (WantsWrite(s.threads[t]) || s.threads[u].held[i]);
    if s.threads[u].pc == Idle {
      IdleHoldsNothing(s.threads[u]);
    }
  }

  lemma IdleHoldsNothing(th: Thread)
    requires Shape(th) && th.pc.Idle?
    ensures th.held == map[]
  {
  }

  /** A waiting thread can either get its lock now, or follow its waits down to a thread that can go on. */
  lemma {:induction false} SomeoneSteps(s: State, t: nat) returns (u: nat)
    requires Inv(s) && t < |s.threads| && s.threads[t].pc != Idle
    ensures u < |s.threads| && s.threads[u].pc != Idle && CanStep(s, u)
    decreases if s.threads[t].pc.Block? then s.threads[t].pc.i + 1 else 0
  {
    if !s.threads[t].pc.Block? {
      u := t;
      BusyStep(s, t);
    } else if RunEnabled(s, t) {
      u := t;
      RunStep(s, t);
    } else {
      var v := HolderBusy(s, t);
      if s.threads[v].pc.Block? {
        WaitsDescend(s, t, v);
      }
      u := SomeoneSteps(s, v);
    }
  }

  /** As long as an operation is in progress, some operation in progress can take a step. */
  lemma DeadlockFree(s: State, t: nat)
    requires Reachable(s) && t < |s.threads| && s.threads[t].pc != Idle
    ensures exists u :: 0 <= u < |s.threads| && s.threads[u].pc != Idle && CanStep(s, u)
  {
    ReachableIsInv(s);
    var u := SomeoneSteps(s, t);
  }

  /** The recursion of rehash_bucket for a bucket is no deeper than the bits of its index. */
  lemma {:induction false} RecursionDepth(st: seq<nat>, i: nat)
    requires forall k :: 0 <= k < |st| ==> st[k] >= 2
    requires forall k :: 0 <= k < |st| - 1 ==> st[k + 1] == Parent(st[k])
    requires st != [] && i == Parent(st[|st| - 1])
    ensures |st| <= Log2(st[0])
  {
    if |st| == 1 {
      LogAtLeastOne(st[0]);
    } else {
      RecursionDepth(st[1..], i);
      ParentLog(st[0]);
    }
  }

  lemma LogAtLeastOne(x: nat)
    requires x >= 2
    ensures Log2(x) >= 1
  {
  }

  lemma {:induction false} ParentLog(x: nat)
    requires x >= 4 || (x >= 2 && Parent(x) > 0)
    ensures Parent(x) > 0 ==> Log2(Parent(x)) < Log2(x)
  {
    if x >= 4 && Parent(x / 2) > 0 {
      ParentLog(x / 2);
    }
  }

  lemma BoundedRehash(s: State, t: nat)
    requires Reachable(s) && t < |s.threads| && s.threads[t].stack != []
    ensures s.threads[t].stack[0] >= 2 && |s.threads[t].stack| <= Log2(s.threads[t].stack[0])
  {
    ReachableIsInv(s);
    assert Shape(s.threads[t]);
    StackDepth(s.threads[t]);
  }

  lemma StackDepth(th: Thread)
    requires StackOk(th) && th.stack != []
    ensures th.stack[0] >= 2 && |th.stack| <= Log2(th.stack[0])
  {
    RecursionDepth(th.stack, Parent(th.stack[|th.stack| - 1]));
  }

  // ---------- finds beside finds ----------

  /**
    A find that comes to a rehashed bucket which nobody has locked exclusively gets in at once, and
    locks it shared: finds do not wait for finds.
   */
  lemma FindsShare(s: State, t: nat, i: nat)
    requires Reachable(s) && t < |s.threads| && s.threads[t].op.Find? && s.threads[t].pc == ReadFlag(i)
    requires s.threads[t].stack == [] && i in s.tab.flags && ReadFree(s, i)
    ensures CanRun(s, [Run(t), Run(t)])
    ensures var s' := After(s, [Run(t), Run(t)]);
      && t < |s'.threads| && s'.threads[t].pc.Search? && i in s'.threads[t].held && !s'.threads[t].held[i]
  {
    var s1 := Put(s, t, s.threads[t].(pc := Block(i)));
    FlaggedWaits(s, t, i);
    SharedIn(s1, t, i);
    RunCons(s1, Run(t), []);
    RunCons(s, Run(t), [Run(t)]);
    assert [Run(t)] + [] == [Run(t)];
    assert [Run(t)] + [Run(t)] == [Run(t), Run(t)];
  }

  lemma FlaggedWaits(s: State, t: nat, i: nat)
    requires t < |s.threads| && s.threads[t].pc == ReadFlag(i) && i in s.tab.flags
    ensures Enabled(s, Run(t)) && Apply(s, Run(t)) == Put(s, t, s.threads[t].(pc := Block(i)))
  {
  }

  lemma SharedIn(s: State, t: nat, i: nat)
    requires t < |s.threads| && s.threads[t].op.Find? && s.threads[t].pc == Block(i) && s.threads[t].stack == []
    requires ReadFree(s, i)
    ensures Enabled(s, Run(t))
    ensures var s' := Apply(s, Run(t)); t < |s'.threads| && s'.threads[t].pc.Search? && i in s'.threads[t].held && !s'.threads[t].held[i]
  {
  }

  // ---------- traversals ----------

  /** Dropping a bucket unlocks it. */
  lemma DropUnlocks(s: State, t: nat)
    requires Reachable(s) && Enabled(s, Drop(t))
    ensures var s', k := Apply(s, Drop(t)), s.threads[t].base;
      WriteFree(s', k) && forall j :: j in s.threads[t].held && j != k ==> j in s'.threads[t].held
  {
    ReachableIsInv(s);
    VisitedHeld(s.tab, s.threads[t]);
    HeldAlone(s, t, s.threads[t].base);
    DroppedFree(s, t);
  }

  lemma DroppedFree(s: State, t: nat)
    requires Enabled(s, Drop(t)) && forall u :: 0 <= u < |s.threads| && u != t ==> s.threads[t].base !in s.threads[u].held
    ensures var s', k := Apply(s, Drop(t)), s.threads[t].base;
      WriteFree(s', k) && forall j :: j in s.threads[t].held && j != k ==> j in s'.threads[t].held
  {
    VisitHeld(Unlocked(s.threads[t]));
  }

  lemma ReachableIsVisited(s: State)
    requires Reachable(s)
    ensures VisitsOk(s)
  {
    var hash, n: nat, acts :| CanRun(Initial(hash, n), acts) && s == After(Initial(hash, n), acts);
    InitialInv(hash, n);
    IdleVisits(Initial(hash, n));
    ReachableVisits(Initial(hash, n), acts);
  }

  /**
    A visit goes down its range and leaves nothing out: when it has acquired a bucket, that one and
    all above it are rehashed with their flags persisted, and at its end all of the range are,
    whether they were kept or dropped.
   */
  lemma VisitedRange(s: State, t: nat)
    requires Reachable(s) && t < |s.threads| && s.threads[t].op.Visit?
    ensures var th := s.threads[t];
      && (th.pc.Visited? ==> th.op.lo <= th.base <= th.op.hi)
      && (th.pc.Visited? ==> forall k: nat :: th.base <= k <= th.op.hi ==> k in s.tab.durable && k in s.tab.flags)
      && (th.pc.VisitDone? || th.pc.Return? ==>
            forall k: nat :: th.op.lo <= k <= th.op.hi ==> k in s.tab.durable && k in s.tab.flags)
  {
    ReachableIsInv(s);
    ReachableIsVisited(s);
    assert VisitOk(s.tab, s.threads[t]) && FlagsOk(s.tab);
  }

  /** When rehash() returns, every bucket of the table it was called on is rehashed, not only those of the last segment. */
  lemma RehashDone(s: State, t: nat, level: nat)
    requires Reachable(s) && t < |s.threads| && s.threads[t].pc.Return? && level >= 1
    requires s.threads[t].op == Visit(Pow2(level - 1), Pow2(level) - 1)
    ensures forall k: nat :: k < Pow2(level) ==> k in s.tab.flags && k in s.tab.durable
  {
    ReachableIsInv(s);
    VisitedRange(s, t);
    LastSegmentDone(s.tab, level);
  }

  lemma LastSegmentDone(tab: Table, level: nat)
    requires FlagsOk(tab) && level >= 1
    requires forall k: nat :: Pow2(level - 1) <= k <= Pow2(level) - 1 ==> k in tab.durable
    ensures forall k: nat :: k < Pow2(level) ==> k in tab.flags && k in tab.durable
  {
    forall k: nat | k < Pow2(level) ensures k in tab.flags && k in tab.durable {
      if 1 <= k < Pow2(level - 1) {
        ChildParent(k, level - 1);
        assert k + Pow2(level - 1) in tab.flags;
      }
    }
  }

  lemma {:induction false} ChildParent(k: nat, j: nat)
    requires j >= 1 && k < Pow2(j)
    ensures k + Pow2(j) >= 2 && Parent(k + Pow2(j)) == k
  {
    if j > 1 {
      ChildParent(k / 2, j - 1);
      assert (k + Pow2(j)) / 2 == k / 2 + Pow2(j - 1);
    }
  }

  /** Whatever a run does after a visit has acquired a bucket, it is locked exclusively until the visit drops it or ends. */
  lemma VisitLocks(s: State, acts: seq<Action>, t: nat)
    requires Reachable(s) && t < |s.threads| && s.threads[t].pc.Visited? && CanRun(s, acts)
    requires KeepsOn(s, acts, t, s.threads[t].base)
    ensures var s', k := After(s, acts), s.threads[t].base;
      && t < |s'.threads| && k in s'.threads[t].held && s'.threads[t].held[k]
      && forall u :: 0 <= u < |s'.threads| && u != t ==> k !in s'.threads[u].held
  {
    ReachableIsInv(s);
    VisitedHeld(s.tab, s.threads[t]);
    KeptHeld(s, acts, t, s.threads[t].base);
    ReachableInv(s, acts);
    HeldAlone(After(s, acts), t, s.threads[t].base);
  }

  lemma VisitedHeld(tab: Table, th: Thread)
    requires ThreadOk(tab, th) && th.pc.Visited?
    ensures Kept(th, th.base)
  {
    assert Owns(th, th.base);
  }

  lemma HeldAlone(s: State, t: nat, k: nat)
    requires LocksOk(s.threads) && t < |s.threads| && k in s.threads[t].held && s.threads[t].held[k]
    ensures forall u :: 0 <= u < |s.threads| && u != t ==> k !in s.threads[u].held
  {
    forall u | 0 <= u < |s.threads| && u != t ensures k !in s.threads[u].held {
      assert Compatible(s.threads[t], s.threads[u]);
    }
  }

  // ---------- accessors ----------

  lemma ReachableIsDelivered(s: State)
    requires Reachable(s)
    ensures Delivered(s)
  {
    var hash, n: nat, acts :| CanRun(Initial(hash, n), acts) && s == After(Initial(hash, n), acts);
    InitialInv(hash, n);
    InitialDelivered(hash, n);
    ReachableDelivered(Initial(hash, n), acts);
  }

  /**
    Thread t has the item of its key: locked as it asked, in an accessor of its own and of
    nobody else if it is to be written, and the one linked node with that key.
   */
  ghost predicate HasItem(s: State, t: nat)
    requires t < |s.threads| && (s.threads[t].op.Find? || s.threads[t].op.Insert?)
  {
    var th := s.threads[t];
    && th.found in th.accs && th.accs[th.found] == th.op.item.WriteItem?
    && th.found in s.vals && Has(s.tab, Node(th.found, th.op.key))
    && (forall n :: Has(s.tab, n) && (n.key == th.op.key || n.id == th.found) ==> n == Node(th.found, th.op.key))
    && (forall u :: 0 <= u < |s.threads| && u != t && th.found in s.threads[u].accs ==>
          !th.op.item.WriteItem? && !s.threads[u].accs[th.found])
  }

  /**
    A find that hit and an insert, called for an item, have it from before the unlocking of
    the bucket until they return.
   */
  lemma ReturnedItem(s: State, t: nat)
    requires Reachable(s) && t < |s.threads|
    requires var pc := s.threads[t].pc; pc.UnlockDone? || pc.TrySegment? || Growing(pc) || pc.Return?
    requires var op := s.threads[t].op; (op.Find? && s.threads[t].result) || op.Insert?
    requires !s.threads[t].op.item.NoItem?
    ensures HasItem(s, t)
  {
    ReachableIsInv(s);
    ReachableIsDelivered(s);
    InvItem(s, t);
  }

  lemma InvItem(s: State, t: nat)
    requires TableOk(s.tab) && AccsLinked(s) && AccsOk(s.threads)
    requires Delivered(s) && t < |s.threads| && Delivering(s.threads[t])
    ensures HasItem(s, t)
  {
    DeliveredItem(s, t);
    OnlyNode(s.tab, Node(s.threads[t].found, s.threads[t].op.key));
    OthersShare(s, t, s.threads[t].found);
  }

  lemma DeliveredItem(s: State, t: nat)
    requires Delivered(s) && t < |s.threads| && Delivering(s.threads[t])
    ensures var th := s.threads[t];
      th.found in th.accs && th.accs[th.found] == th.op.item.WriteItem? && Has(s.tab, Node(th.found, OpKey(th.op)))
  {
    assert DeliveredOk(s.tab, s.threads[t]);
  }

  lemma OnlyNode(tab: Table, n: Node)
    requires TableOk(tab) && Has(tab, n)
    ensures forall m :: Has(tab, m) && (m.key == n.key || m.id == n.id) ==> m == n
  {
    forall m | Has(tab, m) && (m.key == n.key || m.id == n.id) ensures m == n {
      OneNode(tab, m, n);
    }
  }

  lemma OthersShare(s: State, t: nat, id: nat)
    requires AccsLinked(s) && AccsOk(s.threads) && t < |s.threads| && id in s.threads[t].accs
    ensures id in s.vals
    ensures forall u :: 0 <= u < |s.threads| && u != t && id in s.threads[u].accs ==>
              !s.threads[t].accs[id] && !s.threads[u].accs[id]
  {
    forall u | 0 <= u < |s.threads| && u != t && id in s.threads[u].accs
      ensures !s.threads[t].accs[id] && !s.threads[u].accs[id]
    {
      assert ItemsCompatible(s.threads[t], s.threads[u]);
    }
  }

  /**
    Releasing an accessor takes its item out of the thread's accessors and nothing else out of
    anybody's; if it was held exclusively, any thread that wants it can now lock it.
   */
  lemma ReleasedItem(s: State, t: nat, id: nat)
    requires Reachable(s) && Enabled(s, Release(t, id))
    ensures var s' := Apply(s, Release(t, id));
      && id !in s'.threads[t].accs && (forall i :: i != id && i in s.threads[t].accs ==> i in s'.threads[t].accs)
      && (forall u :: 0 <= u < |s.threads| && u != t ==> s'.threads[u] == s.threads[u])
      && (forall u :: 0 <= u < |s.threads| && s.threads[u].pc.TryItem? && s.threads[u].found == id && s.threads[t].accs[id] ==>
            Enabled(s', Run(u)))
  {
    ReachableIsInv(s);
    ReleasedFree(s, t, id);
  }

  lemma ReleasedFree(s: State, t: nat, id: nat)
    requires AccsOk(s.threads) && Enabled(s, Release(t, id))
    ensures var s' := Apply(s, Release(t, id));
      && id !in s'.threads[t].accs && (forall i :: i != id && i in s.threads[t].accs ==> i in s'.threads[t].accs)
      && (forall u :: 0 <= u < |s.threads| && u != t ==> s'.threads[u] == s.threads[u])
      && (forall u :: 0 <= u < |s.threads| && s.threads[u].pc.TryItem? && s.threads[u].found == id && s.threads[t].accs[id] ==>
            Enabled(s', Run(u)))
  {
    var s' := Apply(s, Release(t, id));
    if s.threads[t].accs[id] {
      forall u | 0 <= u < |s.threads| ensures id !in s'.threads[u].accs {
        assert u != t ==> ItemsCompatible(s.threads[t], s.threads[u]);
      }
    }
  }

  /** Whatever step is taken, every item some accessor holds afterwards is still linked. */
  lemma AccessorsNeverDangle(s: State, t: nat, id: nat)
    requires Reachable(s) && t < |s.threads| && id in s.threads[t].accs
    ensures Linked(s.tab, id) && id in s.vals
  {
    ReachableIsInv(s);
  }

  /** An erase frees a node that no accessor holds before or after. */
  lemma FreedNodeUnheld(s: State, t: nat, u: nat)
    requires Reachable(s) && t < |s.threads| && u < |s.threads| && s.threads[t].pc.EraseTx?
    ensures Linked(s.tab, s.threads[t].found) && s.threads[t].found !in s.threads[u].accs
  {
    ReachableIsInv(s);
    assert Private(s.threads[t]);
    FoundLinked(s.tab, s.threads[t]);
  }

  /** What a thread reads through an accessor no other thread changes. */
  lemma AccessorStable(s: State, a: Action, t: nat, id: nat)
    requires Reachable(s) && Enabled(s, a) && t < |s.threads| && id in s.threads[t].accs
    requires !a.Crash? && !(a.Assign? && a.t == t)
    ensures id in s.vals && id in Apply(s, a).vals && Apply(s, a).vals[id] == s.vals[id]
  {
    ReachableIsInv(s);
    ActionVals(s, a, t, id);
  }

  lemma ActionVals(s: State, a: Action, t: nat, id: nat)
    requires ItemsOk(s) && Enabled(s, a) && t < |s.threads| && id in s.threads[t].accs
    requires !a.Crash? && !(a.Assign? && a.t == t)
    ensures id in s.vals && id in Apply(s, a).vals && Apply(s, a).vals[id] == s.vals[id]
  {
    if a.Run? {
      RunVals(s, a.t, t, id);
    } else if a.Alloc? {
      AllocItems(s, a.t, a.id);
    } else if a.Assign? {
      assert ItemsCompatible(s.threads[t], s.threads[a.t]);
    }
  }

  lemma RunVals(s: State, u: nat, t: nat, id: nat)
    requires ItemsOk(s) && u < |s.threads| && RunEnabled(s, u) && t < |s.threads| && id in s.threads[t].accs
    ensures id in s.vals && id in RunThread(s, u).vals && RunThread(s, u).vals[id] == s.vals[id]
  {
    if Acquiring(s.threads[u].pc) {
      AcquireFrameOk(s, u);
    } else if !HasBase(s.threads[u].pc) {
      OutsideFrameOk(s, u);
    } else {
      OperationVals(s, u, t, id);
    }
  }

  lemma OperationVals(s: State, u: nat, t: nat, id: nat)
    requires AccsLinked(s) && PrivateOk(s)
    requires u < |s.threads| && RunEnabled(s, u) && HasBase(s.threads[u].pc) && t < |s.threads| && id in s.threads[t].accs
    ensures id in s.vals && id in RunOperation(s, u).vals && RunOperation(s, u).vals[id] == s.vals[id]
  {
    if Looking(s.threads[u].pc) {
      LookFrameOk(s, u);
    } else if s.threads[u].pc.EraseTx? {
      assert Private(s.threads[u]);
    }
  }

  // ---------- crash and recovery ----------

  /**
    Recovery from a crash at any step: the chains are those committed, the mask is the old
    one or the next one, nothing is locked and the size counts the linked nodes.
   */
  lemma Recovery(s: State, flags: set<nat>)
    requires Reachable(s) && Enabled(s, Crash(flags))
    ensures var s' := Apply(s, Crash(flags));
      && Inv(s') && s'.tab.chains == s.tab.chains && s'.vals == s.vals
      && (s'.tab.level == s.tab.level || s'.tab.level == NextTable(s.tab.level))
      && s'.size == Word(|s.vals|) && s'.segLock == None
      && (forall u :: 0 <= u < |s'.threads| ==> s'.threads[u].held == map[] && s'.threads[u].accs == map[])
  {
    ReachableIsInv(s);
    CrashInv(s, flags);
    RecoveredMask(s);
    Restarts(s, flags);
  }

  /** What a restart sets. */
  lemma Restarts(s: State, flags: set<nat>)
    requires Enabled(s, Crash(flags))
    ensures var s' := Apply(s, Crash(flags));
      && s'.tab.chains == s.tab.chains && s'.vals == s.vals && s'.segLock == None && s'.tab.level == s.tab.enabled
      && s'.size == Word(s.onInit + Sum(s.diffs))
      && (forall u :: 0 <= u < |s'.threads| ==> s'.threads[u].held == map[] && s'.threads[u].accs == map[])
  {
  }

  lemma RecoveredMask(s: State)
    requires SegmentOk(s) && SizeOk(s)
    ensures s.tab.enabled == s.tab.level || s.tab.enabled == NextTable(s.tab.level)
    ensures Word(s.onInit + Sum(s.diffs)) == Word(|s.vals|)
  {
  }

  /**
    Picking up an interrupted rehash. A bucket without its flag that already has nodes has
    them all, so setting the flag is enough; one without nodes has not been used, so its
    parent can be split again. Either way no bucket below it has nodes.
   */
  lemma InterruptedRehash(s: State, j: nat)
    requires Reachable(s) && j >= 2 && j !in s.tab.flags
    ensures Chain(s.tab, j) != [] ==>
              forall i: nat, n :: n in Chain(s.tab, i) && i < j ==> !OnPath(j, s.tab.hash(n.key))
    ensures forall i: nat, n :: n in Chain(s.tab, i) && j < i ==> !OnPath(j, s.tab.hash(n.key))
  {
    ReachableIsInv(s);
    forall i: nat, n | n in Chain(s.tab, i) && j < i ensures !OnPath(j, s.tab.hash(n.key)) {
      if OnPath(j, s.tab.hash(n.key)) {
        UsedBelow(s.tab, j, i, s.tab.hash(n.key));
      }
    }
    forall i: nat, n | n in Chain(s.tab, i) && i < j && OnPath(j, s.tab.hash(n.key)) ensures Chain(s.tab, j) == [] {
      assert Dead(s.tab, j);
    }
  }

  /** After clear the map is as new: the embedded segment, no nodes, size 0, nothing locked. */
  lemma ClearIsNew(s: State)
    requires Reachable(s) && Enabled(s, Clear)
    ensures var s', start := Apply(s, Clear), Initial(s.tab.hash, |s.threads|);
      && s'.tab == start.tab && s'.vals == start.vals && s'.size == start.size && s'.onInit == start.onInit
      && s'.diffs == start.diffs && s'.segLock == None
      && (forall u :: 0 <= u < |s'.threads| ==> s'.threads[u].held == map[] && s'.threads[u].accs == map[])
  {
    ReachableIsInv(s);
    NothingGrows(s);
    forall u | 0 <= u < |s.threads| ensures s.threads[u].held == map[] {
      assert ThreadOk(s.tab, s.threads[u]);
      IdleHoldsNothing(s.threads[u]);
    }
  }

  lemma NothingGrows(s: State)
    requires SegmentOk(s) && SizeOk(s) && Quiescent(s)
    ensures s.segLock == None && |s.diffs| == |s.threads|
  {
  }

  // ---------- size ----------

  /**
    Modulo the word size, on_init_size and the differences of the threads always count the
    linked nodes, and so does my_size when no operation is in progress.
   */
  lemma SizeCounts(s: State)
    requires Reachable(s)
    ensures forall id :: id in s.vals <==> Linked(s.tab, id)
    ensures Word(s.onInit + Sum(s.diffs)) == Word(|s.vals|)
    ensures (forall u :: 0 <= u < |s.threads| ==> s.threads[u].pc.Idle?) ==> Word(s.size) == Word(|s.vals|)
  {
    ReachableIsInv(s);
    QuietSizeCounts(s);
    ValuesLinked(s);
  }

  lemma ValuesLinked(s: State)
    requires ItemsOk(s)
    ensures forall id :: id in s.vals <==> Linked(s.tab, id)
  {
  }

  lemma QuietSizeCounts(s: State)
    requires SizeOk(s)
    ensures Word(s.onInit + Sum(s.diffs)) == Word(|s.vals|)
    ensures (forall u :: 0 <= u < |s.threads| ==> s.threads[u].pc.Idle?) ==> Word(s.size) == Word(|s.vals|)
  {
    if forall u :: 0 <= u < |s.threads| ==> s.threads[u].pc.Idle? {
      MapSize.IdleLags(s.threads);
    }
  }

  // ---------- a miss ----------

  /**
    find or erase reports a miss after check_mask_race, however often the mask has grown:
    at that instant, with the bucket still locked, the key is in no bucket of the table.
   */
  lemma MissIsGenuine(s: State, t: nat, i: nat, n: Node)
    requires Reachable(s) && t < |s.threads| && RunEnabled(s, t)
    requires s.threads[t].pc.LoadMaskAgain? || s.threads[t].pc.ReadNextFlag?
    requires RunThread(s, t).threads[t].pc.UnlockDone? || RunThread(s, t).threads[t].pc.InsertTx?
    requires n in Chain(s.tab, i)
    ensures n.key != OpKey(s.threads[t].op)
  {
    ReachableIsInv(s);
    var th := s.threads[t];
    assert ThreadOk(s.tab, th);
    if th.pc.LoadMaskAgain? {
      MaskedOnPath(th.hash, th.level);
      SameBucketClear(s.tab, th.hash, th.base);
    } else {
      NextNotFilled(s, t);
      NextDeadClear(s.tab, th.hash, th.base, th.pc.j);
    }
    if n.key == OpKey(th.op) {
      KeyAtHome(s.tab, th.base, OpKey(th.op), i, n);
    }
  }
}
