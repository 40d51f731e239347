/**
  Linearizability, step by step: each step of the system, a crash included, is matched by at most
  one operation that takes effect on an atomic map, between its invocation and its response.
 */
module MapLinearize {
  import opened Wrappers
  import opened HashPath
  import opened ChainSplit
  import opened MapState
  import opened MapInvariant
  import opened MapTable
  import opened MapFrame
  import opened MapItems
  import opened MapThreads
  import opened MapReachable
  import opened MapNodes
  import opened MapReturns

  // ---------- the atomic map ----------

  datatype Call = Resting | Pending(op: Op) | Done(op: Op, result: bool)

  datatype Spec = Spec(data: map<nat, Value>, calls: seq<Call>)

  /** What a client, or the outside world, sees of an action. */
  datatype Label =
    | Silent
    | Called(t: nat, op: Op)
    | Returned(t: nat, result: bool, item: Option<Handle>)   // the item locked for the caller
    | Released(t: nat, key: nat)     // release of an accessor
    | Loaded(t: nat, key: nat, val: Value)   // read through an accessor
    | Stored(t: nat, key: nat, val: Value)   // assignment through an accessor
    | Wiped                          // clear
    | Restarted                      // crash and recovery

  function Perform(op: Op, data: map<nat, Value>): (map<nat, Value>, bool)
  {
    match op
    case Find(key, _) => (data, key in data)
    case Insert(key, val, _) => if key in data then (data, false) else (data[key := val], true)
    case Erase(key) => (data - {key}, key in data)
    case Visit(_, _) => (data, true)
  }

  /** One pending call takes effect. */
  ghost predicate TakesEffect(a: Spec, b: Spec, t: nat)
  {
    && t < |a.calls| && a.calls[t].Pending?
    && var (data, result) := Perform(a.calls[t].op, a.data);
       b == Spec(data, a.calls[t := Done(a.calls[t].op, result)])
  }

  ghost predicate SpecNext(a: Spec, l: Label, b: Spec)
  {
    match l
    case Silent => b == a || exists t :: TakesEffect(a, b, t)
    case Called(t, op) => t < |a.calls| && a.calls[t].Resting? && b == a.(calls := a.calls[t := Pending(op)])
    case Returned(t, result, item) =>
      && t < |a.calls| && a.calls[t].Done? && a.calls[t].result == result
      && item == Given(a.calls[t].op, result) && b == a.(calls := a.calls[t := Resting])
    case Released(_, key) => key in a.data && b == a
    case Loaded(_, key, val) => key in a.data && a.data[key] == val && b == a
    case Stored(_, key, val) => key in a.data && b == a.(data := a.data[key := val])
    case Wiped => b == a.(data := map[])
    case Restarted =>
      b.data == a.data && |b.calls| == |a.calls| && forall t :: 0 <= t < |b.calls| ==> b.calls[t] == Resting
  }

  // ---------- what a state of the system means ----------

  /** Whether the operation of a thread has taken effect. */
  predicate Committed(th: Thread)
  {
    th.pc.UnlockDone? || th.pc.BumpSize? || th.pc.TrySegment? || Growing(th.pc) || th.pc.Return? ||
    (th.pc.TryItem? && th.op.Insert? && th.inserted)
  }

  function CallOf(th: Thread): Call
  {
    if th.pc.Idle? then Resting else if Committed(th) then Done(th.op, th.result) else Pending(th.op)
  }

  ghost predicate Present(tab: Table, key: nat)
  {
    exists n :: Has(tab, n) && n.key == key
  }

  /** The map stored in the table. */
  ghost predicate Means(tab: Table, vals: map<nat, Value>, data: map<nat, Value>)
  {
    && (forall key :: key in data <==> Present(tab, key))
    && (forall n :: Has(tab, n) ==> n.id in vals && n.key in data && data[n.key] == vals[n.id])
  }

  ghost predicate CallsOk(ths: seq<Thread>, calls: seq<Call>)
  {
    |calls| == |ths| && forall t :: 0 <= t < |ths| ==> calls[t] == CallOf(ths[t])
  }

  ghost predicate Represents(s: State, sp: Spec)
  {
    Means(s.tab, s.vals, sp.data) && CallsOk(s.threads, sp.calls)
  }

  // ---------- the label and the abstract effect of an action ----------

  ghost function LabelOf(s: State, a: Action): Label
    requires ValsOk(s) && AccsLinked(s) && Enabled(s, a)
  {
    match a
    case Invoke(t, op) => Called(t, op)
    case Respond(t) => Returned(t, s.threads[t].result, HandedOver(s.tab, s.threads[t]))
    case Release(t, id) => assert id in s.vals; Released(t, KeyOf(s.tab, id))
    case Load(t, id) => assert id in s.vals; Loaded(t, KeyOf(s.tab, id), s.vals[id])
    case Assign(t, id, val) => assert id in s.vals; Stored(t, KeyOf(s.tab, id), val)
    case Clear => Wiped
    case Crash(_) => Restarted
    case _ => Silent
  }

  /** A thread about to take effect with a result that the atomic map agrees with. */
  lemma EffectStep(s: State, s': State, t: nat, sp: Spec, data: map<nat, Value>) returns (sp': Spec)
    requires Represents(s, sp) && t < |s.threads| && OneThread(s, s', t)
    requires CallOf(s.threads[t]).Pending? && CallOf(s'.threads[t]) == Done(s.threads[t].op, Perform(s.threads[t].op, sp.data).1)
    requires data == Perform(s.threads[t].op, sp.data).0 && Means(s'.tab, s'.vals, data)
    ensures SpecNext(sp, Silent, sp') && Represents(s', sp')
  {
    sp' := Spec(data, sp.calls[t := CallOf(s'.threads[t])]);
    assert TakesEffect(sp, sp', t);
  }

  /** A step that changes neither the stored map nor the progress of the call. */
  lemma StutterStep(s: State, s': State, t: nat, sp: Spec)
    requires Represents(s, sp) && t < |s.threads| && OneThread(s, s', t)
    requires CallOf(s'.threads[t]) == CallOf(s.threads[t])
    requires Means(s'.tab, s'.vals, sp.data)
    ensures SpecNext(sp, Silent, sp) && Represents(s', sp)
  {
  }

  /** Moving nodes between buckets does not change the map. */
  lemma SameMeaning(tab: Table, tab': Table, vals: map<nat, Value>, data: map<nat, Value>)
    requires Means(tab, vals, data) && forall n :: Has(tab', n) <==> Has(tab, n)
    ensures Means(tab', vals, data)
  {
    assert forall key :: Present(tab', key) <==> Present(tab, key);
  }

  // ---------- hits and misses ----------

  lemma HitPresent(tab: Table, b: nat, n: Node, vals: map<nat, Value>, data: map<nat, Value>)
    requires Means(tab, vals, data) && n in Chain(tab, b)
    ensures n.key in data
  {
    assert Has(tab, n);
  }

  /** A miss with the bucket locked and no mask race: the key is nowhere in the table. */
  lemma MissAbsent(tab: Table, b: nat, key: nat, vals: map<nat, Value>, data: map<nat, Value>)
    requires TableOk(tab) && Means(tab, vals, data) && b in tab.flags
    requires Absent(tab, b, key) && OnPath(b, tab.hash(key)) && ClearBelow(tab, b, tab.hash(key))
    ensures key !in data
  {
    if key in data {
      var n :| Has(tab, n) && n.key == key;
      var i: nat :| n in Chain(tab, i);
      KeyAtHome(tab, b, key, i, n);
    }
  }

  lemma LinkMeaning(tab: Table, tab': Table, node: Node, val: Value, vals: map<nat, Value>, data: map<nat, Value>)
    requires Means(tab, vals, data) && node.key !in data && node.id !in vals
    requires forall n :: Has(tab', n) <==> Has(tab, n) || n == node
    ensures Means(tab', vals[node.id := val], data[node.key := val])
  {
    forall key ensures Present(tab', key) <==> Present(tab, key) || key == node.key {
      if Present(tab, key) {
        var n :| Has(tab, n) && n.key == key;
        assert Has(tab', n);
      }
      assert Has(tab', node);
    }
  }

  ghost predicate Determines(tab: Table, m: Node)
  {
    forall n :: Has(tab, n) ==> (n == m <==> n.id == m.id) && (n == m <==> n.key == m.key)
  }

  lemma UnlinkMeaning(tab: Table, tab': Table, gone: Node, vals: map<nat, Value>, data: map<nat, Value>)
    requires Determines(tab, gone) && Means(tab, vals, data)
    requires forall n :: Has(tab', n) <==> Has(tab, n) && n != gone
    ensures Means(tab', vals - {gone.id}, data - {gone.key})
  {
    forall key ensures Present(tab', key) <==> Present(tab, key) && key != gone.key {
      if Present(tab, key) && key != gone.key {
        var n :| Has(tab, n) && n.key == key;
        assert Has(tab', n);
      }
    }
  }

  lemma NodesDetermined(tab: Table, m: Node)
    requires TableOk(tab) && Has(tab, m)
    ensures Determines(tab, m)
  {
    forall n | Has(tab, n) ensures (n == m <==> n.id == m.id) && (n == m <==> n.key == m.key) {
      OneNode(tab, n, m);
    }
  }

  lemma AssignMeaning(tab: Table, n: Node, val: Value, vals: map<nat, Value>, data: map<nat, Value>)
    requires Determines(tab, n) && Means(tab, vals, data) && Has(tab, n)
    ensures n.key in data && Means(tab, vals[n.id := val], data[n.key := val])
  {
  }

  // ---------- every step ----------

  lemma AcquireSim(s: State, t: nat, sp: Spec)
    requires Base(s) && Represents(s, sp) && t < |s.threads| && RunEnabled(s, t) && Acquiring(s.threads[t].pc)
    ensures SpecNext(sp, Silent, sp) && Represents(RunAcquire(s, t), sp)
  {
    AcquireCall(s, t);
    AcquireMeaning(s, t, sp.data);
    StutterStep(s, RunAcquire(s, t), t, sp);
  }

  lemma AcquireCall(s: State, t: nat)
    requires t < |s.threads| && RunEnabled(s, t) && Acquiring(s.threads[t].pc)
    ensures var s' := RunAcquire(s, t);
      OneThread(s, s', t) && s'.vals == s.vals && CallOf(s'.threads[t]) == CallOf(s.threads[t])
  {
    AcquireFrameOk(s, t);
    NotCommitted(s.threads[t], RunAcquire(s, t).threads[t]);
  }

  lemma NotCommitted(th: Thread, th': Thread)
    requires Acquiring(th.pc) && (Acquiring(th'.pc) || th'.pc.Search? || th'.pc.Visited?) && th'.op == th.op
    ensures CallOf(th') == CallOf(th)
  {
  }

  lemma AcquireMeaning(s: State, t: nat, data: map<nat, Value>)
    requires Base(s) && Means(s.tab, s.vals, data) && t < |s.threads| && RunEnabled(s, t) && Acquiring(s.threads[t].pc)
    ensures Means(RunAcquire(s, t).tab, s.vals, data)
  {
    var tab' := RunAcquire(s, t).tab;
    var th := s.threads[t];
    AcquireFrameOk(s, t);
    if th.pc.Split? {
      assert ThreadOk(s.tab, th);
      assert tab' == SplitTable(s.tab, th.pc.i);
      forall n ensures Has(tab', n) <==> Has(s.tab, n) {
        SplitHas(s.tab, th.pc.i, n);
      }
    } else {
      forall n ensures Has(tab', n) <==> Has(s.tab, n) {
        SameHas(s.tab, tab', n);
      }
    }
    SameMeaning(s.tab, tab', s.vals, data);
  }

  lemma OutsideSim(s: State, t: nat, sp: Spec)
    requires Represents(s, sp) && t < |s.threads| && RunEnabled(s, t)
    requires !Acquiring(s.threads[t].pc) && !HasBase(s.threads[t].pc) && !s.threads[t].pc.VisitDone?
    ensures SpecNext(sp, Silent, sp) && Represents(RunOutside(s, t), sp)
  {
    var s' := RunOutside(s, t);
    OutsideFrameOk(s, t);
    OutsideCall(s, t);
    forall n ensures Has(s'.tab, n) <==> Has(s.tab, n) {
      SameHas(s.tab, s'.tab, n);
    }
    SameMeaning(s.tab, s'.tab, s.vals, sp.data);
    StutterStep(s, s', t, sp);
  }

  lemma OutsideCall(s: State, t: nat)
    requires t < |s.threads| && RunEnabled(s, t)
    requires !Acquiring(s.threads[t].pc) && !HasBase(s.threads[t].pc) && !s.threads[t].pc.VisitDone?
    ensures t < |RunOutside(s, t).threads| && CallOf(RunOutside(s, t).threads[t]) == CallOf(s.threads[t])
  {
  }

  // ---------- the operations ----------

  /** Looking: a hit that needs no item and a miss without mask race take effect, the rest stutters. */
  lemma LookSim(s: State, t: nat, sp: Spec) returns (sp': Spec)
    requires Base(s) && Represents(s, sp) && t < |s.threads| && RunEnabled(s, t) && Looking(s.threads[t].pc)
    ensures SpecNext(sp, Silent, sp') && Represents(RunOperation(s, t), sp')
  {
    var s' := RunOperation(s, t);
    var th := s.threads[t];
    LookFrameOk(s, t);
    LookCall(s, t, sp.data);
    if CallOf(s'.threads[t]) == CallOf(th) {
      StutterStep(s, s', t, sp);
      sp' := sp;
    } else {
      sp' := EffectStep(s, s', t, sp, sp.data);
    }
  }

  /** The call of a thread is as before, or has just taken effect without changing the map. */
  ghost predicate Reads(th: Thread, th': Thread, data: map<nat, Value>)
  {
    CallOf(th') == CallOf(th) ||
    (CallOf(th).Pending? && Perform(th.op, data).0 == data && CallOf(th') == Done(th.op, Perform(th.op, data).1))
  }

  lemma LookCall(s: State, t: nat, data: map<nat, Value>)
    requires Base(s) && Means(s.tab, s.vals, data) && t < |s.threads| && RunEnabled(s, t) && Looking(s.threads[t].pc)
    ensures Reads(s.threads[t], RunOperation(s, t).threads[t], data)
  {
    var th := s.threads[t];
    if th.pc.Search? {
      SearchCall(s.tab, th, s.vals, data);
    } else if th.pc.LoadMaskAgain? {
      LoadMaskAgainCall(s.tab, th, s.vals, data);
    } else if th.pc.ReadNextFlag? {
      ReadNextFlagCall(s, t, data);
    } else {
      LeaveCall(s, t, data);
    }
  }

  lemma LeaveCall(s: State, t: nat, data: map<nat, Value>)
    requires t < |s.threads| && RunEnabled(s, t)
    requires var pc := s.threads[t].pc; pc.UnlockAgain? || pc.UnlockReload? || pc.UnlockDone? || pc.Visited?
    ensures Reads(s.threads[t], RunOperation(s, t).threads[t], data)
  {
    VisitCall(s.threads[t]);
  }

  lemma ReadNextFlagCall(s: State, t: nat, data: map<nat, Value>)
    requires Base(s) && Means(s.tab, s.vals, data) && t < |s.threads| && s.threads[t].pc.ReadNextFlag?
    ensures var th := s.threads[t];
      Reads(th, if th.pc.j in s.tab.flags then th.(pc := UnlockAgain) else Missed(th), data)
  {
    var th := s.threads[t];
    if th.pc.j !in s.tab.flags {
      NextNotFilled(s, t);
      NextDeadClear(s.tab, th.hash, th.base, th.pc.j);
      MissedCall(s.tab, th, s.vals, data);
    }
  }

  lemma VisitCall(th: Thread)
    ensures th.pc.Visited? ==> CallOf(NextVisit(th)) == CallOf(th)
  {
  }

  lemma SearchCall(tab: Table, th: Thread, vals: map<nat, Value>, data: map<nat, Value>)
    requires ThreadOk(tab, th) && Means(tab, vals, data) && th.pc.Search?
    ensures Reads(th, Searched(th, Lookup(Chain(tab, th.base), OpKey(th.op))), data)
  {
    var hit := Lookup(Chain(tab, th.base), OpKey(th.op));
    if hit.Some? {
      HitPresent(tab, th.base, Node(hit.value, OpKey(th.op)), vals, data);
    }
    SearchedCall(th, hit, data);
  }

  lemma SearchedCall(th: Thread, hit: Option<nat>, data: map<nat, Value>)
    requires OpOk(th) && RetryOk(th) && th.pc.Search? && (hit.Some? ==> OpKey(th.op) in data)
    ensures Reads(th, Searched(th, hit), data)
  {
  }

  lemma LoadMaskAgainCall(tab: Table, th: Thread, vals: map<nat, Value>, data: map<nat, Value>)
    requires TableOk(tab) && ThreadOk(tab, th) && Means(tab, vals, data) && th.pc.LoadMaskAgain?
    ensures Reads(th, Reloaded(th, tab.level), data)
  {
    if Masked(th.hash, th.level) == Masked(th.hash, tab.level) {
      UnracedClear(tab, th);
      MissedCall(tab, th, vals, data);
    }
  }

  lemma UnracedClear(tab: Table, th: Thread)
    requires TableOk(tab) && ThreadOk(tab, th) && th.pc.LoadMaskAgain?
    requires Masked(th.hash, th.level) == Masked(th.hash, tab.level)
    ensures OnPath(th.base, th.hash) && ClearBelow(tab, th.base, th.hash)
  {
    MaskedOnPath(th.hash, th.level);
    SameBucketClear(tab, th.hash, th.base);
  }

  lemma MissedCall(tab: Table, th: Thread, vals: map<nat, Value>, data: map<nat, Value>)
    requires TableOk(tab) && ThreadOk(tab, th) && Means(tab, vals, data)
    requires th.pc.LoadMaskAgain? || th.pc.ReadNextFlag?
    requires OnPath(th.base, th.hash) && ClearBelow(tab, th.base, th.hash)
    ensures Reads(th, Missed(th), data)
  {
    MissFacts(tab, th);
    MissAbsent(tab, th.base, OpKey(th.op), vals, data);
    MissedReads(th, data);
  }

  lemma MissFacts(tab: Table, th: Thread)
    requires TableOk(tab) && ThreadOk(tab, th) && (th.pc.LoadMaskAgain? || th.pc.ReadNextFlag?)
    ensures OpOk(th) && th.base in tab.flags && Absent(tab, th.base, OpKey(th.op)) && th.hash == tab.hash(OpKey(th.op))
  {
  }

  lemma MissedReads(th: Thread, data: map<nat, Value>)
    requires OpOk(th) && (th.pc.LoadMaskAgain? || th.pc.ReadNextFlag?)
    requires OpKey(th.op) !in data
    ensures Reads(th, Missed(th), data)
  {
    assert data - {OpKey(th.op)} == data;
  }

  lemma TryItemSim(s: State, t: nat, sp: Spec) returns (sp': Spec)
    requires Represents(s, sp) && t < |s.threads| && RunEnabled(s, t) && s.threads[t].pc.TryItem?
    requires ThreadOk(s.tab, s.threads[t])
    ensures SpecNext(sp, Silent, sp') && Represents(RunOperation(s, t), sp')
  {
    var th := s.threads[t];
    var s' := Put(s, t, TookItem(th));
    TryItemReads(s.tab, th, s.vals, sp.data);
    sp' := ReadStep(s, s', t, sp);
    assert RunOperation(s, t) == s';
  }

  lemma ReadStep(s: State, s': State, t: nat, sp: Spec) returns (sp': Spec)
    requires Represents(s, sp) && t < |s.threads| && OneThread(s, s', t)
    requires Reads(s.threads[t], s'.threads[t], sp.data)
    requires Means(s'.tab, s'.vals, sp.data)
    ensures SpecNext(sp, Silent, sp') && Represents(s', sp')
  {
    if CallOf(s'.threads[t]) == CallOf(s.threads[t]) {
      StutterStep(s, s', t, sp);
      sp' := sp;
    } else {
      sp' := EffectStep(s, s', t, sp, sp.data);
    }
  }

  lemma TryItemReads(tab: Table, th: Thread, vals: map<nat, Value>, data: map<nat, Value>)
    requires ThreadOk(tab, th) && Means(tab, vals, data) && th.pc.TryItem?
    ensures Reads(th, TookItem(th), data)
  {
    TargetLinked(tab, th);
    HitPresent(tab, th.base, Node(th.found, OpKey(th.op)), vals, data);
    TookItemCall(th, data);
  }

  lemma TookItemCall(th: Thread, data: map<nat, Value>)
    requires th.pc.TryItem? && OpOk(th) && OpKey(th.op) in data
    ensures Reads(th, TookItem(th), data)
  {
  }

  lemma BumpSizeSim(s: State, t: nat, sp: Spec)
    requires Base(s) && Represents(s, sp) && t < |s.threads| && RunEnabled(s, t) && s.threads[t].pc.BumpSize?
    ensures SpecNext(sp, Silent, sp) && Represents(RunOperation(s, t), sp)
  {
    assert Shape(s.threads[t]);
    StutterStep(s, RunOperation(s, t), t, sp);
  }

  lemma DropItemSim(s: State, t: nat, sp: Spec)
    requires Represents(s, sp) && t < |s.threads| && RunEnabled(s, t) && s.threads[t].pc.DropItem?
    ensures SpecNext(sp, Silent, sp) && Represents(RunOperation(s, t), sp)
  {
    StutterStep(s, RunOperation(s, t), t, sp);
  }

  /** The erase transaction is where erase takes effect. */
  lemma EraseSim(s: State, t: nat, sp: Spec) returns (sp': Spec)
    requires Base(s) && Represents(s, sp) && t < |s.threads| && RunEnabled(s, t) && s.threads[t].pc.EraseTx?
    ensures SpecNext(sp, Silent, sp') && Represents(RunOperation(s, t), sp')
  {
    var th := s.threads[t];
    var s' := Erased(s, t, th.(pc := BumpSize, result := true));
    EraseTxErases(th);
    EraseMeaning(s.tab, th, s.vals, sp.data);
    sp' := ErasedSim(s, t, sp);
    assert RunOperation(s, t) == s';
  }

  lemma ErasedSim(s: State, t: nat, sp: Spec) returns (sp': Spec)
    requires Represents(s, sp) && t < |s.threads| && t < |s.diffs|
    requires s.threads[t].pc.EraseTx? && s.threads[t].op.Erase? && s.threads[t].op.key in sp.data
    requires var s' := Erased(s, t, s.threads[t].(pc := BumpSize, result := true));
             Means(s'.tab, s'.vals, sp.data - {s.threads[t].op.key})
    ensures SpecNext(sp, Silent, sp')
    ensures Represents(Erased(s, t, s.threads[t].(pc := BumpSize, result := true)), sp')
  {
    var th := s.threads[t];
    sp' := EffectStep(s, Erased(s, t, th.(pc := BumpSize, result := true)), t, sp, sp.data - {th.op.key});
  }

  lemma EraseMeaning(tab: Table, th: Thread, vals: map<nat, Value>, data: map<nat, Value>)
    requires TableOk(tab) && ThreadOk(tab, th) && Means(tab, vals, data) && th.pc.EraseTx? && th.op.Erase?
    ensures th.op.key in data
    ensures Means(PutChain(tab, th.base, Without(Chain(tab, th.base), th.found)), vals - {th.found}, data - {th.op.key})
  {
    var gone := Node(th.found, th.op.key);
    TargetLinked(tab, th);
    HitPresent(tab, th.base, gone, vals, data);
    NodesDetermined(tab, gone);
    var tab' := PutChain(tab, th.base, Without(Chain(tab, th.base), th.found));
    forall n ensures Has(tab', n) <==> Has(tab, n) && n != gone {
      UnlinkHas(tab, th.base, gone, n);
    }
    UnlinkMeaning(tab, tab', gone, vals, data);
  }

  /** The insert transaction is where a successful insert takes effect. */
  lemma AllocSim(s: State, t: nat, id: nat, sp: Spec) returns (sp': Spec)
    requires Inv(s) && Represents(s, sp) && Enabled(s, Alloc(t, id))
    ensures SpecNext(sp, Silent, sp') && Represents(Apply(s, Alloc(t, id)), sp')
  {
    var th := s.threads[t];
    AllocItems(s, t, id);
    InsertMeaning(s.tab, th, id, s.vals, sp.data);
    sp' := AllocatedSim(s, t, id, sp);
  }

  lemma AllocatedSim(s: State, t: nat, id: nat, sp: Spec) returns (sp': Spec)
    requires Represents(s, sp) && Enabled(s, Alloc(t, id)) && s.threads[t].op.key !in sp.data
    requires CallOf(s.threads[t]) == Pending(s.threads[t].op)
    requires var s' := Apply(s, Alloc(t, id));
             Means(s'.tab, s'.vals, sp.data[s.threads[t].op.key := s.threads[t].op.val])
    ensures SpecNext(sp, Silent, sp') && Represents(Apply(s, Alloc(t, id)), sp')
  {
    var th := s.threads[t];
    sp' := EffectStep(s, Apply(s, Alloc(t, id)), t, sp, sp.data[th.op.key := th.op.val]);
  }

  lemma InsertMeaning(tab: Table, th: Thread, id: nat, vals: map<nat, Value>, data: map<nat, Value>)
    requires TableOk(tab) && ThreadOk(tab, th) && Means(tab, vals, data) && th.pc.InsertTx? && id !in vals
    ensures th.op.Insert? && th.op.key !in data && CallOf(th) == Pending(th.op)
    ensures var tab' := PutChain(tab, th.base, [Node(id, th.op.key)] + Chain(tab, th.base));
            Means(tab', vals[id := th.op.val], data[th.op.key := th.op.val])
  {
    var node := Node(id, th.op.key);
    MissAbsent(tab, th.base, th.op.key, vals, data);
    var tab' := PutChain(tab, th.base, [node] + Chain(tab, th.base));
    forall n ensures Has(tab', n) <==> Has(tab, n) || n == node {
      LinkHas(tab, th.base, node, n);
    }
    LinkMeaning(tab, tab', node, th.op.val, vals, data);
  }

  lemma VisitDoneSim(s: State, t: nat, sp: Spec) returns (sp': Spec)
    requires Base(s) && Represents(s, sp) && t < |s.threads| && RunEnabled(s, t) && s.threads[t].pc.VisitDone?
    ensures SpecNext(sp, Silent, sp') && Represents(RunOutside(s, t), sp')
  {
    assert Shape(s.threads[t]);
    sp' := EffectStep(s, RunOutside(s, t), t, sp, sp.data);
  }

  lemma OperationSim(s: State, t: nat, sp: Spec) returns (sp': Spec)
    requires Base(s) && Represents(s, sp) && t < |s.threads| && RunEnabled(s, t) && HasBase(s.threads[t].pc)
    ensures SpecNext(sp, Silent, sp') && Represents(RunOperation(s, t), sp')
  {
    sp' := sp;
    var pc := s.threads[t].pc;
    if pc.TryItem? {
      assert ThreadOk(s.tab, s.threads[t]);
      sp' := TryItemSim(s, t, sp);
    } else if pc.DropItem? {
      DropItemSim(s, t, sp);
    } else if pc.BumpSize? {
      BumpSizeSim(s, t, sp);
    } else if pc.EraseTx? {
      sp' := EraseSim(s, t, sp);
    } else {
      sp' := LookSim(s, t, sp);
    }
  }

  lemma RunSim(s: State, t: nat, sp: Spec) returns (sp': Spec)
    requires Base(s) && Represents(s, sp) && t < |s.threads| && RunEnabled(s, t)
    ensures SpecNext(sp, Silent, sp') && Represents(RunThread(s, t), sp')
  {
    sp' := sp;
    if Acquiring(s.threads[t].pc) {
      AcquireSim(s, t, sp);
    } else if HasBase(s.threads[t].pc) {
      sp' := OperationSim(s, t, sp);
    } else if s.threads[t].pc.VisitDone? {
      sp' := VisitDoneSim(s, t, sp);
    } else {
      OutsideSim(s, t, sp);
    }
  }

  // ---------- the other actions ----------

  lemma InvokeSim(s: State, t: nat, op: Op, sp: Spec) returns (sp': Spec)
    requires Represents(s, sp) && Enabled(s, Invoke(t, op))
    ensures SpecNext(sp, Called(t, op), sp') && Represents(Apply(s, Invoke(t, op)), sp')
  {
    sp' := sp.(calls := sp.calls[t := Pending(op)]);
  }

  lemma RespondSim(s: State, t: nat, sp: Spec) returns (sp': Spec)
    requires TableOk(s.tab) && Represents(s, sp) && Delivered(s) && Enabled(s, Respond(t))
    ensures SpecNext(sp, Returned(t, s.threads[t].result, HandedOver(s.tab, s.threads[t])), sp')
    ensures Represents(Apply(s, Respond(t)), sp')
  {
    assert DeliveredOk(s.tab, s.threads[t]);
    HandedIsGiven(s.tab, s.threads[t]);
    sp' := sp.(calls := sp.calls[t := Resting]);
  }

  /** What a caller reads through an accessor is the value of the key in the atomic map. */
  lemma LoadSim(s: State, t: nat, id: nat, sp: Spec)
    requires AccsLinked(s) && ValsOk(s) && Represents(s, sp) && Enabled(s, Load(t, id))
    ensures id in s.vals && Linked(s.tab, id)
    ensures SpecNext(sp, Loaded(t, KeyOf(s.tab, id), s.vals[id]), sp)
  {
    assert id in s.vals;
    LinkedHas(s.tab, id);
  }

  lemma GiveUpSim(s: State, t: nat, sp: Spec)
    requires PrivateOk(s) && Represents(s, sp) && Enabled(s, GiveUp(t))
    ensures SpecNext(sp, Silent, sp) && Represents(Apply(s, GiveUp(t)), sp)
  {
    GiveUpNotInserted(s, t);
    StutterStep(s, Apply(s, GiveUp(t)), t, sp);
  }

  lemma DropSim(s: State, t: nat, sp: Spec)
    requires Represents(s, sp) && Enabled(s, Drop(t))
    ensures SpecNext(sp, Silent, sp) && Represents(Apply(s, Drop(t)), sp)
  {
    VisitCall(Unlocked(s.threads[t]));
    StutterStep(s, Apply(s, Drop(t)), t, sp);
  }

  lemma ReleaseSim(s: State, t: nat, id: nat, sp: Spec)
    requires AccsLinked(s) && ValsOk(s) && Represents(s, sp) && Enabled(s, Release(t, id))
    ensures Linked(s.tab, id) && SpecNext(sp, Released(t, KeyOf(s.tab, id)), sp)
    ensures Represents(Apply(s, Release(t, id)), sp)
  {
    assert id in s.vals;
    LinkedInData(s.tab, id, s.vals, sp.data);
    ReleaseStutter(s, t, id, sp);
  }

  lemma LinkedInData(tab: Table, id: nat, vals: map<nat, Value>, data: map<nat, Value>)
    requires Linked(tab, id) && Means(tab, vals, data)
    ensures KeyOf(tab, id) in data
  {
    LinkedHas(tab, id);
  }

  lemma ReleaseStutter(s: State, t: nat, id: nat, sp: Spec)
    requires Represents(s, sp) && Enabled(s, Release(t, id))
    ensures Represents(Apply(s, Release(t, id)), sp)
  {
    StutterStep(s, Apply(s, Release(t, id)), t, sp);
  }

  lemma AssignSim(s: State, t: nat, id: nat, val: Value, sp: Spec) returns (sp': Spec)
    requires TableOk(s.tab) && ItemsOk(s) && Represents(s, sp) && Enabled(s, Assign(t, id, val))
    ensures Linked(s.tab, id) && SpecNext(sp, Stored(t, KeyOf(s.tab, id), val), sp')
    ensures Represents(Apply(s, Assign(t, id, val)), sp')
  {
    assert id in s.vals;
    var key := KeyOf(s.tab, id);
    AssignNode(s.tab, id, val, s.vals, sp.data);
    sp' := sp.(data := sp.data[key := val]);
  }

  lemma AssignNode(tab: Table, id: nat, val: Value, vals: map<nat, Value>, data: map<nat, Value>)
    requires TableOk(tab) && Linked(tab, id) && Means(tab, vals, data)
    ensures KeyOf(tab, id) in data && Means(tab, vals[id := val], data[KeyOf(tab, id) := val])
  {
    var n := Node(id, KeyOf(tab, id));
    LinkedHas(tab, id);
    NodesDetermined(tab, n);
    AssignMeaning(tab, n, val, vals, data);
  }

  lemma ClearSim(s: State, sp: Spec) returns (sp': Spec)
    requires Represents(s, sp) && Enabled(s, Clear)
    ensures SpecNext(sp, Wiped, sp') && Represents(Apply(s, Clear), sp')
  {
    sp' := sp.(data := map[]);
    assert forall j: nat :: Chain(Apply(s, Clear).tab, j) == [];
  }

  /** A crash at any step: recovery yields exactly the committed contents. */
  lemma CrashSim(s: State, flags: set<nat>, sp: Spec) returns (sp': Spec)
    requires Represents(s, sp) && Enabled(s, Crash(flags))
    ensures SpecNext(sp, Restarted, sp') && Represents(Apply(s, Crash(flags)), sp')
    ensures sp'.data == sp.data
  {
    var s' := Apply(s, Crash(flags));
    sp' := Spec(sp.data, seq(|sp.calls|, _ => Resting));
    forall n ensures Has(s'.tab, n) <==> Has(s.tab, n) {
      SameHas(s.tab, s'.tab, n);
    }
    SameMeaning(s.tab, s'.tab, s.vals, sp.data);
  }

  lemma ActionSim(s: State, a: Action, sp: Spec) returns (sp': Spec)
    requires Inv(s) && Delivered(s) && Represents(s, sp) && Enabled(s, a)
    ensures SpecNext(sp, LabelOf(s, a), sp') && Represents(Apply(s, a), sp')
  {
    match a
    case Invoke(t, op) => sp' := InvokeSim(s, t, op, sp);
    case Run(t) => sp' := RunSim(s, t, sp);
    case Alloc(t, id) => sp' := AllocSim(s, t, id, sp);
    case GiveUp(t) => GiveUpSim(s, t, sp); sp' := sp;
    case Drop(t) => DropSim(s, t, sp); sp' := sp;
    case Respond(t) => sp' := RespondSim(s, t, sp);
    case Release(t, id) => ReleaseSim(s, t, id, sp); sp' := sp;
    case Load(t, id) => LoadSim(s, t, id, sp); sp' := sp;
    case Assign(t, id, val) => sp' := AssignSim(s, t, id, val, sp);
    case Clear => sp' := ClearSim(s, sp);
    case Crash(flags) => sp' := CrashSim(s, flags, sp);
  }
}
