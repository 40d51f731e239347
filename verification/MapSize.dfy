/** The number of linked nodes, as the pool and as my_size know it. */
module MapSize {
  import opened MapState
  import opened MapInvariant
  import opened MapFrame
  import opened MapItems

  lemma {:induction false} SumPut(xs: seq<int>, t: nat, v: int)
    requires t < |xs|
    ensures Sum(xs[t := v]) == Sum(xs) - xs[t] + v
  {
    var ys := xs[t := v];
    if t == 0 {
      assert ys[1..] == xs[1..];
    } else {
      SumPut(xs[1..], t - 1, v);
      assert ys[1..] == xs[1..][t - 1 := v];
    }
  }

  lemma {:induction false} SumZero(xs: seq<int>)
    requires forall u :: 0 <= u < |xs| ==> xs[u] == 0
    ensures Sum(xs) == 0
  {
    if xs != [] {
      SumZero(xs[1..]);
    }
  }

  lemma WordAdd(x: int, y: int)
    ensures Word(Word(x) + y) == Word(x + y)
  {
  }

  lemma WordShift(x: int, y: int, d: int)
    requires Word(x) == Word(y)
    ensures Word(x + d) == Word(y + d)
  {
    WordAdd(x, d);
    WordAdd(y, d);
  }

  lemma LagsPut(ths: seq<Thread>, t: nat, th: Thread)
    requires t < |ths|
    ensures Sum(Lags(ths[t := th])) == Sum(Lags(ths)) - Lag(ths[t]) + Lag(th)
  {
    assert Lags(ths[t := th]) == Lags(ths)[t := Lag(th)];
    SumPut(Lags(ths), t, Lag(th));
  }

  /**
    A step of thread t that links d more nodes, changes its size_diff by d and my_size by
    whatever its lag decreases.
   */
  lemma SizeStep(s: State, s': State, t: nat, th: Thread, d: int)
    requires SizeOk(s) && t < |s.threads| && s'.threads == s.threads[t := th]
    requires s'.onInit == s.onInit && s'.diffs == s.diffs[t := s.diffs[t] + d]
    requires |s'.vals| == |s.vals| + d
    requires Word(s'.size) == Word(s.size + d + Lag(s.threads[t]) - Lag(th))
    ensures SizeOk(s')
  {
    SumPut(s.diffs, t, s.diffs[t] + d);
    LagsPut(s.threads, t, th);
    WordShift(s.onInit + Sum(s.diffs), |s.vals|, d);
    WordShift(s.size + Sum(Lags(s.threads)), |s.vals|, d);
    WordShift(s'.size, s.size + d + Lag(s.threads[t]) - Lag(th), Sum(Lags(s'.threads)));
  }

  lemma QuietSize(s: State, s': State, t: nat)
    requires SizeOk(s) && t < |s.threads| && OneThread(s, s', t)
    requires s'.onInit == s.onInit && s'.diffs == s.diffs && s'.size == s.size && s'.vals.Keys == s.vals.Keys
    requires Lag(s'.threads[t]) == Lag(s.threads[t])
    ensures SizeOk(s')
  {
    assert |s'.vals| == |s'.vals.Keys| == |s.vals.Keys| == |s.vals|;
    assert s'.threads == s.threads[t := s'.threads[t]];
    assert s.diffs == s.diffs[t := s.diffs[t] + 0];
    SizeStep(s, s', t, s'.threads[t], 0);
  }

  lemma ErasedSize(s: State, t: nat)
    requires SizeOk(s) && t < |s.threads| && s.threads[t].pc.EraseTx? && s.threads[t].op.Erase?
    requires s.threads[t].found in s.vals
    ensures SizeOk(Erased(s, t, s.threads[t].(pc := BumpSize, result := true)))
  {
    var th := s.threads[t];
    var th' := th.(pc := BumpSize, result := true);
    assert |(s.vals - {th.found}).Keys| == |s.vals.Keys - {th.found}| == |s.vals.Keys| - 1;
    SizeStep(s, Erased(s, t, th'), t, th', -1);
  }

  lemma EraseSize(s: State, t: nat)
    requires ItemsOk(s) && SizeOk(s) && t < |s.threads| && RunEnabled(s, t) && s.threads[t].pc.EraseTx?
    requires ThreadOk(s.tab, s.threads[t])
    ensures SizeOk(RunOperation(s, t))
  {
    var th := s.threads[t];
    FoundLinked(s.tab, th);
    EraseTxErases(th);
    ErasedSize(s, t);
    assert RunOperation(s, t) == Erased(s, t, th.(pc := BumpSize, result := true));
  }

  lemma AllocSize(s: State, t: nat, id: nat)
    requires ItemsOk(s) && SizeOk(s) && Enabled(s, Alloc(t, id))
    ensures SizeOk(Apply(s, Alloc(t, id)))
  {
    AllocItems(s, t, id);
    AllocCount(s, t, id);
  }

  lemma AllocCount(s: State, t: nat, id: nat)
    requires SizeOk(s) && Enabled(s, Alloc(t, id)) && id !in s.vals
    ensures SizeOk(Apply(s, Alloc(t, id)))
  {
    var s' := Apply(s, Alloc(t, id));
    NewKey(s.vals, id, s.threads[t].op.val);
    SizeStep(s, s', t, s'.threads[t], 1);
  }

  lemma NewKey(vals: map<nat, Value>, id: nat, val: Value)
    requires id !in vals
    ensures |vals[id := val]| == |vals| + 1
  {
    assert |vals[id := val].Keys| == |vals.Keys + {id}| == |vals.Keys| + 1;
  }

  lemma BumpSizeSize(s: State, t: nat)
    requires SizeOk(s) && t < |s.threads| && RunEnabled(s, t) && s.threads[t].pc.BumpSize?
    ensures SizeOk(RunOperation(s, t))
  {
    var s' := RunOperation(s, t);
    assert s.diffs == s.diffs[t := s.diffs[t] + 0];
    WordAdd(s.size + Lag(s.threads[t]), 0);
    SizeStep(s, s', t, s'.threads[t], 0);
  }

  lemma QuietOperationSize(s: State, t: nat)
    requires SizeOk(s) && t < |s.threads| && RunEnabled(s, t)
    requires var pc := s.threads[t].pc; Looking(pc) || pc.TryItem? || pc.DropItem?
    ensures SizeOk(RunOperation(s, t))
  {
    if Looking(s.threads[t].pc) {
      LookFrameOk(s, t);
    }
    QuietSize(s, RunOperation(s, t), t);
  }

  lemma OperationSize(s: State, t: nat)
    requires ItemsOk(s) && SizeOk(s) && t < |s.threads| && RunEnabled(s, t) && HasBase(s.threads[t].pc)
    requires ThreadOk(s.tab, s.threads[t])
    ensures SizeOk(RunOperation(s, t))
  {
    var pc := s.threads[t].pc;
    if pc.EraseTx? {
      EraseSize(s, t);
    } else if pc.BumpSize? {
      BumpSizeSize(s, t);
    } else {
      QuietOperationSize(s, t);
    }
  }

  lemma RunSize(s: State, t: nat)
    requires ItemsOk(s) && SizeOk(s) && t < |s.threads| && RunEnabled(s, t) && ThreadOk(s.tab, s.threads[t])
    ensures SizeOk(RunThread(s, t))
  {
    if HasBase(s.threads[t].pc) {
      OperationSize(s, t);
    } else {
      FrameSize(s, t);
    }
  }

  lemma FrameSize(s: State, t: nat)
    requires SizeOk(s) && t < |s.threads| && RunEnabled(s, t) && !HasBase(s.threads[t].pc)
    ensures SizeOk(RunThread(s, t))
  {
    if Acquiring(s.threads[t].pc) {
      AcquireFrameOk(s, t);
      QuietSize(s, RunAcquire(s, t), t);
    } else {
      OutsideFrameOk(s, t);
      QuietSize(s, RunOutside(s, t), t);
    }
  }

  /** Restart: the differences of the last run go into on_init_size, my_size is set from it. */
  lemma CrashSize(s: State, flags: set<nat>)
    requires SizeOk(s) && Enabled(s, Crash(flags))
    ensures SizeOk(Apply(s, Crash(flags)))
  {
    var s' := Apply(s, Crash(flags));
    SumZero(s'.diffs);
    SumZero(Lags(s'.threads));
    WordAdd(s.onInit + Sum(s.diffs), 0);
  }

  lemma IdleLags(ths: seq<Thread>)
    requires forall u :: 0 <= u < |ths| ==> ths[u].pc.Idle?
    ensures Sum(Lags(ths)) == 0
  {
    SumZero(Lags(ths));
  }
}
