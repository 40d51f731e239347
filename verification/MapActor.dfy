/** Each step of a thread leaves the table and that thread consistent. */
module MapActor {
  import opened HashPath
  import opened ChainSplit
  import opened MapState
  import opened MapInvariant
  import opened MapTable

  /** The locks a thread has when acquire(i) returns: i itself, the waiting buckets, what a visit kept. */
  ghost predicate Acquired(tab: Table, th: Thread, held: map<nat, bool>)
    requires Acquiring(th.pc)
  {
    && th.pc.i in tab.durable && th.pc.i in held && (held[th.pc.i] || (th.stack == [] && th.op.Find?))
    && (forall k :: k in th.stack ==> k in held && held[k])
    && (forall k :: k in held && k != th.pc.i && k !in th.stack ==>
          th.op.Visit? && held[k] && th.base < k && k in tab.durable)
  }

  lemma ResumeOk(tab: Table, th: Thread, held: map<nat, bool>)
    requires ThreadOk(tab, th) && Acquiring(th.pc) && Acquired(tab, th, held)
    ensures ThreadOk(tab, Resume(th.(held := held)))
  {
    if th.stack == [] {
      ResumeOperationOk(tab, th, held);
    } else {
      ResumeSplitOk(tab, th, held);
    }
  }

  lemma ResumeOperationOk(tab: Table, th: Thread, held: map<nat, bool>)
    requires ThreadOk(tab, th) && Acquiring(th.pc) && Acquired(tab, th, held) && th.stack == []
    ensures ThreadOk(tab, Resume(th.(held := held)))
  {
    var th' := Resume(th.(held := held));
    assert Shape(th');
    assert BaseFact(tab, th');
  }

  lemma ResumeSplitOk(tab: Table, th: Thread, held: map<nat, bool>)
    requires ThreadOk(tab, th) && Acquiring(th.pc) && Acquired(tab, th, held) && th.stack != []
    ensures ThreadOk(tab, Resume(th.(held := held)))
  {
    var th0 := th.(held := held);
    var th' := Resume(th0);
    var c := th.stack[|th.stack| - 1];
    assert Dead(tab, c) && c >= 2;
    assert StackOk(th0);
    PopStack(th0);
    SplitHeld(th', c);
    SplitBase(tab, th, th', c);
    assert Shape(th');
    assert StackFact(tab, th');
    assert PcFact(tab, th');
  }

  lemma SplitHeld(th: Thread, c: nat)
    requires th.pc == Split(c) && c >= 2
    requires forall k :: k in th.stack || k == c || k == Parent(c) ==> k in th.held && th.held[k]
    requires forall k :: k in th.held && k !in th.stack && k != c && k != Parent(c) ==>
               th.op.Visit? && th.held[k] && th.base < k
    ensures HeldOk(th)
  {
    assert forall k :: Owns(th, k) <==> k in th.stack || k == c || k == Parent(c);
  }

  lemma SplitBase(tab: Table, th: Thread, th': Thread, c: nat)
    requires BaseFact(tab, th) && Acquiring(th.pc)
    requires th'.pc == Split(c) && c >= 2
    requires th' == th.(pc := th'.pc, stack := th'.stack, held := th'.held)
    requires forall k :: k in th'.held && k !in th'.stack && k != c && k != Parent(c) ==> k in tab.durable
    ensures BaseFact(tab, th')
  {
    assert forall k :: Owns(th', k) <==> k in th'.stack || k == c || k == Parent(c);
  }

  lemma PopStack(th: Thread)
    requires Acquiring(th.pc) && StackOk(th) && th.stack != []
    ensures StackOk(Resume(th))
    ensures forall k :: k in th.stack <==> k in Resume(th).stack || k == th.stack[|th.stack| - 1]
  {
    var th' := Resume(th);
    var c := th.stack[|th.stack| - 1];
    assert th.stack == th'.stack + [c];
    assert c <= th.base by {
      assert |th.stack| > 1 ==> th.stack[0] > c;
    }
  }

  lemma EnterOk(tab: Table, th: Thread, b: nat)
    requires TableOk(tab) && b < Pow2(tab.level)
    requires forall k :: k in th.held ==> th.op.Visit? && th.held[k] && b < k && k in tab.durable
    requires tab.recovered <= th.level <= tab.level && (th.op.Insert? ==> !th.inserted)
    requires !th.op.Visit? ==> th.hash == tab.hash(th.op.key) && b == Masked(th.hash, th.level)
    ensures ThreadOk(tab, Enter(th, b))
  {
  }

  lemma LoadMaskOk(tab: Table, th: Thread)
    requires TableOk(tab) && ThreadOk(tab, th) && th.pc.LoadMask?
    ensures ThreadOk(tab, Enter(th.(level := tab.level), Masked(th.hash, tab.level)))
  {
    MaskedIsRemainder(th.hash, tab.level);
    EnterOk(tab, th.(level := tab.level), Masked(th.hash, tab.level));
  }

  lemma SameShape(th: Thread, pc: Pc)
    requires Shape(th) && Acquiring(th.pc) && Acquiring(pc) && pc.i == th.pc.i
    requires forall k :: Owns(th, k) <==> Owns(th.(pc := pc), k)
    requires OpOk(th.(pc := pc))
    ensures Shape(th.(pc := pc))
  {
  }

  lemma BaseShift(tab: Table, tab': Table, th: Thread, pc: Pc)
    requires BaseFact(tab, th) && Acquiring(th.pc) && Acquiring(pc)
    requires tab' == tab.(flags := tab'.flags, durable := tab'.durable, chains := tab'.chains)
    requires tab.durable <= tab'.durable
    requires forall k :: Owns(th, k) <==> Owns(th.(pc := pc), k)
    ensures BaseFact(tab', th.(pc := pc))
  {
  }

  /** Steps of an acquire that change no lock and no waiting bucket. */
  lemma ShiftOk(tab: Table, th: Thread, pc: Pc)
    requires ThreadOk(tab, th) && Acquiring(th.pc) && Acquiring(pc) && pc.i == th.pc.i
    requires forall k :: Owns(th, k) <==> Owns(th.(pc := pc), k)
    requires OpOk(th.(pc := pc)) && PcFact(tab, th.(pc := pc))
    ensures ThreadOk(tab, th.(pc := pc))
  {
    SameShape(th, pc);
    BaseShift(tab, tab, th, pc);
  }

  lemma ReadFlagOk(tab: Table, th: Thread)
    requires ThreadOk(tab, th) && th.pc.ReadFlag?
    ensures ThreadOk(tab, th.(pc := Block(th.pc.i))) && ThreadOk(tab, th.(pc := TryLock(th.pc.i)))
  {
    ShiftOk(tab, th, Block(th.pc.i));
    ShiftOk(tab, th, TryLock(th.pc.i));
  }

  lemma TryLockOk(tab: Table, th: Thread)
    requires ThreadOk(tab, th) && th.pc.TryLock?
    requires th.pc.i in tab.flags ==> th.pc.i in tab.durable
    ensures ThreadOk(tab, th.(pc := Recheck(th.pc.i), held := th.held[th.pc.i := true]))
  {
    var r := th.(pc := Recheck(th.pc.i), held := th.held[th.pc.i := true]);
    assert forall k :: Owns(r, k) <==> Owns(th, k) || k == th.pc.i;
    assert HeldOk(r);
    assert StackOk(r);
  }

  lemma TryLockFailOk(tab: Table, th: Thread)
    requires ThreadOk(tab, th) && th.pc.TryLock?
    ensures ThreadOk(tab, th.(pc := Block(th.pc.i)))
  {
    ShiftOk(tab, th, Block(th.pc.i));
  }

  lemma RecheckOk(tab: Table, th: Thread)
    requires TableOk(tab) && ThreadOk(tab, th) && th.pc.Recheck? && th.pc.i in tab.flags
    ensures ThreadOk(tab, Resume(th))
  {
    assert Owns(th, th.pc.i);
    assert forall k :: k in th.stack ==> Owns(th, k);
    assert th.(held := th.held) == th;
    ResumeOk(tab, th, th.held);
  }

  lemma RecheckUnflaggedOk(tab: Table, th: Thread)
    requires TableOk(tab) && ThreadOk(tab, th) && th.pc.Recheck? && th.pc.i !in tab.flags
    ensures ThreadOk(tab, th.(pc := CheckChain(th.pc.i)))
  {
    ShiftOk(tab, th, CheckChain(th.pc.i));
  }

  lemma BlockOk(tab: Table, th: Thread)
    requires ThreadOk(tab, th) && th.pc.Block? && th.pc.i in tab.durable
    ensures ThreadOk(tab, Resume(th.(held := th.held[th.pc.i := WantsWrite(th)])))
  {
    assert forall k :: k in th.stack ==> Owns(th, k);
    ResumeOk(tab, th, th.held[th.pc.i := WantsWrite(th)]);
  }

  lemma CheckChainFilledOk(tab: Table, th: Thread)
    requires TableOk(tab) && ThreadOk(tab, th) && th.pc.CheckChain? && Chain(tab, th.pc.i) != []
    ensures ThreadOk(tab, th.(pc := SetFlag(th.pc.i, false)))
  {
    ShiftOk(tab, th, SetFlag(th.pc.i, false));
  }

  lemma CheckChainEmptyOk(tab: Table, th: Thread)
    requires TableOk(tab) && ThreadOk(tab, th) && th.pc.CheckChain? && Chain(tab, th.pc.i) == []
    ensures ThreadOk(tab, th.(pc := ReadFlag(Parent(th.pc.i)), stack := th.stack + [th.pc.i]))
  {
    var i := th.pc.i;
    var r := th.(pc := ReadFlag(Parent(i)), stack := th.stack + [i]);
    PushStack(th);
    assert forall k :: Owns(th, k) <==> Owns(r, k);
    assert Shape(r);
    assert BaseFact(tab, r);
    assert StackFact(tab, r);
  }

  lemma PushStack(th: Thread)
    requires StackOk(th) && th.pc.CheckChain? && th.pc.i >= 2
    ensures var r := th.(pc := ReadFlag(Parent(th.pc.i)), stack := th.stack + [th.pc.i]);
            StackOk(r) && forall k :: k in r.stack <==> k in th.stack || k == th.pc.i
  {
    StackAbove(th);
    PushSeq(th.stack, th.pc.i, th.base);
  }

  lemma PushSeq(st: seq<nat>, i: nat, base: nat)
    requires forall k :: 0 <= k < |st| ==> st[k] >= 2
    requires forall k, l :: 0 <= k < l < |st| ==> st[k] > st[l]
    requires forall k :: 0 <= k < |st| - 1 ==> st[k + 1] == Parent(st[k])
    requires i >= 2 && (forall k :: k in st ==> k > i)
    requires if st == [] then i == base else st[0] == base && i == Parent(st[|st| - 1])
    ensures var r := st + [i];
      && (forall k :: 0 <= k < |r| ==> r[k] >= 2)
      && (forall k, l :: 0 <= k < l < |r| ==> r[k] > r[l])
      && (forall k :: 0 <= k < |r| - 1 ==> r[k + 1] == Parent(r[k]))
      && r[0] == base && r[|r| - 1] == i
      && (forall k :: k in r <==> k in st || k == i)
  {
  }

  lemma SplitOk(tab: Table, th: Thread)
    requires TableOk(tab) && ThreadOk(tab, th) && th.pc.Split?
    ensures TableOk(SplitTable(tab, th.pc.i))
    ensures ThreadOk(SplitTable(tab, th.pc.i), th.(pc := SetFlag(th.pc.i, true)))
  {
    var tab' := SplitTable(tab, th.pc.i);
    var f := th.(pc := SetFlag(th.pc.i, true));
    SplitFree(tab, th);
    SplitKeepsTable(tab, th.pc.i);
    SameShape(th, f.pc);
    BaseShift(tab, tab', th, f.pc);
    SplitStack(tab, th);
    assert PcFact(tab', f);
  }

  lemma SplitFree(tab: Table, th: Thread)
    requires ThreadOk(tab, th) && th.pc.Split?
    ensures 2 <= th.pc.i < Pow2(tab.level) && Dead(tab, th.pc.i) && Parent(th.pc.i) in tab.durable
    ensures forall k :: Owns(th, k) <==> Owns(th.(pc := SetFlag(th.pc.i, true)), k)
  {
  }

  lemma SplitStack(tab: Table, th: Thread)
    requires TableOk(tab) && StackFact(tab, th) && StackOk(th) && th.pc.Split? && th.pc.i >= 2
    requires Dead(tab, th.pc.i) && Parent(th.pc.i) in tab.durable
    ensures StackFact(SplitTable(tab, th.pc.i), th.(pc := SetFlag(th.pc.i, true)))
  {
    var tab' := SplitTable(tab, th.pc.i);
    StackAbove(th);
    SplitChains(tab, th.pc.i);
    forall k | k in th.stack ensures Dead(tab', k) {
      assert Dead(tab, k);
    }
  }

  lemma SetFlagOk(tab: Table, th: Thread)
    requires TableOk(tab) && ThreadOk(tab, th) && th.pc.SetFlag?
    ensures var tab' := tab.(flags := tab.flags + {th.pc.i});
            TableOk(tab') && ThreadOk(tab', th.(pc := Persist(th.pc.i, th.pc.split)))
  {
    var i := th.pc.i;
    var tab' := tab.(flags := tab.flags + {i});
    var p := th.(pc := Persist(i, th.pc.split));
    SetFlagReady(tab, th);
    FlagKeepsTable(tab, i);
    SameShape(th, p.pc);
    SetFlagStack(tab, th);
    BaseShift(tab, tab', th, p.pc);
    assert PcFact(tab', p);
  }

  lemma SetFlagReady(tab: Table, th: Thread)
    requires TableOk(tab) && ThreadOk(tab, th) && th.pc.SetFlag?
    ensures var i := th.pc.i;
      && 2 <= i < Pow2(tab.level) && Parent(i) in tab.durable
      && (Chain(tab, i) != [] || NotPassing(tab, Parent(i), i))
      && (forall k :: Owns(th, k) <==> Owns(th.(pc := Persist(i, th.pc.split)), k))
  {
  }

  lemma SetFlagStack(tab: Table, th: Thread)
    requires StackFact(tab, th) && StackOk(th) && th.pc.SetFlag?
    ensures StackFact(tab.(flags := tab.flags + {th.pc.i}), th.(pc := Persist(th.pc.i, th.pc.split)))
  {
    var tab' := tab.(flags := tab.flags + {th.pc.i});
    StackAbove(th);
    forall k | k in th.stack ensures Dead(tab', k) {
      assert Dead(tab, k);
      assert Chain(tab', k) == Chain(tab, k);
    }
  }

  /** The recursion of rehash_bucket only ever goes down: all waiting buckets lie above the current one. */
  lemma StackAbove(th: Thread)
    requires StackOk(th) && Acquiring(th.pc)
    ensures forall k :: k in th.stack ==> k > th.pc.i
  {
    if th.stack != [] {
      var last := th.stack[|th.stack| - 1];
      assert th.pc.i == Parent(last) < last;
    }
  }

  lemma PersistKeepsThread(tab: Table, th: Thread, i: nat)
    requires TableOk(tab) && ThreadOk(tab, th) && i in tab.flags
    ensures var tab' := tab.(durable := tab.durable + {i});
            TableOk(tab') && ThreadOk(tab', th)
  {
    var tab' := tab.(durable := tab.durable + {i});
    DurableKeepsTable(tab, i);
    assert forall k: nat :: Chain(tab', k) == Chain(tab, k);
    assert forall k: nat :: Dead(tab', k) == Dead(tab, k);
    assert PcFact(tab', th);
  }

  lemma PersistSplitOk(tab: Table, th: Thread)
    requires TableOk(tab) && ThreadOk(tab, th) && th.pc.Persist? && th.pc.split && th.pc.i in tab.durable
    ensures ThreadOk(tab, th.(pc := DropParent(th.pc.i)))
  {
    ShiftOk(tab, th, DropParent(th.pc.i));
  }

  lemma PersistFilledOk(tab: Table, th: Thread)
    requires TableOk(tab) && ThreadOk(tab, th) && th.pc.Persist? && !th.pc.split && th.pc.i in tab.durable
    ensures ThreadOk(tab, Resume(th))
  {
    assert Owns(th, th.pc.i);
    assert forall k :: k in th.stack ==> Owns(th, k);
    assert th.(held := th.held) == th;
    ResumeOk(tab, th, th.held);
  }

  lemma DropParentOk(tab: Table, th: Thread)
    requires TableOk(tab) && ThreadOk(tab, th) && th.pc.DropParent?
    ensures ThreadOk(tab, Resume(th.(held := th.held - {Parent(th.pc.i)})))
  {
    var i := th.pc.i;
    StackAbove(th);
    assert Owns(th, i);
    assert forall k :: k in th.stack ==> Owns(th, k);
    ResumeOk(tab, th, th.held - {Parent(i)});
  }

  /** Steps of an operation that keeps its bucket locked. */
  lemma StayOk(tab: Table, th: Thread, th': Thread)
    requires ThreadOk(tab, th) && HasBase(th.pc) && HasBase(th'.pc)
    requires th'.op == th.op && th'.hash == th.hash && th'.base == th.base && th'.stack == th.stack && th'.held == th.held
    requires th.level <= th'.level <= tab.level
    requires th'.pc != Search && th'.pc != Visited && !th.op.Visit?
    requires OpOk(th') && RetryOk(th') && PcFact(tab, th')
    ensures ThreadOk(tab, th')
  {
    assert forall k :: Owns(th, k) <==> Owns(th', k);
  }

  lemma SearchOk(tab: Table, th: Thread)
    requires TableOk(tab) && ThreadOk(tab, th) && th.pc.Search?
    ensures ThreadOk(tab, Searched(th, Lookup(Chain(tab, th.base), OpKey(th.op))))
  {
    StayOk(tab, th, Searched(th, Lookup(Chain(tab, th.base), OpKey(th.op))));
  }

  /** check_mask_race finds no race: the key is absent from the whole table. */
  lemma MissedOk(tab: Table, th: Thread, level: nat)
    requires ThreadOk(tab, th) && (th.pc.LoadMaskAgain? || th.pc.ReadNextFlag?)
    requires Absent(tab, th.base, OpKey(th.op)) && OnPath(th.base, th.hash) && ClearBelow(tab, th.base, th.hash)
    requires th.level <= level <= tab.level
    ensures ThreadOk(tab, Missed(th.(level := level)))
  {
    StayOk(tab, th, Missed(th.(level := level)));
  }

  lemma LoadMaskAgainOk(tab: Table, th: Thread)
    requires TableOk(tab) && ThreadOk(tab, th) && th.pc.LoadMaskAgain?
    ensures ThreadOk(tab, Reloaded(th, tab.level))
  {
    MaskedOnPath(th.hash, th.level);
    if Masked(th.hash, th.level) == Masked(th.hash, tab.level) {
      SameBucketClear(tab, th.hash, th.base);
      MissedOk(tab, th, tab.level);
      assert th.level == tab.level ==> th.(level := tab.level) == th;
    } else {
      NextLevelParent(th.hash, th.level, tab.level);
      NextLevelBig(th.hash, th.level, tab.level);
      Pow2Grows(tab.recovered, th.level);
      MaskedOnPath(th.hash, NextLevel(th.hash, th.level, tab.level));
      StayOk(tab, th, Reloaded(th, tab.level));
    }
  }

  /** With the bucket locked, the next bucket on the path unflagged and nobody rehashing it. */
  lemma ReadNextFlagOk(tab: Table, th: Thread)
    requires TableOk(tab) && ThreadOk(tab, th) && th.pc.ReadNextFlag?
    requires th.pc.j !in tab.flags ==> Chain(tab, th.pc.j) == []
    ensures th.pc.j in tab.flags ==> ThreadOk(tab, th.(pc := UnlockAgain))
    ensures th.pc.j !in tab.flags ==> ThreadOk(tab, Missed(th)) && ClearBelow(tab, th.base, th.hash)
  {
    if th.pc.j in tab.flags {
      StayOk(tab, th, th.(pc := UnlockAgain));
    } else {
      NextDeadClear(tab, th.hash, th.base, th.pc.j);
      MissedOk(tab, th, th.level);
      assert th.(level := th.level) == th;
    }
  }

  lemma AllocOk(tab: Table, th: Thread, id: nat)
    requires TableOk(tab) && ThreadOk(tab, th) && th.pc.InsertTx? && Unlinked(tab, id)
    ensures var tab' := PutChain(tab, th.base, [Node(id, th.op.key)] + Chain(tab, th.base));
            TableOk(tab') && ThreadOk(tab', th.(pc := BumpSize, found := id, inserted := true, result := true))
  {
    var tab' := PutChain(tab, th.base, [Node(id, th.op.key)] + Chain(tab, th.base));
    var th' := th.(pc := BumpSize, found := id, inserted := true, result := true);
    InsertKeepsTable(tab, th.base, id, th.op.key);
    assert Chain(tab', th.base)[0] == Node(id, th.op.key);
    assert forall k :: Owns(th, k) <==> Owns(th', k);
  }

  lemma TryItemOk(tab: Table, th: Thread, accs: map<nat, bool>)
    requires ThreadOk(tab, th) && th.pc.TryItem?
    ensures th.op.Erase? ==> ThreadOk(tab, th.(accs := accs, pc := DropItem))
    ensures !th.op.Erase? ==> forall r :: ThreadOk(tab, th.(accs := accs, pc := UnlockDone, result := r))
    ensures !th.inserted ==> ThreadOk(tab, th.(pc := UnlockReload))
  {
    if th.op.Erase? {
      StayOk(tab, th, th.(accs := accs, pc := DropItem));
    } else {
      forall r ensures ThreadOk(tab, th.(accs := accs, pc := UnlockDone, result := r)) {
        StayOk(tab, th, th.(accs := accs, pc := UnlockDone, result := r));
      }
    }
    if !th.inserted {
      StayOk(tab, th, th.(pc := UnlockReload));
    }
  }

  lemma EraseOk(tab: Table, th: Thread)
    requires TableOk(tab) && ThreadOk(tab, th) && th.pc.EraseTx?
    ensures var tab' := PutChain(tab, th.base, Without(Chain(tab, th.base), th.found));
            TableOk(tab') && ThreadOk(tab', th.(pc := BumpSize, result := true))
  {
    EraseKeepsTable(tab, th.base, th.found);
    ErasedThread(tab, th);
  }

  lemma ErasedThread(tab: Table, th: Thread)
    requires ThreadOk(tab, th) && th.pc.EraseTx?
    ensures ThreadOk(PutChain(tab, th.base, Without(Chain(tab, th.base), th.found)), th.(pc := BumpSize, result := true))
  {
    var th' := th.(pc := BumpSize, result := true);
    assert forall k :: Owns(th, k) <==> Owns(th', k);
    assert Shape(th');
  }

  /** Unlocking the bucket of an operation leaves it with no bucket lock at all. */
  lemma UnlockedHeld(th: Thread)
    requires Shape(th) && HasBase(th.pc) && !th.op.Visit?
    ensures Unlocked(th).held == map[]
  {
  }

  lemma UnlockAgainOk(tab: Table, th: Thread)
    requires TableOk(tab) && ThreadOk(tab, th) && th.pc.UnlockAgain?
    ensures ThreadOk(tab, Enter(Unlocked(th), Masked(th.hash, th.level)))
  {
    UnlockedHeld(th);
    MaskedIsRemainder(th.hash, th.level);
    Pow2Grows(th.level, tab.level);
    EnterOk(tab, Unlocked(th), Masked(th.hash, th.level));
  }

  lemma UnlockReloadOk(tab: Table, th: Thread)
    requires ThreadOk(tab, th) && th.pc.UnlockReload?
    ensures ThreadOk(tab, Unlocked(th).(pc := LoadMask))
  {
    UnlockedHeld(th);
  }

  lemma UnlockDoneOk(tab: Table, th: Thread)
    requires ThreadOk(tab, th) && th.pc.UnlockDone?
    ensures ThreadOk(tab, Unlocked(th).(pc := Grown(th)))
  {
    UnlockedHeld(th);
  }

  lemma VisitedOk(tab: Table, th: Thread, held: map<nat, bool>)
    requires TableOk(tab) && ThreadOk(tab, th) && th.pc.Visited?
    requires held == th.held || held == th.held - {th.base}
    ensures ThreadOk(tab, NextVisit(th.(held := held)))
  {
    VisitedKept(tab, th);
    if th.op.lo < th.base {
      EnterOk(tab, th.(held := held), th.base - 1);
    } else {
      VisitDoneOk(tab, th, held);
    }
  }

  lemma VisitedKept(tab: Table, th: Thread)
    requires ThreadOk(tab, th) && th.pc.Visited?
    ensures forall k :: k in th.held ==> th.held[k] && th.base <= k && k in tab.durable
    ensures th.op.Visit? && tab.recovered <= th.level <= tab.level && th.base < Pow2(tab.level)
  {
    assert Owns(th, th.base);
  }

  lemma VisitDoneOk(tab: Table, th: Thread, held: map<nat, bool>)
    requires ThreadOk(tab, th) && th.pc.Visited?
    requires forall k :: k in held ==> held[k] && k in tab.durable
    ensures ThreadOk(tab, th.(held := held, pc := VisitDone))
  {
    var d := th.(held := held, pc := VisitDone);
    assert Shape(d);
  }

  /** Steps outside the bucket locks. */
  lemma OutsideOk(tab: Table, tab': Table, th: Thread, pc: Pc)
    requires ThreadOk(tab, th) && tab' == tab.(level := tab'.level, enabled := tab'.enabled) && tab.level <= tab'.level
    requires th.pc.TrySegment? || Growing(th.pc) || th.pc.Return?
    requires pc.Idle? || pc.Return? || (th.op.Insert? && Growing(pc))
    ensures ThreadOk(tab', th.(pc := pc))
  {
    assert th.held == map[];
    assert Shape(th.(pc := pc));
  }

  lemma LevelKeepsTable(tab: Table, level: nat, enabled: nat)
    requires TableOk(tab) && tab.level <= level <= enabled
    ensures TableOk(tab.(level := level, enabled := enabled))
  {
    var tab' := tab.(level := level, enabled := enabled);
    Pow2Grows(tab.level, level);
    assert forall k: nat :: Chain(tab', k) == Chain(tab, k);
    assert forall k: nat :: Dead(tab', k) == Dead(tab, k);
    assert ChainsOk(tab') && PathsOk(tab');
  }
}
