/**
  Non-interference: what one thread does to the table, under the locks it holds, leaves
  everything another thread relies on intact. This is what makes it sound to treat a
  search under a bucket lock as one step.
 */
module MapOthers {
  import opened HashPath
  import opened ChainSplit
  import opened MapState
  import opened MapInvariant
  import opened MapTable

  /**
    What a thread relies on, given a new table in which the buckets it has locked keep
    their chains and flags, no durable flag is lost, and its ClearBelow is kept.
   */
  lemma RelyOk(tab: Table, tab': Table, u: Thread)
    requires TableOk(tab) && ThreadOk(tab, u)
    requires tab'.hash == tab.hash && tab'.recovered == tab.recovered && tab.level <= tab'.level
    requires tab.flags <= tab'.flags && tab.durable <= tab'.durable
    requires forall k :: k in u.held ==> Chain(tab', k) == Chain(tab, k)
    requires forall k :: k in u.held && k in tab'.flags ==> k in tab.flags
    requires u.pc.InsertTx? ==> ClearBelow(tab', u.base, u.hash)
    ensures ThreadOk(tab', u)
  {
    Pow2Grows(tab.level, tab'.level);
    RelyStack(tab, tab', u);
    RelyBase(tab, tab', u);
    RelyPc(tab, tab', u);
  }

  lemma RelyStack(tab: Table, tab': Table, u: Thread)
    requires HeldOk(u) && StackOk(u) && StackFact(tab, u)
    requires forall k :: k in u.held ==> Chain(tab', k) == Chain(tab, k)
    requires forall k :: k in u.held && k in tab'.flags ==> k in tab.flags
    ensures StackFact(tab', u)
  {
    forall k | k in u.stack ensures Dead(tab', k) {
      assert Owns(u, k);
      assert Dead(tab, k);
    }
  }

  lemma RelyBase(tab: Table, tab': Table, u: Thread)
    requires BaseFact(tab, u)
    requires tab'.hash == tab.hash && tab'.recovered == tab.recovered && tab.level <= tab'.level
    requires tab.durable <= tab'.durable && Pow2(tab.level) <= Pow2(tab'.level)
    ensures BaseFact(tab', u)
  {
  }

  lemma RelyPc(tab: Table, tab': Table, u: Thread)
    requires Shape(u) && PcFact(tab, u)
    requires tab'.hash == tab.hash && tab'.recovered == tab.recovered
    requires tab.flags <= tab'.flags && tab.durable <= tab'.durable
    requires forall k :: k in u.held ==> Chain(tab', k) == Chain(tab, k)
    requires forall k :: k in u.held && k in tab'.flags ==> k in tab.flags
    requires u.pc.InsertTx? ==> ClearBelow(tab', u.base, u.hash)
    ensures PcFact(tab', u)
  {
    if Acquiring(u.pc) {
      if !u.pc.ReadFlag? && !u.pc.TryLock? && !u.pc.Block? {
        assert Owns(u, u.pc.i);
        assert u.pc.SetFlag? && u.pc.split ==> Owns(u, Parent(u.pc.i));
      }
    } else if HasBase(u.pc) {
      assert Owns(u, u.base);
    }
  }

  /** A thread that has found no mask race keeps its bucket the last one in use on the path. */
  lemma ClearKept(tab: Table, tab': Table, u: Thread, i: nat)
    requires TableOk(tab) && ThreadOk(tab, u) && u.pc.InsertTx?
    requires tab'.hash == tab.hash
    requires forall k: nat :: Dead(tab, k) && k != i ==> Dead(tab', k)
    requires !Dead(tab, i) || (i >= 2 && Parent(i) in tab.flags && Parent(i) !in u.held)
    ensures ClearBelow(tab', u.base, u.hash)
  {
    assert Owns(u, u.base);
    forall k: nat | u.base < k && OnPath(k, u.hash) ensures Dead(tab', k) {
      assert Dead(tab, k);
      if k == i {
        ClearParent(tab, u.base, u.hash, i);
      }
    }
  }

  lemma ClearParent(tab: Table, b: nat, hash: nat, i: nat)
    requires ClearBelow(tab, b, hash) && b < i && OnPath(b, hash) && OnPath(i, hash)
    requires i >= 2 && Parent(i) in tab.flags
    ensures Parent(i) == b
  {
    ParentIsNext(b, i, hash);
    ParentOnPath(i, hash);
    var p := Parent(i);
    assert b < p ==> Dead(tab, p);
  }

  lemma SplitOthers(tab: Table, th: Thread, u: Thread)
    requires TableOk(tab) && ThreadOk(tab, th) && th.pc.Split? && ThreadOk(tab, u) && Compatible(th, u)
    ensures ThreadOk(SplitTable(tab, th.pc.i), u)
  {
    var i := th.pc.i;
    var tab' := SplitTable(tab, i);
    assert Owns(th, i) && Owns(th, Parent(i));
    SplitChains(tab, i);
    if u.pc.InsertTx? {
      assert !Dead(tab, Parent(i));
      ClearKept(tab, tab', u, i);
    }
    RelyOk(tab, tab', u);
  }

  lemma SetFlagOthers(tab: Table, th: Thread, u: Thread)
    requires TableOk(tab) && ThreadOk(tab, th) && th.pc.SetFlag? && ThreadOk(tab, u) && Compatible(th, u)
    ensures ThreadOk(tab.(flags := tab.flags + {th.pc.i}), u)
  {
    FlaggerHolds(th, u);
    FlagOthers(tab, th.pc.i, u);
  }

  lemma FlagOthers(tab: Table, i: nat, u: Thread)
    requires TableOk(tab) && ThreadOk(tab, u) && i !in u.held && i >= 2
    requires Chain(tab, i) != [] || (Parent(i) in tab.durable && Parent(i) !in u.held)
    ensures ThreadOk(tab.(flags := tab.flags + {i}), u)
  {
    var tab' := tab.(flags := tab.flags + {i});
    assert forall k: nat :: Chain(tab', k) == Chain(tab, k);
    if u.pc.InsertTx? {
      ClearKept(tab, tab', u, i);
    }
    RelyOk(tab, tab', u);
  }

  lemma FlaggerHolds(th: Thread, u: Thread)
    requires Shape(th) && th.pc.SetFlag? && Compatible(th, u)
    ensures th.pc.i !in u.held && (th.pc.split ==> Parent(th.pc.i) !in u.held)
  {
    assert Owns(th, th.pc.i) && (th.pc.split ==> Owns(th, Parent(th.pc.i)));
  }

  lemma PersistOthers(tab: Table, i: nat, u: Thread)
    requires TableOk(tab) && ThreadOk(tab, u)
    ensures ThreadOk(tab.(durable := tab.durable + {i}), u)
  {
    var tab' := tab.(durable := tab.durable + {i});
    assert forall k: nat :: Chain(tab', k) == Chain(tab, k);
    assert forall k: nat :: Dead(tab', k) == Dead(tab, k);
    RelyOk(tab, tab', u);
  }

  /** Linking or unlinking in a bucket that is in use and locked exclusively by th. */
  lemma ChainOthers(tab: Table, th: Thread, u: Thread, b: nat, chain: seq<Node>)
    requires TableOk(tab) && ThreadOk(tab, u) && Compatible(th, u)
    requires b in th.held && th.held[b] && b in tab.durable
    ensures ThreadOk(PutChain(tab, b, chain), u)
  {
    var tab' := PutChain(tab, b, chain);
    assert forall k: nat :: k != b ==> Chain(tab', k) == Chain(tab, k);
    if u.pc.InsertTx? {
      assert !Dead(tab, b);
      ClearKept(tab, tab', u, b);
    }
    RelyOk(tab, tab', u);
  }

  lemma LevelOthers(tab: Table, level: nat, enabled: nat, u: Thread)
    requires TableOk(tab) && ThreadOk(tab, u) && tab.level <= level
    ensures ThreadOk(tab.(level := level, enabled := enabled), u)
  {
    var tab' := tab.(level := level, enabled := enabled);
    assert forall k: nat :: Chain(tab', k) == Chain(tab, k);
    assert forall k: nat :: Dead(tab', k) == Dead(tab, k);
    RelyOk(tab, tab', u);
  }
}
