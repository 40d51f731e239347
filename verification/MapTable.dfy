/** What each kind of step does to the table, and to what a thread may rely on. */
module MapTable {
  import opened HashPath
  import opened ChainSplit
  import opened MapState
  import opened MapInvariant

  /** A bucket in use has all the buckets above it on any path flagged. */
  lemma {:induction false} UsedBelow(tab: Table, j: nat, k: nat, hash: nat)
    requires FlagsOk(tab)
    requires OnPath(j, hash) && OnPath(k, hash) && j < k && !Dead(tab, k)
    ensures j in tab.flags && j in tab.durable
    decreases k
  {
    if k >= 2 {
      ParentIsNext(j, k, hash);
      ParentOnPath(k, hash);
      if j < Parent(k) {
        UsedBelow(tab, j, Parent(k), hash);
      }
    }
  }

  /** The mask the thread just loaded is the one its bucket was found with: nothing deeper exists. */
  lemma SameBucketClear(tab: Table, hash: nat, b: nat)
    requires FlagsOk(tab) && tab.level >= 1 && b == Masked(hash, tab.level)
    ensures ClearBelow(tab, b, hash)
  {
    forall j: nat | b < j && OnPath(j, hash) ensures Dead(tab, j) {
      if j < Pow2(tab.level) {
        MaskedDeepest(j, hash, tab.level);
      }
    }
  }

  /** The next bucket on the path is unused, so everything below it is. */
  lemma NextDeadClear(tab: Table, hash: nat, b: nat, j: nat)
    requires FlagsOk(tab)
    requires j >= 2 && OnPath(b, hash) && OnPath(j, hash) && Parent(j) == b && Dead(tab, j)
    ensures ClearBelow(tab, b, hash)
  {
    forall k: nat | b < k && OnPath(k, hash) ensures Dead(tab, k) {
      if k < j {
        ParentIsNext(k, j, hash);
      } else if j < k && !Dead(tab, k) {
        UsedBelow(tab, j, k, hash);
      }
    }
  }

  /** Two nodes with the same key anywhere in the table are the same node in the same bucket. */
  lemma KeyOnce(tab: Table, i: nat, j: nat, n: Node, m: Node)
    requires TableOk(tab)
    requires n in Chain(tab, i) && m in Chain(tab, j) && n.key == m.key
    ensures i == j && n == m
  {
    assert i < j ==> Dead(tab, j);
    assert j < i ==> Dead(tab, i);
    if i == j && n != m {
      DistinctIds(Chain(tab, i), n, m);
    }
  }

  /** If the key's node is anywhere and nothing below b is in use, it is in b. */
  lemma KeyAtHome(tab: Table, b: nat, key: nat, i: nat, n: Node)
    requires TableOk(tab) && b in tab.flags
    requires OnPath(b, tab.hash(key)) && ClearBelow(tab, b, tab.hash(key))
    requires n in Chain(tab, i) && n.key == key
    ensures i == b
  {
    assert OnPath(i, tab.hash(n.key));
    assert i < b ==> Dead(tab, b);
    assert b < i ==> Dead(tab, i);
  }

  /** A node above bucket i whose path goes through i is in the parent of i, once that is flagged. */
  lemma OnlyParentPasses(tab: Table, i: nat)
    requires TableOk(tab) && i >= 2 && Parent(i) in tab.flags
    ensures forall k: nat, n :: n in Chain(tab, k) && k < i && OnPath(i, tab.hash(n.key)) ==> k == Parent(i)
  {
    forall k: nat, n | n in Chain(tab, k) && k < i && OnPath(i, tab.hash(n.key))
      ensures k == Parent(i)
    {
      ParentIsNext(k, i, tab.hash(n.key));
      ParentOnPath(i, tab.hash(n.key));
      assert k < Parent(i) ==> Dead(tab, Parent(i));
    }
  }

  // ---------- storing a flag ----------

  lemma FlagKeepsTable(tab: Table, i: nat)
    requires TableOk(tab) && i >= 2 && i < Pow2(tab.level) && Parent(i) in tab.durable
    requires Chain(tab, i) != [] || NotPassing(tab, Parent(i), i)
    ensures TableOk(tab.(flags := tab.flags + {i}))
  {
    var tab' := tab.(flags := tab.flags + {i});
    OnlyParentPasses(tab, i);
    assert forall k: nat :: Chain(tab', k) == Chain(tab, k);
    forall k: nat, n, j: nat | n in Chain(tab', k) && k < j && OnPath(j, tab.hash(n.key))
      ensures Dead(tab', j)
    {
      assert Dead(tab, j);
    }
    assert forall j: nat :: !Dead(tab', j) ==> !Dead(tab, j) || j == i;
    assert FlagsOk(tab');
    assert PathsOk(tab');
    assert ChainsOk(tab');
  }

  lemma DurableKeepsTable(tab: Table, i: nat)
    requires TableOk(tab) && i in tab.flags
    ensures TableOk(tab.(durable := tab.durable + {i}))
  {
    var tab' := tab.(durable := tab.durable + {i});
    assert forall k: nat :: Chain(tab', k) == Chain(tab, k);
    assert forall j: nat :: Dead(tab', j) == Dead(tab, j);
    assert PathsOk(tab');
    assert ChainsOk(tab');
  }

  // ---------- the split ----------

  lemma SplitChains(tab: Table, i: nat)
    requires i >= 2 && ChainsOk(tab)
    ensures var tab' := SplitTable(tab, i);
      && Chain(tab', i) == Moving(Chain(tab, Parent(i)), i, tab.hash)
      && Chain(tab', Parent(i)) == Staying(Chain(tab, Parent(i)), i, tab.hash)
      && (forall k: nat :: k != i && k != Parent(i) ==> Chain(tab', k) == Chain(tab, k))
      && (forall n :: n in Chain(tab', i) <==> n in Chain(tab, Parent(i)) && OnPath(i, tab.hash(n.key)))
      && (forall n :: n in Chain(tab', Parent(i)) <==> n in Chain(tab, Parent(i)) && !OnPath(i, tab.hash(n.key)))
      && Distinct(Chain(tab', i)) && Distinct(Chain(tab', Parent(i)))
  {
    SplitMembers(Chain(tab, Parent(i)), i, tab.hash);
    SplitDistinct(Chain(tab, Parent(i)), i, tab.hash);
  }

  /** The split moves nodes between two buckets of the same paths and links nothing twice. */
  lemma SplitKeepsTable(tab: Table, i: nat)
    requires TableOk(tab) && i >= 2 && i < Pow2(tab.level) && Dead(tab, i) && Parent(i) in tab.durable
    ensures TableOk(SplitTable(tab, i))
    ensures NotPassing(SplitTable(tab, i), Parent(i), i)
  {
    var tab' := SplitTable(tab, i);
    var p := Parent(i);
    SplitChains(tab, i);
    OnlyParentPasses(tab, i);
    forall k: nat, n, j: nat | n in Chain(tab', k) && k < j && OnPath(j, tab.hash(n.key))
      ensures Dead(tab', j)
    {
      var k' := if k == i then p else k;
      assert n in Chain(tab, k');
      assert Dead(tab, j);
    }
    forall k: nat, n | n in Chain(tab', k) ensures OnPath(k, tab.hash(n.key)) {
      assert n in Chain(tab, if k == i then p else k);
    }
    assert PathsOk(tab');
    SplitKeepsChains(tab, i);
    SplitKeepsFlags(tab, i);
  }

  lemma SplitKeepsChains(tab: Table, i: nat)
    requires ChainsOk(tab) && i >= 2 && Chain(tab, i) == []
    ensures ChainsOk(SplitTable(tab, i))
  {
    var tab' := SplitTable(tab, i);
    SplitChains(tab, i);
    forall j: nat, k: nat, n, m | n in Chain(tab', j) && m in Chain(tab', k) && j != k
      ensures n.id != m.id
    {
      SplitApart(tab, i, j, k, n, m);
    }
  }

  lemma SplitApart(tab: Table, i: nat, j: nat, k: nat, n: Node, m: Node)
    requires ChainsOk(tab) && i >= 2 && Chain(tab, i) == []
    requires n in Chain(SplitTable(tab, i), j) && m in Chain(SplitTable(tab, i), k) && j != k
    ensures n.id != m.id
  {
    var p := Parent(i);
    SplitChains(tab, i);
    assert n in Chain(tab, if j == i then p else j);
    assert m in Chain(tab, if k == i then p else k);
    if (j == i || j == p) && (k == i || k == p) {
      DistinctIds(Chain(tab, p), n, m);
    }
  }

  lemma DistinctIds(chain: seq<Node>, n: Node, m: Node)
    requires Distinct(chain) && n in chain && m in chain && n != m
    ensures n.id != m.id && n.key != m.key
  {
    var x :| 0 <= x < |chain| && chain[x] == n;
    var y :| 0 <= y < |chain| && chain[y] == m;
  }

  lemma SplitKeepsFlags(tab: Table, i: nat)
    requires FlagsOk(tab) && ChainsOk(tab) && i >= 2 && i < Pow2(tab.level) && Parent(i) in tab.durable
    ensures FlagsOk(SplitTable(tab, i))
  {
    var tab' := SplitTable(tab, i);
    SplitChains(tab, i);
    assert forall j: nat :: !Dead(tab', j) && j != i && j != Parent(i) ==> !Dead(tab, j);
    assert !Dead(tab, Parent(i));
  }

  // ---------- linking and unlinking a node ----------

  lemma InsertKeepsTable(tab: Table, b: nat, id: nat, key: nat)
    requires TableOk(tab) && b in tab.durable
    requires Absent(tab, b, key) && OnPath(b, tab.hash(key)) && ClearBelow(tab, b, tab.hash(key))
    requires Unlinked(tab, id)
    ensures TableOk(PutChain(tab, b, [Node(id, key)] + Chain(tab, b)))
  {
    var node := Node(id, key);
    var tab' := PutChain(tab, b, [node] + Chain(tab, b));
    DistinctCons(node, Chain(tab, b));
    assert forall k: nat :: k != b ==> Chain(tab', k) == Chain(tab, k);
    assert forall n :: n in Chain(tab', b) <==> n == node || n in Chain(tab, b);
    forall k: nat, n, j: nat | n in Chain(tab', k) && k < j && OnPath(j, tab.hash(n.key))
      ensures Dead(tab', j)
    {
      assert Dead(tab, j);
    }
    assert PathsOk(tab');
    assert ChainsOk(tab');
    assert forall j: nat :: !Dead(tab', j) ==> !Dead(tab, j);
    assert FlagsOk(tab');
  }

  lemma EraseKeepsTable(tab: Table, b: nat, id: nat)
    requires TableOk(tab) && b in tab.durable
    ensures TableOk(PutChain(tab, b, Without(Chain(tab, b), id)))
  {
    var tab' := PutChain(tab, b, Without(Chain(tab, b), id));
    WithoutMembers(Chain(tab, b), id);
    assert forall k: nat :: k != b ==> Chain(tab', k) == Chain(tab, k);
    assert forall k: nat, n :: n in Chain(tab', k) ==> n in Chain(tab, k);
    forall k: nat, n, j: nat | n in Chain(tab', k) && k < j && OnPath(j, tab.hash(n.key))
      ensures Dead(tab', j)
    {
      assert Dead(tab, j);
    }
    assert PathsOk(tab');
    assert ChainsOk(tab');
    assert forall j: nat :: !Dead(tab', j) ==> !Dead(tab, j);
    assert FlagsOk(tab');
  }
}
