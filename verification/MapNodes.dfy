/** The nodes of the table, wherever they are, and what splitting, linking and unlinking does to them. */
module MapNodes {
  import opened HashPath
  import opened ChainSplit
  import opened MapState
  import opened MapInvariant
  import opened MapTable

  ghost predicate Has(tab: Table, n: Node)
  {
    exists i: nat :: n in Chain(tab, i)
  }

  /** The key of a linked node. */
  ghost function KeyOf(tab: Table, id: nat): nat
    requires Linked(tab, id)
  {
    var n :| Has(tab, n) && n.id == id;
    n.key
  }

  lemma LinkedHas(tab: Table, id: nat)
    requires Linked(tab, id)
    ensures Has(tab, Node(id, KeyOf(tab, id)))
  {
    var i: nat, n :| n in Chain(tab, i) && n.id == id;
    assert Has(tab, n);
  }

  lemma SplitHas(tab: Table, i: nat, n: Node)
    requires TableOk(tab) && i >= 2 && Dead(tab, i)
    ensures Has(SplitTable(tab, i), n) <==> Has(tab, n)
  {
    var tab' := SplitTable(tab, i);
    var p := Parent(i);
    SplitChains(tab, i);
    if Has(tab, n) {
      var k: nat :| n in Chain(tab, k);
      assert n in Chain(tab', if k == p && OnPath(i, tab.hash(n.key)) then i else k);
    }
    if Has(tab', n) {
      var k: nat :| n in Chain(tab', k);
      assert n in Chain(tab, if k == i then p else k);
    }
  }

  lemma LinkHas(tab: Table, b: nat, node: Node, n: Node)
    ensures Has(PutChain(tab, b, [node] + Chain(tab, b)), n) <==> Has(tab, n) || n == node
  {
    var tab' := PutChain(tab, b, [node] + Chain(tab, b));
    assert node in Chain(tab', b);
    if Has(tab, n) {
      var k: nat :| n in Chain(tab, k);
      assert n in Chain(tab', k);
    }
    if Has(tab', n) {
      var k: nat :| n in Chain(tab', k);
      assert n == node || n in Chain(tab, k);
    }
  }

  lemma UnlinkHas(tab: Table, b: nat, gone: Node, n: Node)
    requires ChainsOk(tab) && gone in Chain(tab, b)
    ensures Has(PutChain(tab, b, Without(Chain(tab, b), gone.id)), n) <==> Has(tab, n) && n != gone
  {
    var tab' := PutChain(tab, b, Without(Chain(tab, b), gone.id));
    WithoutMembers(Chain(tab, b), gone.id);
    if Has(tab, n) && n != gone {
      var k: nat :| n in Chain(tab, k);
      if n.id == gone.id {
        SameNode(tab, k, b, n, gone);
      }
      assert n in Chain(tab', k);
    }
    if Has(tab', n) {
      var k: nat :| n in Chain(tab', k);
      assert n in Chain(tab, k);
    }
  }

  lemma SameNode(tab: Table, i: nat, j: nat, n: Node, m: Node)
    requires ChainsOk(tab) && n in Chain(tab, i) && m in Chain(tab, j) && n.id == m.id
    ensures n == m
  {
    if i == j && n != m {
      DistinctIds(Chain(tab, i), n, m);
    }
  }

  lemma SameHas(tab: Table, tab': Table, n: Node)
    requires tab'.chains == tab.chains
    ensures Has(tab', n) <==> Has(tab, n)
  {
    assert forall i: nat :: Chain(tab', i) == Chain(tab, i);
  }

  /** A key, or an address, determines the node. */
  lemma OneNode(tab: Table, n: Node, m: Node)
    requires TableOk(tab) && Has(tab, n) && Has(tab, m)
    ensures n == m <==> n.id == m.id
    ensures n == m <==> n.key == m.key
  {
    var i: nat :| n in Chain(tab, i);
    var j: nat :| m in Chain(tab, j);
    if n.id == m.id {
      SameNode(tab, i, j, n, m);
    }
    if n.key == m.key {
      KeyOnce(tab, i, j, n, m);
    }
  }
}
