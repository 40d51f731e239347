/**
  What rehashing one bucket does to the chain of its parent, on plain sequences:
  the nodes whose hash selects the new bucket move, the others stay, both in order.
 */
module ChainSplit {
  import opened Wrappers
  import opened HashPath

  /** A node: its persistent address and its key. */
  datatype Node = Node(id: nat, key: nat)

  /** The nodes of the parent's chain that belong to bucket b. */
  function Moving(chain: seq<Node>, b: nat, hash: nat -> nat): seq<Node>
  {
    if chain == [] then []
    else if OnPath(b, hash(chain[0].key)) then [chain[0]] + Moving(chain[1..], b, hash)
    else Moving(chain[1..], b, hash)
  }

  /** The nodes of the parent's chain that do not. */
  function Staying(chain: seq<Node>, b: nat, hash: nat -> nat): seq<Node>
  {
    if chain == [] then []
    else if OnPath(b, hash(chain[0].key)) then Staying(chain[1..], b, hash)
    else [chain[0]] + Staying(chain[1..], b, hash)
  }

  lemma {:induction false} SplitMembers(chain: seq<Node>, b: nat, hash: nat -> nat)
    ensures forall n :: n in Moving(chain, b, hash) <==> n in chain && OnPath(b, hash(n.key))
    ensures forall n :: n in Staying(chain, b, hash) <==> n in chain && !OnPath(b, hash(n.key))
  {
    if chain != [] {
      SplitMembers(chain[1..], b, hash);
      assert chain == [chain[0]] + chain[1..];
    }
  }

  /** Nothing is lost and nothing is duplicated. */
  lemma {:induction false} SplitConserves(chain: seq<Node>, b: nat, hash: nat -> nat)
    ensures multiset(Moving(chain, b, hash)) + multiset(Staying(chain, b, hash)) == multiset(chain)
  {
    if chain != [] {
      SplitConserves(chain[1..], b, hash);
      assert chain == [chain[0]] + chain[1..];
    }
  }

  /** Pairwise different keys and addresses. */
  ghost predicate Distinct(chain: seq<Node>)
  {
    forall x, y :: 0 <= x < y < |chain| ==> chain[x].id != chain[y].id && chain[x].key != chain[y].key
  }

  lemma DistinctCons(n: Node, chain: seq<Node>)
    requires Distinct(chain)
    requires forall m :: m in chain ==> m.id != n.id && m.key != n.key
    ensures Distinct([n] + chain)
  {
  }

  lemma {:induction false} SplitDistinct(chain: seq<Node>, b: nat, hash: nat -> nat)
    requires Distinct(chain)
    ensures Distinct(Moving(chain, b, hash)) && Distinct(Staying(chain, b, hash))
  {
    if chain != [] {
      var rest := chain[1..];
      SplitDistinct(rest, b, hash);
      SplitMembers(rest, b, hash);
      forall m | m in rest ensures m.id != chain[0].id && m.key != chain[0].key {
        var k :| 0 <= k < |rest| && rest[k] == m;
        assert chain[k + 1] == m;
      }
      if OnPath(b, hash(chain[0].key)) {
        DistinctCons(chain[0], Moving(rest, b, hash));
      } else {
        DistinctCons(chain[0], Staying(rest, b, hash));
      }
    }
  }

  /** The chain without the node at address id: what unlinking it leaves. */
  function Without(chain: seq<Node>, id: nat): seq<Node>
  {
    if chain == [] then []
    else if chain[0].id == id then chain[1..]
    else [chain[0]] + Without(chain[1..], id)
  }

  lemma {:induction false} WithoutMembers(chain: seq<Node>, id: nat)
    requires Distinct(chain)
    ensures forall n :: n in Without(chain, id) <==> n in chain && n.id != id
    ensures Distinct(Without(chain, id))
  {
    if chain != [] {
      var rest := chain[1..];
      assert chain == [chain[0]] + rest;
      forall m | m in rest ensures m.id != chain[0].id && m.key != chain[0].key {
        var k :| 0 <= k < |rest| && rest[k] == m;
        assert chain[k + 1] == m;
      }
      if chain[0].id != id {
        WithoutMembers(rest, id);
        DistinctCons(chain[0], Without(rest, id));
      }
    }
  }

  /** search_bucket: the first node with the key. */
  function Lookup(chain: seq<Node>, key: nat): (id: Option<nat>)
    ensures id.Some? ==> Node(id.value, key) in chain
    ensures id.None? ==> forall n :: n in chain ==> n.key != key
  {
    if chain == [] then None
    else if chain[0].key == key then Some(chain[0].id)
    else
      assert chain == [chain[0]] + chain[1..];
      Lookup(chain[1..], key)
  }
}
