/**
  rehash_bucket on the linked chains themselves: one pass over the parent's chain that
  relinks nodes in place through two pointers to next-fields.
 */
module RehashBucket {
  import opened Wrappers
  import opened HashPath
  import opened ChainSplit

  class ListNode {
    const item: Node
    var next: ListNode?

    constructor (item: Node, next: ListNode?)
      ensures this.item == item && this.next == next
    {
      this.item := item;
      this.next := next;
    }
  }

  class Bucket {
    var rehashed: bool
    var list: ListNode?

    constructor ()
      ensures !rehashed && list == null
    {
      rehashed := false;
      list := null;
    }
  }

  /** The nodes of a chain from its head to its null, all different. */
  ghost predicate IsChain(head: ListNode?, nodes: seq<ListNode>)
    reads nodes
  {
    head == First(nodes) && Linked(nodes, []) && AllDifferent(nodes)
  }

  /** Each node of `nodes` links to the next one, the last to the first of `rest`. */
  ghost predicate Linked(nodes: seq<ListNode>, rest: seq<ListNode>)
    reads nodes
  {
    LinkedUpTo(nodes) && (nodes != [] ==> nodes[|nodes| - 1].next == First(rest))
  }

  ghost predicate AllDifferent(nodes: seq<ListNode>)
  {
    forall j, k :: 0 <= j < k < |nodes| ==> nodes[j] != nodes[k]
  }

  function First(nodes: seq<ListNode>): ListNode?
  {
    if nodes == [] then null else nodes[0]
  }

  function Last(nodes: seq<ListNode>): ListNode?
  {
    if nodes == [] then null else nodes[|nodes| - 1]
  }

  function Items(nodes: seq<ListNode>): (items: seq<Node>)
    ensures |items| == |nodes|
    ensures forall k :: 0 <= k < |nodes| ==> items[k] == nodes[k].item
  {
    seq(|nodes|, k requires 0 <= k < |nodes| => nodes[k].item)
  }

  /** `(hash & mask) == h` with the full mask of bucket h says that h lies on the path of the hash. */
  lemma {:induction false} FullMaskSelects(h: nat, hash: nat)
    requires h >= 1
    ensures Masked(hash, Log2(h) + 1) == h <==> OnPath(h, hash)
  {
    if h == 1 {
      assert Masked(hash, 1) == hash % 2 + 2 * Masked(hash / 2, 0);
    } else {
      FullMaskSelects(h / 2, hash / 2);
      assert Masked(hash, Log2(h) + 1) == hash % 2 + 2 * Masked(hash / 2, Log2(h / 2) + 1);
    }
  }

  /** ... and the last one somewhere. */
  ghost predicate LinkedUpTo(nodes: seq<ListNode>)
    reads nodes
  {
    forall k, l :: 0 <= k < |nodes| - 1 && l == k + 1 ==> nodes[k].next == nodes[l]
  }

  /**
    The loop has moved the nodes of `move`, passed over those of `stay` and not reached
    those of `rest`. The last moved node still links to wherever it linked before.
   */
  ghost predicate Midway(bOld: Bucket, bNew: Bucket, stay: seq<ListNode>, move: seq<ListNode>, rest: seq<ListNode>)
    reads bOld, bNew, stay, move, rest
  {
    && AllDifferent(stay + move + rest)
    && Linked(stay, rest) && Linked(rest, [])
    && bOld.list == First(stay + rest)
    && (move != [] ==> bNew.list == move[0] && LinkedUpTo(move))
  }

  /** The nodes passed over and moved so far, as filters of the chain. */
  ghost predicate Filtered(nodes: seq<ListNode>, stay: seq<ListNode>, move: seq<ListNode>, rest: seq<ListNode>,
                           h: nat, hash: nat -> nat)
  {
    && (forall m | m in stay + move + rest :: m in nodes)
    && Items(stay) + Staying(Items(rest), h, hash) == Staying(Items(nodes), h, hash)
    && Items(move) + Moving(Items(rest), h, hash) == Moving(Items(nodes), h, hash)
  }

  /** What holds at the head of the loop. */
  ghost predicate AtLoop(bOld: Bucket, bNew: Bucket, pOld: ListNode?, pNew: ListNode?, n: ListNode?,
                         nodes: seq<ListNode>, stay: seq<ListNode>, move: seq<ListNode>, rest: seq<ListNode>,
                         h: nat, hash: nat -> nat)
    reads bOld, bNew, stay, move, rest
  {
    && n == First(rest) && pOld == Last(stay) && pNew == Last(move)
    && Midway(bOld, bNew, stay, move, rest)
    && Filtered(nodes, stay, move, rest, h, hash)
  }

  /** The loop of the transaction: afterwards both chains end in null and share no node. */
  method SplitChain(bOld: Bucket, bNew: Bucket, h: nat, hash: nat -> nat, ghost nodes: seq<ListNode>)
    returns (ghost stay: seq<ListNode>, ghost move: seq<ListNode>)
    requires h >= 2 && bOld != bNew
    requires IsChain(bOld.list, nodes)
    modifies bOld`list, bNew`list, nodes
    ensures IsChain(bOld.list, stay) && IsChain(bNew.list, move)
    ensures Items(stay) == Staying(Items(nodes), h, hash)
    ensures Items(move) == Moving(Items(nodes), h, hash)
    ensures forall n :: n in stay ==> n in nodes && n !in move
    ensures forall n :: n in move ==> n in nodes
  {
    // *p_old and *p_new are the next-fields of these nodes or, when null, the lists of the buckets
    var pOld: ListNode? := null;
    var pNew: ListNode? := null;
    var n := bOld.list;
    stay, move := [], [];
    ghost var rest := nodes;
    assert stay + move + rest == nodes == stay + rest;
    while n != null
      invariant AtLoop(bOld, bNew, pOld, pNew, n, nodes, stay, move, rest, h, hash)
      decreases |rest|
    {
      pOld, pNew, n, stay, move, rest := SplitOne(bOld, bNew, pOld, pNew, n, h, hash, nodes, stay, move, rest);
    }
    // *p_new = nullptr
    EndChain(bOld, bNew, pOld, pNew, n, nodes, stay, move, rest, h, hash);
  }

  /** The body of the loop. */
  method SplitOne(bOld: Bucket, bNew: Bucket, pOld: ListNode?, pNew: ListNode?, n: ListNode, h: nat, hash: nat -> nat,
                  ghost nodes: seq<ListNode>,
                  ghost stay: seq<ListNode>, ghost move: seq<ListNode>, ghost rest: seq<ListNode>)
    returns (pOld': ListNode?, pNew': ListNode?, n': ListNode?,
             ghost stay': seq<ListNode>, ghost move': seq<ListNode>, ghost rest': seq<ListNode>)
    requires h >= 1 && bOld != bNew && AtLoop(bOld, bNew, pOld, pNew, n, nodes, stay, move, rest, h, hash)
    modifies bOld`list, bNew`list, nodes
    ensures AtLoop(bOld, bNew, pOld', pNew', n', nodes, stay', move', rest', h, hash)
    ensures rest != [] && rest' == rest[1..]
  {
    var mask := Log2(h) + 1;
    FullMaskSelects(h, hash(n.item.key));
    FilterStep(nodes, stay, move, rest, h, hash);
    if Masked(hash(n.item.key), mask) == h {
      n' := MoveNode(bOld, bNew, pOld, pNew, n, nodes, stay, move, rest);
      pOld', pNew' := pOld, n;
      stay', move', rest' := stay, move + [n], rest[1..];
    } else {
      KeepNode(bOld, bNew, stay, move, rest);
      pOld', pNew', n' := n, pNew, n.next;
      stay', move', rest' := stay + [n], move, rest[1..];
    }
  }

  lemma InChain(nodes: seq<ListNode>, stay: seq<ListNode>, move: seq<ListNode>, rest: seq<ListNode>)
    requires forall m | m in stay + move + rest :: m in nodes
    ensures forall m :: m in stay ==> m in nodes
    ensures forall m :: m in move ==> m in nodes
  {
    assert forall m :: m in stay + move + rest ==> m in nodes;
  }

  /** *p_new = nullptr */
  method EndChain(bOld: Bucket, bNew: Bucket, ghost pOld: ListNode?, pNew: ListNode?, ghost n: ListNode?,
                  ghost nodes: seq<ListNode>,
                  ghost stay: seq<ListNode>, ghost move: seq<ListNode>, ghost rest: seq<ListNode>,
                  ghost h: nat, ghost hash: nat -> nat)
    requires bOld != bNew && AtLoop(bOld, bNew, pOld, pNew, n, nodes, stay, move, rest, h, hash) && n == null
    modifies bNew`list, nodes
    ensures IsChain(bOld.list, stay) && IsChain(bNew.list, move)
    ensures Items(stay) == Staying(Items(nodes), h, hash)
    ensures Items(move) == Moving(Items(nodes), h, hash)
    ensures forall n :: n in stay ==> n in nodes && n !in move
    ensures forall n :: n in move ==> n in nodes
  {
    assert rest == [];
    assert stay + rest == stay;
    Separate(stay, move, rest);
    Finished(nodes, stay, move, h, hash);
    assert forall k :: 0 <= k < |move| - 1 ==> move[k] != pNew;
    assert pNew != null ==> pNew in move && pNew !in stay;
    if pNew == null { bNew.list := null; } else { pNew.next := null; }
  }

  /** *p_new = n; *p_old = n->next; */
  method MoveNode(bOld: Bucket, bNew: Bucket, pOld: ListNode?, pNew: ListNode?, n: ListNode,
                  ghost nodes: seq<ListNode>, ghost stay: seq<ListNode>, ghost move: seq<ListNode>, ghost rest: seq<ListNode>)
    returns (next: ListNode?)
    requires bOld != bNew && Midway(bOld, bNew, stay, move, rest)
    requires rest != [] && n == rest[0] && pOld == Last(stay) && pNew == Last(move)
    requires forall m | m in stay + move + rest :: m in nodes
    modifies bOld`list, bNew`list, nodes
    ensures Midway(bOld, bNew, stay, move + [n], rest[1..])
    ensures next == First(rest[1..])
  {
    Separate(stay, move, rest);
    LinkedTail(rest);
    MoveNext(stay, move, rest);
    InChain(nodes, stay, move, rest);
    assert pNew != null ==> pNew in move;
    assert pOld != null ==> pOld in stay;
    assert forall k :: 0 <= k < |rest| ==> rest[k] !in stay && rest[k] !in move;
    assert forall k :: 0 <= k < |stay| ==> stay[k] !in move && stay[k] != n;
    if pNew == null { bNew.list := n; } else { pNew.next := n; }
    assert forall k :: 0 <= k < |move| - 1 ==> move[k] != pNew;
    assert LinkedUpTo(move + [n]) && LinkedUpTo(stay);
    next := n.next;
    if pOld == null { bOld.list := next; } else { pOld.next := next; }
    assert forall k :: 0 <= k < |move| ==> move[k] != pOld;
    assert LinkedUpTo(move + [n]);
  }

  lemma KeepNode(bOld: Bucket, bNew: Bucket, stay: seq<ListNode>, move: seq<ListNode>, rest: seq<ListNode>)
    requires Midway(bOld, bNew, stay, move, rest) && rest != []
    ensures Midway(bOld, bNew, stay + [rest[0]], move, rest[1..])
    ensures rest[0].next == First(rest[1..])
    ensures forall n :: n in (stay + [rest[0]]) + move + rest[1..] <==> n in stay + move + rest
  {
    LinkedTail(rest);
    StayNext(stay, move, rest);
  }

  /** One node further. */
  lemma FilterStep(nodes: seq<ListNode>, stay: seq<ListNode>, move: seq<ListNode>, rest: seq<ListNode>,
                   h: nat, hash: nat -> nat)
    requires rest != [] && Filtered(nodes, stay, move, rest, h, hash)
    ensures if OnPath(h, hash(rest[0].item.key)) then Filtered(nodes, stay, move + [rest[0]], rest[1..], h, hash)
            else Filtered(nodes, stay + [rest[0]], move, rest[1..], h, hash)
  {
    var n, tail := rest[0], rest[1..];
    assert rest == [n] + tail;
    assert Items(rest)[1..] == Items(tail);
    if OnPath(h, hash(n.item.key)) {
      assert Items(move + [n]) == Items(move) + [n.item];
      MoveNext(stay, move, rest);
    } else {
      assert Items(stay + [n]) == Items(stay) + [n.item];
      assert forall m :: m in (stay + [n]) + move + tail <==> m in stay + move + rest;
    }
  }

  lemma Finished(nodes: seq<ListNode>, stay: seq<ListNode>, move: seq<ListNode>, h: nat, hash: nat -> nat)
    requires Filtered(nodes, stay, move, [], h, hash)
    ensures Items(stay) == Staying(Items(nodes), h, hash)
    ensures Items(move) == Moving(Items(nodes), h, hash)
    ensures forall m :: m in stay ==> m in nodes
    ensures forall m :: m in move ==> m in nodes
  {
    InChain(nodes, stay, move, []);
    assert Items(stay) + [] == Items(stay);
    assert Items(move) + [] == Items(move);
  }

  lemma LinkedTail(rest: seq<ListNode>)
    requires rest != [] && Linked(rest, [])
    ensures rest[0].next == First(rest[1..]) && Linked(rest[1..], [])
  {
  }

  lemma Separate(stay: seq<ListNode>, move: seq<ListNode>, rest: seq<ListNode>)
    requires AllDifferent(stay + move + rest)
    ensures AllDifferent(stay) && AllDifferent(move) && AllDifferent(rest)
    ensures forall n :: n in stay ==> n !in move && n !in rest
    ensures forall n :: n in move ==> n !in rest
  {
    var all := stay + move + rest;
    assert forall k :: 0 <= k < |stay| ==> all[k] == stay[k];
    assert forall k :: 0 <= k < |move| ==> all[|stay| + k] == move[k];
    assert forall k :: 0 <= k < |rest| ==> all[|stay| + |move| + k] == rest[k];
  }

  lemma MoveNext(stay: seq<ListNode>, move: seq<ListNode>, rest: seq<ListNode>)
    requires rest != []
    ensures stay + (move + [rest[0]]) + rest[1..] == stay + move + rest
  {
    assert rest == [rest[0]] + rest[1..];
  }

  lemma StayNext(stay: seq<ListNode>, move: seq<ListNode>, rest: seq<ListNode>)
    requires rest != [] && AllDifferent(stay + move + rest)
    ensures AllDifferent((stay + [rest[0]]) + move + rest[1..])
    ensures forall n :: n in (stay + [rest[0]]) + move + rest[1..] <==> n in stay + move + rest
    ensures (stay + [rest[0]]) + rest[1..] == stay + rest
  {
    Separate(stay, move, rest);
    assert rest == [rest[0]] + rest[1..];
    assert rest[0] in rest;
    assert forall k :: 0 <= k < |rest| - 1 ==> rest[1..][k] == rest[k + 1];
    Together(stay + [rest[0]], move, rest[1..]);
  }

  lemma Together(a: seq<ListNode>, b: seq<ListNode>, c: seq<ListNode>)
    requires AllDifferent(a) && AllDifferent(b) && AllDifferent(c)
    requires forall n :: n in a ==> n !in b && n !in c
    requires forall n :: n in b ==> n !in c
    ensures AllDifferent(a + b + c)
  {
    var all := a + b + c;
    forall j, k | 0 <= j < k < |all| ensures all[j] != all[k] {
      var x := all[j];
      var y := all[k];
      assert j < |a| ==> x in a;
      assert |a| <= j < |a| + |b| ==> x in b;
      assert |a| <= k < |a| + |b| ==> y in b;
      assert |a| + |b| <= k ==> y in c;
    }
  }

  /**
    rehash_bucket once the parent is locked. A bucket that a crash left filled but unflagged
    only gets its flag; otherwise the parent's chain is split.
   */
  method Rehash(bOld: Bucket, bNew: Bucket, h: nat, hash: nat -> nat,
                ghost nodes: seq<ListNode>, ghost filled: seq<ListNode>)
    returns (ghost stay: seq<ListNode>, ghost move: seq<ListNode>)
    requires h >= 2 && bOld != bNew
    requires IsChain(bOld.list, nodes) && IsChain(bNew.list, filled)
    modifies bOld`list, bNew, nodes
    ensures bNew.rehashed
    ensures IsChain(bOld.list, stay) && IsChain(bNew.list, move)
    ensures if filled != [] then stay == nodes && move == filled
            else Items(stay) == Staying(Items(nodes), h, hash) && Items(move) == Moving(Items(nodes), h, hash)
    ensures filled == [] ==> multiset(Items(stay)) + multiset(Items(move)) == multiset(Items(nodes))
  {
    if bNew.list != null {
      bNew.rehashed := true;
      return nodes, filled;
    }
    stay, move := SplitChain(bOld, bNew, h, hash, nodes);
    SplitConserves(Items(nodes), h, hash);
    bNew.rehashed := true;
  }

  // ---------- search, insert and erase on one chain ----------

  /** search_bucket */
  method SearchBucket(b: Bucket, key: nat, ghost nodes: seq<ListNode>) returns (n: ListNode?)
    requires IsChain(b.list, nodes)
    ensures n == null <==> Lookup(Items(nodes), key).None?
    ensures n != null ==> n in nodes && n.item == Node(Lookup(Items(nodes), key).value, key)
  {
    n := b.list;
    ghost var rest := nodes;
    while n != null && n.item.key != key
      invariant n == First(rest) && Linked(rest, [])
      invariant forall m :: m in rest ==> m in nodes
      invariant Lookup(Items(rest), key) == Lookup(Items(nodes), key)
      decreases |rest|
    {
      LinkedTail(rest);
      assert Items(rest)[1..] == Items(rest[1..]);
      n := n.next;
      rest := rest[1..];
    }
  }

  /** insert_new_node_internal: the new node becomes the head of the chain. */
  method InsertNode(b: Bucket, item: Node, ghost nodes: seq<ListNode>) returns (n: ListNode)
    requires IsChain(b.list, nodes)
    modifies b`list
    ensures fresh(n) && n.item == item && IsChain(b.list, [n] + nodes)
    ensures Items([n] + nodes) == [item] + Items(nodes)
  {
    n := new ListNode(item, b.list);
    b.list := n;
  }

  /** The search and the unlinking of internal_erase, through the pointer p to a next-field. */
  method EraseNode(b: Bucket, key: nat, ghost nodes: seq<ListNode>) returns (n: ListNode?, ghost left: seq<ListNode>)
    requires IsChain(b.list, nodes) && Distinct(Items(nodes))
    modifies b`list, nodes
    ensures n == null <==> Lookup(Items(nodes), key).None?
    ensures IsChain(b.list, left)
    ensures n == null ==> left == nodes
    ensures n != null ==> n in nodes && n !in left && n.item.key == key
    ensures n != null ==> Items(left) == Without(Items(nodes), n.item.id)
  {
    var p: ListNode?;
    ghost var k;
    p, n, k := FindPlace(b, key, nodes);
    left := nodes;
    if n != null {
      left := nodes[..k] + nodes[k + 1..];
      LeftItems(nodes, k);
      NotLeft(nodes, k);
      UnlinkAt(b, p, n, nodes, k);
    }
  }

  /** The loop: n is the first node with the key, or null, and *p the pointer that points to it. */
  method FindPlace(b: Bucket, key: nat, ghost nodes: seq<ListNode>)
    returns (p: ListNode?, n: ListNode?, ghost k: nat)
    requires IsChain(b.list, nodes)
    ensures k <= |nodes| && n == First(nodes[k..]) && p == Last(nodes[..k])
    ensures n != null ==> k < |nodes| && n == nodes[k] && n.item.key == key
    ensures Lookup(Items(nodes), key) == if n == null then None else Some(n.item.id)
  {
    p, n, k := null, b.list, 0;
    while n != null && n.item.key != key
      invariant 0 <= k <= |nodes|
      invariant n == First(nodes[k..]) && p == Last(nodes[..k])
      invariant forall j :: 0 <= j < k ==> nodes[j].item.key != key
      decreases |nodes| - k
    {
      assert n == nodes[k];
      p := n;
      n := n.next;
      k := k + 1;
    }
    LookupAt(Items(nodes), key, k);
  }

  lemma LeftItems(nodes: seq<ListNode>, k: nat)
    requires k < |nodes| && Distinct(Items(nodes))
    ensures Items(nodes[..k] + nodes[k + 1..]) == Without(Items(nodes), nodes[k].item.id)
  {
    WithoutAt(Items(nodes), k);
    assert Items(nodes[..k] + nodes[k + 1..]) == Items(nodes)[..k] + Items(nodes)[k + 1..];
  }

  lemma NotLeft(nodes: seq<ListNode>, k: nat)
    requires AllDifferent(nodes) && k < |nodes|
    ensures nodes[k] !in nodes[..k] + nodes[k + 1..]
  {
    var left := nodes[..k] + nodes[k + 1..];
    assert forall j :: 0 <= j < |left| ==> left[j] == nodes[if j < k then j else j + 1];
  }

  /** *p = n->next */
  method UnlinkAt(b: Bucket, p: ListNode?, n: ListNode, ghost nodes: seq<ListNode>, ghost k: nat)
    requires IsChain(b.list, nodes) && k < |nodes| && n == nodes[k] && p == Last(nodes[..k])
    modifies b`list, nodes
    ensures IsChain(b.list, nodes[..k] + nodes[k + 1..])
  {
    ghost var left := nodes[..k] + nodes[k + 1..];
    assert forall j :: 0 <= j < |left| ==> left[j] == nodes[if j < k then j else j + 1];
    assert k > 0 ==> p == nodes[k - 1];
    assert n.next == if k + 1 < |nodes| then nodes[k + 1] else null;
    if p == null { b.list := n.next; } else { p.next := n.next; }
  }

  /** A search stops at the first node with the key. */
  lemma {:induction false} LookupAt(chain: seq<Node>, key: nat, k: nat)
    requires k <= |chain| && forall j :: 0 <= j < k ==> chain[j].key != key
    requires k < |chain| ==> chain[k].key == key
    ensures Lookup(chain, key) == if k < |chain| then Some(chain[k].id) else None
  {
    if k > 0 {
      LookupAt(chain[1..], key, k - 1);
    }
  }

  lemma {:induction false} WithoutAt(chain: seq<Node>, k: nat)
    requires k < |chain| && forall j :: 0 <= j < k ==> chain[j].id != chain[k].id
    ensures Without(chain, chain[k].id) == chain[..k] + chain[k + 1..]
  {
    if k > 0 {
      var tail := chain[1..];
      WithoutAt(tail, k - 1);
      assert tail[..k - 1] == chain[1..k] && tail[k..] == chain[k + 1..];
      assert [chain[0]] + chain[1..k] == chain[..k];
    }
  }
}
