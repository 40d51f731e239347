/**
  The crit-bit tree of the map examples on the heap: entries that are overwritten in place, nodes
  between them, and the memory they are allocated from. Each operation does to the heap what its
  counterpart in module CritBit does to the tree, and frees exactly what it unlinks, once.

  Values are pointers, numbered from 1; 0 is the null pointer.
 */
module CritBitHeap {
  import opened HashPath
  import opened CritBit

  class Entry {
    var key: nat
    var inode: Inner?
    var value: nat

    constructor (key: nat, inode: Inner?, value: nat)
      ensures this.key == key && this.inode == inode && this.value == value
    {
      this.key, this.inode, this.value := key, inode, value;
    }
  }

  /** An internal node; zero and one are its entries[0] and entries[1]. */
  class Inner {
    var diff: nat
    var zero: Entry?
    var one: Entry?

    constructor (diff: nat, zero: Entry?, one: Entry?)
      ensures this.diff == diff && this.zero == zero && this.one == one
    {
      this.diff, this.zero, this.one := diff, zero, one;
    }
  }

  // ---------- the objects of a tree and their fields ----------

  datatype Shape = SLeaf(e: Entry) | SNode(e: Entry, n: Inner, zero: Shape, one: Shape)

  datatype Fields = Fields(key: nat, inode: Inner?, value: nat)

  datatype Links = Links(diff: nat, zero: Entry?, one: Entry?)

  /** The fields of all objects. */
  datatype Heap = Heap(entries: map<Entry, Fields>, inners: map<Inner, Links>)

  ghost function Entries(s: Shape): set<Entry>
  {
    if s.SLeaf? then {s.e} else {s.e} + Entries(s.zero) + Entries(s.one)
  }

  ghost function Inners(s: Shape): set<Inner>
  {
    if s.SLeaf? then {} else {s.n} + Inners(s.zero) + Inners(s.one)
  }

  /** No object occurs twice. */
  ghost predicate Separate(s: Shape)
  {
    s.SNode? ==>
      && Separate(s.zero) && Separate(s.one)
      && Entries(s.zero) !! Entries(s.one) && s.e !in Entries(s.zero) && s.e !in Entries(s.one)
      && Inners(s.zero) !! Inners(s.one) && s.n !in Inners(s.zero) && s.n !in Inners(s.one)
  }

  /** The fields of the objects say what is in the tree; entries above a node hold no key and no value. */
  ghost predicate Holds(h: Heap, s: Shape, t: Tree)
  {
    match (s, t)
    case (SLeaf(e), Leaf(k, v)) => e in h.entries && h.entries[e] == Fields(k, null, v)
    case (SNode(e, n, z, o), Node(d, l, r)) =>
      && e in h.entries && h.entries[e] == Fields(0, n, 0)
      && n in h.inners && h.inners[n] == Links(d, z.e, o.e)
      && Holds(h, z, l) && Holds(h, o, r)
    case _ => false
  }

  ghost predicate Agrees(a: Heap, b: Heap, s: Shape)
  {
    && (forall e :: e in Entries(s) && e in a.entries ==> e in b.entries && b.entries[e] == a.entries[e])
    && (forall n :: n in Inners(s) && n in a.inners ==> n in b.inners && b.inners[n] == a.inners[n])
  }

  lemma {:induction false} Unchanged(a: Heap, b: Heap, s: Shape, t: Tree)
    requires Holds(a, s, t) && Agrees(a, b, s)
    ensures Holds(b, s, t)
  {
    if s.SNode? {
      Unchanged(a, b, s.zero, t.zero);
      Unchanged(a, b, s.one, t.one);
    }
  }

  lemma {:induction false} HoldsRoot(h: Heap, s: Shape, t: Tree)
    requires Holds(h, s, t)
    ensures s.e in Entries(s) && Entries(s) <= h.entries.Keys && Inners(s) <= h.inners.Keys
  {
    if s.SNode? {
      HoldsRoot(h, s.zero, t.zero);
      HoldsRoot(h, s.one, t.one);
    }
  }

  // ---------- the path of a key ----------

  /** The part of the tree on the side of k. */
  ghost function Below(s: Shape, t: Tree, k: nat): (r: (Shape, Tree))
    requires s.SNode? && t.Node?
    ensures r.1 < t && r.0 < s
  {
    if Bit(k, t.diff) then (s.one, t.one) else (s.zero, t.zero)
  }

  ghost function LeafOf(s: Shape, t: Tree, k: nat): Entry
    decreases t
  {
    if s.SLeaf? || t.Leaf? then s.e else var (z, u) := Below(s, t, k); LeafOf(z, u, k)
  }

  lemma {:induction false} SetLeafHolds(h: Heap, s: Shape, t: Tree, k: nat, j: nat, v: nat)
    requires Holds(h, s, t) && Separate(s)
    ensures LeafOf(s, t, k) in Entries(s)
    ensures Holds(Heap(h.entries[LeafOf(s, t, k) := Fields(j, null, v)], h.inners), s, SetLeaf(t, k, Leaf(j, v)))
    decreases t
  {
    if t.Node? {
      var (z, u) := Below(s, t, k);
      SetLeafHolds(h, z, u, k, j, v);
      var g := Heap(h.entries[LeafOf(s, t, k) := Fields(j, null, v)], h.inners);
      if Bit(k, t.diff) {
        Unchanged(h, g, s.zero, t.zero);
      } else {
        Unchanged(h, g, s.one, t.one);
      }
    }
  }

  // ---------- insert_leaf ----------

  /** The entry that becomes the parent of the new node. */
  ghost function StopOf(s: Shape, t: Tree, k: nat, c: nat): Entry
    decreases t
  {
    if s.SLeaf? || t.Leaf? || t.diff < c then s.e else var (z, u) := Below(s, t, k); StopOf(z, u, k, c)
  }

  ghost function Rerooted(s: Shape, e: Entry): Shape
  {
    if s.SLeaf? then SLeaf(e) else SNode(e, s.n, s.zero, s.one)
  }

  ghost function Grafted(s: Shape, t: Tree, k: nat, c: nat, n: Inner, leaf: Entry, copy: Entry): Shape
    decreases t
  {
    if s.SLeaf? || t.Leaf? || t.diff < c then
      if Bit(k, c) then SNode(s.e, n, Rerooted(s, copy), SLeaf(leaf)) else SNode(s.e, n, SLeaf(leaf), Rerooted(s, copy))
    else if Bit(k, t.diff) then SNode(s.e, s.n, s.zero, Grafted(s.one, t.one, k, c, n, leaf, copy))
    else SNode(s.e, s.n, Grafted(s.zero, t.zero, k, c, n, leaf, copy), s.one)
  }

  lemma {:induction false} GraftedObjects(s: Shape, t: Tree, k: nat, c: nat, n: Inner, leaf: Entry, copy: Entry)
    requires Separate(s) && leaf !in Entries(s) && copy !in Entries(s) && leaf != copy && n !in Inners(s)
    ensures var g := Grafted(s, t, k, c, n, leaf, copy);
            Separate(g) && g.e == s.e && Entries(g) == Entries(s) + {leaf, copy} && Inners(g) == Inners(s) + {n}
    decreases t
  {
    if s.SNode? && t.Node? && t.diff >= c {
      var (z, u) := Below(s, t, k);
      GraftedObjects(z, u, k, c, n, leaf, copy);
    }
  }

  /** The heap after insert_leaf. */
  ghost function GraftedHeap(h: Heap, stop: Entry, k: nat, v: nat, c: nat, n: Inner, leaf: Entry, copy: Entry): Heap
    requires stop in h.entries
  {
    Heap(h.entries[leaf := Fields(k, null, v)][copy := h.entries[stop]][stop := Fields(0, n, 0)],
         h.inners[n := if Bit(k, c) then Links(c, copy, leaf) else Links(c, leaf, copy)])
  }

  lemma {:induction false} StopInside(s: Shape, t: Tree, k: nat, c: nat)
    ensures StopOf(s, t, k, c) in Entries(s)
    decreases t
  {
    if s.SNode? && t.Node? && t.diff >= c {
      var (z, u) := Below(s, t, k);
      StopInside(z, u, k, c);
    }
  }

  lemma {:induction false} GraftHolds(h: Heap, s: Shape, t: Tree, k: nat, v: nat, c: nat, n: Inner, leaf: Entry, copy: Entry)
    requires Holds(h, s, t) && Separate(s)
    requires leaf !in h.entries && copy !in h.entries && leaf != copy && n !in h.inners
    requires StopOf(s, t, k, c) in h.entries
    ensures Holds(GraftedHeap(h, StopOf(s, t, k, c), k, v, c, n, leaf, copy), Grafted(s, t, k, c, n, leaf, copy), Graft(t, k, v, c))
    decreases t
  {
    HoldsRoot(h, s, t);
    var g := GraftedHeap(h, StopOf(s, t, k, c), k, v, c, n, leaf, copy);
    if t.Leaf? || t.diff < c {
      GraftHereHolds(h, g, s, t, copy);
    } else {
      var (z, u) := Below(s, t, k);
      GraftHolds(h, z, u, k, v, c, n, leaf, copy);
      HoldsRoot(h, s.zero, t.zero);
      HoldsRoot(h, s.one, t.one);
      GraftedObjects(z, u, k, c, n, leaf, copy);
      StopInside(z, u, k, c);
      if Bit(k, t.diff) {
        Unchanged(h, g, s.zero, t.zero);
      } else {
        Unchanged(h, g, s.one, t.one);
      }
    }
  }

  /** A subtree whose root was copied. */
  lemma GraftHereHolds(h: Heap, g: Heap, s: Shape, t: Tree, copy: Entry)
    requires Holds(h, s, t) && Separate(s) && s.e in h.entries
    requires copy in g.entries && g.entries[copy] == h.entries[s.e]
    requires forall e :: e in h.entries && e in Entries(s) && e != s.e ==> e in g.entries && g.entries[e] == h.entries[e]
    requires forall n :: n in h.inners ==> n in g.inners && g.inners[n] == h.inners[n]
    ensures Holds(g, Rerooted(s, copy), t)
  {
    if s.SNode? {
      Unchanged(h, g, s.zero, t.zero);
      Unchanged(h, g, s.one, t.one);
    }
  }

  // ---------- remove ----------

  /** The part of the tree whose root is the parent of the leaf of k, and its tree. */
  ghost function AboveLeaf(s: Shape, t: Tree, k: nat): (r: (Shape, Tree))
    requires s.SNode? && t.Node?
    ensures r.0.SNode? && r.1.Node?
    decreases t
  {
    var (z, u) := Below(s, t, k);
    if z.SLeaf? || u.Leaf? then (s, t) else AboveLeaf(z, u, k)
  }

  /** The sibling of the leaf of k. */
  ghost function Sibling(s: Shape, t: Tree, k: nat): Shape
    requires s.SNode? && t.Node?
  {
    var (a, u) := AboveLeaf(s, t, k);
    if Bit(k, u.diff) then a.zero else a.one
  }

  ghost function Pruned(s: Shape, t: Tree, k: nat): Shape
    requires s.SNode? && t.Node?
    decreases t
  {
    var (z, u) := Below(s, t, k);
    if z.SLeaf? || u.Leaf? then Rerooted(if Bit(k, t.diff) then s.zero else s.one, s.e)
    else if Bit(k, t.diff) then SNode(s.e, s.n, s.zero, Pruned(s.one, t.one, k))
    else SNode(s.e, s.n, Pruned(s.zero, t.zero, k), s.one)
  }

  /** The objects that remove unlinks. */
  lemma {:induction false} AboveInside(h: Heap, s: Shape, t: Tree, k: nat)
    requires Holds(h, s, t) && t.Node? && Separate(s)
    ensures var a := AboveLeaf(s, t, k).0;
            && a.e in Entries(s) && a.zero.e in Entries(s) - {s.e} && a.one.e in Entries(s) - {s.e} && a.n in Inners(s)
            && a.zero.e != a.one.e && a.e != a.zero.e && a.e != a.one.e
    decreases t
  {
    var (z, u) := Below(s, t, k);
    if u.Node? {
      AboveInside(h, z, u, k);
    } else {
      assert s.zero.e in Entries(s.zero) && s.one.e in Entries(s.one);
    }
  }

  /** remove unlinks the node above the leaf and its two entries. */
  lemma {:induction false} PrunedObjects(h: Heap, s: Shape, t: Tree, k: nat)
    requires Holds(h, s, t) && t.Node? && Separate(s)
    ensures var p, a := Pruned(s, t, k), AboveLeaf(s, t, k).0;
            && Separate(p) && p.e == s.e
            && Entries(p) == Entries(s) - {a.zero.e, a.one.e} && Inners(p) == Inners(s) - {a.n}
    decreases t
  {
    var (z, u) := Below(s, t, k);
    if u.Leaf? {
      PrunedHere(s, s.zero);
      PrunedHere(s, s.one);
    } else {
      var a := AboveLeaf(z, u, k).0;
      AboveInside(h, z, u, k);
      PrunedObjects(h, z, u, k);
      ReplacedChild(s, Bit(k, t.diff), Pruned(z, u, k), {a.zero.e, a.one.e}, {a.n});
    }
  }

  ghost function WithChild(s: Shape, one: bool, p: Shape): Shape
    requires s.SNode?
  {
    if one then SNode(s.e, s.n, s.zero, p) else SNode(s.e, s.n, p, s.one)
  }

  lemma ReplacedChild(s: Shape, one: bool, p: Shape, e: set<Entry>, n: set<Inner>)
    requires s.SNode? && Separate(s) && Separate(p)
    requires var z := if one then s.one else s.zero;
             e <= Entries(z) && n <= Inners(z) && Entries(p) == Entries(z) - e && Inners(p) == Inners(z) - n
    ensures var r := WithChild(s, one, p);
            Separate(r) && Entries(r) == Entries(s) - e && Inners(r) == Inners(s) - n
  {
  }

  lemma PrunedHere(s: Shape, z: Shape)
    requires s.SNode? && Separate(s) && (z == s.zero || z == s.one)
    ensures z.e in Entries(z) && Separate(Rerooted(z, s.e))
    ensures Entries(Rerooted(z, s.e)) == Entries(z) - {z.e} + {s.e} && Inners(Rerooted(z, s.e)) == Inners(z)
  {
  }

  lemma {:induction false} RemoveHolds(h: Heap, s: Shape, t: Tree, k: nat)
    requires Holds(h, s, t) && Separate(s) && t.Node? && Down(t, k).key == k
    requires AboveLeaf(s, t, k).0.e in h.entries && Sibling(s, t, k).e in h.entries
    ensures Holds(Heap(h.entries[AboveLeaf(s, t, k).0.e := h.entries[Sibling(s, t, k).e]], h.inners), Pruned(s, t, k), Remove(t, k))
    decreases t
  {
    var a := AboveLeaf(s, t, k).0;
    var sibling := Sibling(s, t, k);
    var g := Heap(h.entries[a.e := h.entries[sibling.e]], h.inners);
    var (z, u) := Below(s, t, k);
    HoldsRoot(h, s, t);
    if u.Leaf? {
      GraftHereHolds(h, g, sibling, if Bit(k, t.diff) then t.zero else t.one, s.e);
    } else {
      RemoveHolds(h, z, u, k);
      AboveInside(h, z, u, k);
      PrunedObjects(h, z, u, k);
      if Bit(k, t.diff) {
        Unchanged(h, g, s.zero, t.zero);
      } else {
        Unchanged(h, g, s.one, t.one);
      }
    }
  }

  // ---------- the map ----------

  /** The objects of a shape are all there is, and they hold a tree. */
  ghost predicate Represents(h: Heap, root: Entry, s: Shape, t: Tree)
  {
    && s.e == root && Separate(s) && Entries(s) == h.entries.Keys && Inners(s) == h.inners.Keys
    && Holds(h, s, t)
  }

  lemma SetLeafRepresents(h: Heap, root: Entry, s: Shape, t: Tree, k: nat, j: nat, v: nat)
    requires Represents(h, root, s, t)
    ensures Represents(Heap(h.entries[LeafOf(s, t, k) := Fields(j, null, v)], h.inners), root, s, SetLeaf(t, k, Leaf(j, v)))
  {
    SetLeafHolds(h, s, t, k, j, v);
  }

  lemma GraftRepresents(h: Heap, root: Entry, s: Shape, t: Tree, k: nat, v: nat, c: nat, n: Inner, leaf: Entry, copy: Entry)
    returns (g: Shape)
    requires Represents(h, root, s, t)
    requires leaf !in h.entries && copy !in h.entries && leaf != copy && n !in h.inners
    ensures StopOf(s, t, k, c) in h.entries
    ensures Represents(GraftedHeap(h, StopOf(s, t, k, c), k, v, c, n, leaf, copy), root, g, Graft(t, k, v, c))
  {
    g := Grafted(s, t, k, c, n, leaf, copy);
    StopInside(s, t, k, c);
    GraftHolds(h, s, t, k, v, c, n, leaf, copy);
    GraftedObjects(s, t, k, c, n, leaf, copy);
  }

  /** The heap after remove. */
  ghost function PrunedHeap(h: Heap, a: Shape, sibling: Entry): Heap
    requires a.SNode? && sibling in h.entries
  {
    Heap(h.entries[a.e := h.entries[sibling]] - {a.zero.e, a.one.e}, h.inners - {a.n})
  }

  lemma RemoveRepresents(h: Heap, root: Entry, s: Shape, t: Tree, k: nat) returns (p: Shape)
    requires Represents(h, root, s, t) && t.Node? && Down(t, k).key == k
    ensures Sibling(s, t, k).e in h.entries
    ensures AboveLeaf(s, t, k).0.zero.e != AboveLeaf(s, t, k).0.one.e
    ensures Represents(PrunedHeap(h, AboveLeaf(s, t, k).0, Sibling(s, t, k).e), root, p, CritBit.Remove(t, k))
  {
    p := Pruned(s, t, k);
    var a := AboveLeaf(s, t, k).0;
    AboveInside(h, s, t, k);
    PrunedObjects(h, s, t, k);
    RemoveHolds(h, s, t, k);
    var g := Heap(h.entries[a.e := h.entries[Sibling(s, t, k).e]], h.inners);
    Unchanged(g, PrunedHeap(h, a, Sibling(s, t, k).e), Pruned(s, t, k), CritBit.Remove(t, k));
  }

  ghost function Pointer(v: nat): multiset<nat>
  {
    if v == 0 then multiset{} else multiset{v}
  }

  /** The pointers to values in a tree. */
  ghost function Values(t: Tree): multiset<nat>
  {
    match t
    case Leaf(_, v) => Pointer(v)
    case Node(_, l, r) => Values(l) + Values(r)
  }

  /** How often a list has the value v. */
  function Count(kvs: seq<(nat, nat)>, v: nat): nat
  {
    if kvs == [] then 0 else (if kvs[0].1 == v then 1 else 0) + Count(kvs[1..], v)
  }

  lemma {:induction false} CountJoin(a: seq<(nat, nat)>, b: seq<(nat, nat)>, v: nat)
    ensures Count(a + b, v) == Count(a, v) + Count(b, v)
  {
    if a == [] {
      assert a + b == b;
    } else {
      CountJoin(a[1..], b, v);
      assert (a + b)[0] == a[0] && (a + b)[1..] == a[1..] + b;
    }
  }

  /** The values of a tree are those that the traversal finds, null left out, each as often. */
  lemma {:induction false} ValuesInOrder(t: Tree, v: nat)
    ensures Values(t)[v] == if v == 0 then 0 else Count(InOrder(t), v)
  {
    match t
    case Leaf(k, w) => assert [(k, w)][1..] == [];
    case Node(_, l, r) =>
      ValuesInOrder(l, v);
      ValuesInOrder(r, v);
      CountJoin(InOrder(l), InOrder(r), v);
  }

  ghost function Snapshot(entries: set<Entry>, inners: set<Inner>): Heap
    reads entries, inners
  {
    Heap(map e | e in entries :: Fields(e.key, e.inode, e.value), map n | n in inners :: Links(n.diff, n.zero, n.one))
  }

  class CTree {
    var root: Entry
    // the allocations
    var entries: set<Entry>
    var inners: set<Inner>
    var deleted: multiset<nat>    // the values deleted so far

    ghost var shape: Shape
    ghost var tree: Tree
    ghost var history: seq<Op>

    ghost function Now(): Heap
      reads this`entries, this`inners, entries, inners
    {
      Snapshot(entries, inners)
    }

    /** The objects of the tree are all that is allocated, and they hold the tree. */
    ghost predicate Sound()
      reads this`root, this`entries, this`inners, this`shape, this`tree, entries, inners
    {
      var fits := Represents(Now(), root, shape, tree);
      fits
    }

    /** The tree is what its history made. */
    ghost predicate Valid()
      reads this`root, this`entries, this`inners, this`shape, this`tree, this`history, entries, inners
    {
      Sound() && tree == Replay(history)
    }

    constructor ()
      ensures Valid() && history == [] && deleted == multiset{} && fresh(entries) && fresh(inners)
    {
      root := new Entry(0, null, 0);
      entries, inners, deleted := {root}, {}, multiset{};
      shape, tree, history := SLeaf(root), EMPTY, [];
    }

    /** The descents of insert and get_leaf. */
    method Descend(key: nat) returns (leaf: Entry, parent: Entry?)
      requires Sound()
      ensures leaf == LeafOf(shape, tree, key) && leaf in entries
      ensures Fields(leaf.key, leaf.inode, leaf.value) == Fields(Down(tree, key).key, null, Down(tree, key).value)
      ensures parent == null <==> tree.Leaf?
      ensures parent != null ==> parent == AboveLeaf(shape, tree, key).0.e
    {
      leaf, parent := root, null;
      ghost var s, t := shape, tree;
      HoldsRoot(Now(), s, t);
      while leaf.inode != null
        invariant leaf == s.e && leaf in entries && Holds(Now(), s, t) && Entries(s) <= entries && Inners(s) <= inners
        invariant Down(t, key) == Down(tree, key) && LeafOf(s, t, key) == LeafOf(shape, tree, key)
        invariant t == tree || t < tree
        invariant parent == null <==> t == tree
        invariant t.Node? ==> AboveLeaf(s, t, key) == AboveLeaf(shape, tree, key)
        invariant t.Leaf? && t != tree ==> parent == AboveLeaf(shape, tree, key).0.e
        decreases t
      {
        var n := leaf.inode;
        parent := leaf;
        assert Now().entries[leaf] == Fields(leaf.key, leaf.inode, leaf.value);
        assert Now().inners[n] == Links(n.diff, n.zero, n.one);
        leaf := if Bit(key, n.diff) then n.one else n.zero;
        ghost var below := Below(s, t, key);
        s, t := below.0, below.1;
        HoldsRoot(Now(), s, t);
      }
      assert Now().entries[leaf] == Fields(leaf.key, leaf.inode, leaf.value);
    }

    // new and delete; only what is allocated can be deleted

    method NewEntry(key: nat, inode: Inner?, value: nat) returns (e: Entry)
      modifies this`entries
      ensures fresh(e) && entries == old(entries) + {e}
      ensures Now() == Heap(old(Now()).entries[e := Fields(key, inode, value)], old(Now()).inners)
    {
      e := new Entry(key, inode, value);
      entries := entries + {e};
    }

    method NewInner(diff: nat, zero: Entry, one: Entry) returns (n: Inner)
      modifies this`inners
      ensures fresh(n) && inners == old(inners) + {n}
      ensures Now() == Heap(old(Now()).entries, old(Now()).inners[n := Links(diff, zero, one)])
    {
      n := new Inner(diff, zero, one);
      inners := inners + {n};
    }

    method SetEntry(e: Entry, key: nat, inode: Inner?, value: nat)
      requires e in entries
      modifies e
      ensures Now() == Heap(old(Now()).entries[e := Fields(key, inode, value)], old(Now()).inners)
    {
      e.key, e.inode, e.value := key, inode, value;
    }

    method DeleteEntry(e: Entry)
      requires e in entries
      modifies this`entries
      ensures entries == old(entries) - {e}
      ensures Now() == Heap(old(Now()).entries - {e}, old(Now()).inners)
    {
      entries := entries - {e};
    }

    method DeleteInner(n: Inner)
      requires n in inners
      modifies this`inners
      ensures inners == old(inners) - {n}
      ensures Now() == Heap(old(Now()).entries, old(Now()).inners - {n})
    {
      inners := inners - {n};
    }

    method DeleteValue(v: nat)
      modifies this`deleted
      ensures deleted == old(deleted) + Pointer(v)
    {
      if v != 0 {
        deleted := deleted + multiset{v};
      }
    }

    /** insert: a value that it replaces is deleted. */
    method Insert(key: nat, value: nat)
      requires Valid() && IsKey(key)
      modifies this`entries, this`inners, this`deleted, this`shape, this`tree, this`history, entries
      ensures Valid() && history == old(history) + [Put(key, value)]
      ensures deleted == old(deleted) + Pointer(CritBit.Get(old(tree), key))
      ensures fresh(entries - old(entries)) && fresh(inners - old(inners))
    {
      DownReplayed(history, key);
      ReplayStep(history, Put(key, value));
      PutEntry(key, value);
      history := history + [Put(key, value)];
    }

    method PutEntry(key: nat, value: nat)
      requires Sound()
      modifies this`entries, this`inners, this`deleted, this`shape, this`tree, entries
      ensures Sound() && tree == CritBit.Insert(old(tree), key, value)
      ensures var leaf := Down(old(tree), key);
        deleted == old(deleted) + (if leaf.key == 0 || leaf.key == key then Pointer(leaf.value) else multiset{})
      ensures fresh(entries - old(entries)) && fresh(inners - old(inners))
    {
      var dest, _ := Descend(key);
      var j := dest.key;
      if j == 0 || j == key {
        DeleteValue(dest.value);
        SetLeaf(dest, key, key, value);
        assert tree == CritBit.Insert(old(tree), key, value);
      } else {
        InsertLeaf(key, value, Crit(j, key));
        assert tree == CritBit.Insert(old(tree), key, value);
      }
    }

    method SetLeaf(dest: Entry, key: nat, j: nat, value: nat)
      requires Sound() && dest == LeafOf(shape, tree, key) && dest in entries
      modifies this`tree, entries
      ensures Sound() && tree == CritBit.SetLeaf(old(tree), key, Leaf(j, value))
    {
      SetLeafRepresents(Now(), root, shape, tree, key, j, value);
      SetEntry(dest, j, null, value);
      tree := CritBit.SetLeaf(tree, key, Leaf(j, value));
    }

    /** insert_leaf */
    method InsertLeaf(key: nat, value: nat, c: nat)
      requires Sound()
      modifies this`entries, this`inners, this`shape, this`tree, entries
      ensures Sound() && tree == Graft(old(tree), key, value, c)
      ensures fresh(entries - old(entries)) && fresh(inners - old(inners))
    {
      var dest := FindStop(key, c);
      ghost var g := GraftNode(dest, key, value, c);
      shape, tree := g, Graft(tree, key, value, c);
    }

    method GraftNode(dest: Entry, key: nat, value: nat, c: nat) returns (ghost g: Shape)
      requires Sound() && dest == StopOf(shape, tree, key, c) && dest in entries
      modifies this`entries, this`inners, entries
      ensures Represents(Now(), root, g, Graft(tree, key, value, c))
      ensures fresh(entries - old(entries)) && fresh(inners - old(inners))
    {
      ghost var h := Now();
      var node, leaf, copy := AddNode(dest, key, value, c);
      g := GraftRepresents(h, root, shape, tree, key, value, c, node, leaf, copy);
    }

    /** A new node below an entry, between a copy of the entry and a new leaf. */
    method AddNode(dest: Entry, key: nat, value: nat, c: nat) returns (node: Inner, leaf: Entry, copy: Entry)
      requires dest in entries
      modifies this`entries, this`inners, dest
      ensures fresh(node) && fresh(leaf) && fresh(copy) && leaf != copy
      ensures entries == old(entries) + {leaf, copy} && inners == old(inners) + {node}
      ensures Now() == GraftedHeap(old(Now()), dest, key, value, c, node, leaf, copy)
    {
      leaf := NewEntry(key, null, value);
      copy := NewEntry(dest.key, dest.inode, dest.value);
      if Bit(key, c) {
        node := NewInner(c, copy, leaf);
      } else {
        node := NewInner(c, leaf, copy);
      }
      SetEntry(dest, 0, node, 0);
    }

    /** The descent of insert_leaf */
    method FindStop(key: nat, c: nat) returns (dest: Entry)
      requires Sound()
      ensures dest == StopOf(shape, tree, key, c) && dest in entries
    {
      dest := root;
      ghost var s, t := shape, tree;
      HoldsRoot(Now(), s, t);
      while dest.inode != null
        invariant dest == s.e && dest in entries && Holds(Now(), s, t) && Entries(s) <= entries && Inners(s) <= inners
        invariant StopOf(s, t, key, c) == StopOf(shape, tree, key, c)
        decreases t
      {
        var n := dest.inode;
        assert Now().entries[dest] == Fields(dest.key, dest.inode, dest.value);
        assert Now().inners[n] == Links(n.diff, n.zero, n.one);
        if n.diff < c {
          break;
        }
        dest := if Bit(key, n.diff) then n.one else n.zero;
        ghost var below := Below(s, t, key);
        s, t := below.0, below.1;
        HoldsRoot(Now(), s, t);
      }
      assert Now().entries[dest] == Fields(dest.key, dest.inode, dest.value);
    }

    /** get */
    method Get(key: nat) returns (v: nat)
      requires Valid()
      ensures v == CritBit.Get(tree, key)
    {
      var leaf, _ := Descend(key);
      v := if leaf.key == key then leaf.value else 0;
    }

    /** remove: the node above the leaf and its two entries are freed, the value is handed over. */
    method Remove(key: nat) returns (v: nat)
      requires Valid() && IsKey(key)
      modifies this`entries, this`inners, this`shape, this`tree, this`history, entries
      ensures Valid() && history == old(history) + [Delete(key)] && v == CritBit.Get(old(tree), key)
      ensures entries <= old(entries) && inners <= old(inners)
    {
      ReplayStep(history, Delete(key));
      if tree.Node? && Down(tree, key).key == key {
        LastReplayed(Now(), shape, history, key);
      }
      v := TakeEntry(key);
      history := history + [Delete(key)];
    }

    method TakeEntry(key: nat) returns (v: nat)
      requires Sound() && (tree.Node? && Down(tree, key).key == key ==> Last(Now(), shape, tree, key))
      modifies this`entries, this`inners, this`shape, this`tree, entries
      ensures Sound() && tree == CritBit.Remove(old(tree), key) && v == CritBit.Get(old(tree), key)
      ensures entries <= old(entries) && inners <= old(inners)
    {
      var leaf, parent := Descend(key);
      v := 0;
      if leaf.key != key {
        RemoveMissing(tree, key);
      } else {
        v := leaf.value;
        if parent == null {
          SetLeaf(leaf, key, 0, 0);
        } else {
          RemoveNode(key, leaf, parent);
        }
      }
    }

    /** The part of remove below the root. */
    method RemoveNode(key: nat, leaf: Entry, parent: Entry)
      requires Sound() && tree.Node? && Down(tree, key).key == key && Last(Now(), shape, tree, key)
      requires leaf == LeafOf(shape, tree, key) && parent == AboveLeaf(shape, tree, key).0.e
      modifies this`entries, this`inners, this`shape, this`tree, entries
      ensures Sound() && tree == CritBit.Remove(old(tree), key)
      ensures entries <= old(entries) && inners <= old(inners)
    {
      ghost var p := PruneNode(key, leaf, parent);
      shape, tree := p, CritBit.Remove(tree, key);
    }

    method PruneNode(key: nat, leaf: Entry, parent: Entry) returns (ghost p: Shape)
      requires Sound() && tree.Node? && Down(tree, key).key == key && Last(Now(), shape, tree, key)
      requires leaf == LeafOf(shape, tree, key) && parent == AboveLeaf(shape, tree, key).0.e
      modifies this`entries, this`inners, entries
      ensures Represents(Now(), root, p, CritBit.Remove(tree, key))
      ensures entries <= old(entries) && inners <= old(inners)
    {
      p := RemoveRepresents(Now(), root, shape, tree, key);
      LastFields(key, leaf, parent);
      var n := parent.inode;
      var other := if n.zero.key == leaf.key then n.one else n.zero;
      Collapse(parent, n, n.zero, n.one, other);
    }

    /** What the fields around a leaf to be removed hold. */
    lemma LastFields(key: nat, leaf: Entry, parent: Entry)
      requires tree.Node? && shape.SNode? && Last(Now(), shape, tree, key)
      requires leaf == LeafOf(shape, tree, key) && parent == AboveLeaf(shape, tree, key).0.e
      ensures var (a, u) := AboveLeaf(shape, tree, key);
        && parent in entries && a.n in inners && a.zero.e in entries && a.one.e in entries
        && parent.inode == a.n && a.n.zero == a.zero.e && a.n.one == a.one.e
        && leaf.key == key && (a.zero.e.key == key <==> !Bit(key, u.diff))
    {
      var (a, u) := AboveLeaf(shape, tree, key);
      var h := Now();
      assert h.entries[parent] == Fields(parent.key, parent.inode, parent.value);
      assert h.inners[a.n] == Links(a.n.diff, a.n.zero, a.n.one);
      assert h.entries[a.zero.e] == Fields(a.zero.e.key, a.zero.e.inode, a.zero.e.value);
      assert h.entries[leaf] == Fields(leaf.key, leaf.inode, leaf.value);
    }

    /** An entry overwritten with one of the two below it; the node between them is freed with both. */
    method Collapse(parent: Entry, n: Inner, zero: Entry, one: Entry, other: Entry)
      requires parent in entries && zero in entries && one in entries && other in entries && n in inners && zero != one
      modifies this`entries, this`inners, parent
      ensures entries == old(entries) - {zero, one} && inners == old(inners) - {n}
      ensures Now() == Heap(old(Now()).entries[parent := old(Now()).entries[other]] - {zero, one}, old(Now()).inners - {n})
    {
      SetEntry(parent, other.key, other.inode, other.value);
      DeleteEntry(zero);
      DeleteEntry(one);
      DeleteInner(n);
    }

    /** entry::clear: frees what is below an entry and its value. */
    method ClearEntry(e: Entry, ghost s: Shape, ghost t: Tree)
      requires e == s.e && Separate(s) && Holds(Now(), s, t)
      modifies this`entries, this`inners, this`deleted
      ensures entries == old(entries) - (Entries(s) - {e}) && inners == old(inners) - Inners(s)
      ensures Now() == Without(old(Now()), Entries(s) - {e}, Inners(s))
      ensures deleted == old(deleted) + Values(t)
      decreases t, 3
    {
      HoldsRoot(Now(), s, t);
      assert Now().entries[e] == Fields(e.key, e.inode, e.value);
      if e.inode != null {
        ClearInner(e.inode, s, t);
      } else {
        WithoutNothing(Now());
        assert Entries(s) - {e} == {};
      }
      DeleteValue(e.value);
    }

    method ClearInner(n: Inner, ghost s: Shape, ghost t: Tree)
      requires s.SNode? && n == s.n && Separate(s) && Holds(Now(), s, t)
      modifies this`entries, this`inners, this`deleted
      ensures entries == old(entries) - (Entries(s) - {s.e}) && inners == old(inners) - Inners(s)
      ensures Now() == Without(old(Now()), Entries(s) - {s.e}, Inners(s))
      ensures deleted == old(deleted) + Values(t)
      decreases t, 2
    {
      WithoutTwice(Now(), Entries(s) - {s.e}, Inners(s) - {n}, {}, {n});
      ClearNode(n, s, t);
      DeleteInner(n);
    }

    /** node::clear: frees both entries of a node, with all that is below them. */
    method ClearNode(n: Inner, ghost s: Shape, ghost t: Tree)
      requires s.SNode? && n == s.n && Separate(s) && Holds(Now(), s, t)
      modifies this`entries, this`inners, this`deleted
      ensures entries == old(entries) - (Entries(s) - {s.e}) && inners == old(inners) - (Inners(s) - {n})
      ensures Now() == Without(old(Now()), Entries(s) - {s.e}, Inners(s) - {n})
      ensures deleted == old(deleted) + Values(t)
      decreases t, 1
    {
      ghost var h := Now();
      HoldsRoot(h, s, t);
      assert h.inners[n] == Links(n.diff, n.zero, n.one);
      if n.zero != null {
        ClearSide(n.zero, s.zero, t.zero);
      }
      UnchangedWithout(h, Entries(s.zero), Inners(s.zero), s.one, t.one);
      if n.one != null {
        ClearSide(n.one, s.one, t.one);
      }
      BelowRoot(s);
      WithoutTwice(h, Entries(s.zero), Inners(s.zero), Entries(s.one), Inners(s.one));
    }

    method ClearSide(e: Entry, ghost s: Shape, ghost t: Tree)
      requires e == s.e && Separate(s) && Holds(Now(), s, t)
      modifies this`entries, this`inners, this`deleted
      ensures entries == old(entries) - Entries(s) && inners == old(inners) - Inners(s)
      ensures Now() == Without(old(Now()), Entries(s), Inners(s))
      ensures deleted == old(deleted) + Values(t)
      decreases t, 4
    {
      HoldsRoot(Now(), s, t);
      ClearEntry(e, s, t);
      DeleteEntry(e);
    }

    /** clear: every entry but the root, every node and every value is freed once. */
    method Clear()
      requires Valid()
      modifies this`entries, this`inners, this`deleted, this`shape, this`tree, this`history, root
      ensures Valid() && history == old(history) + [DeleteAll] && entries == {root} && inners == {}
      ensures deleted == old(deleted) + Values(old(tree))
    {
      ReplayStep(history, DeleteAll);
      ClearBelow();
      DeleteValue(root.value);
      ClearRoot();
      shape, tree, history := SLeaf(root), EMPTY, history + [DeleteAll];
    }

    method ClearRoot()
      requires entries == {root} && inners == {}
      modifies root
      ensures Represents(Now(), root, SLeaf(root), EMPTY)
    {
      SetEntry(root, 0, null, 0);
      RootAlone(Now(), root);
    }

    /** The part of clear below the root. */
    method ClearBelow()
      requires Sound()
      modifies this`entries, this`inners, this`deleted
      ensures entries == {root} && inners == {}
      ensures deleted + Pointer(root.value) == old(deleted) + Values(tree)
    {
      HoldsRoot(Now(), shape, tree);
      assert Now().entries[root] == Fields(root.key, root.inode, root.value);
      if root.inode != null {
        ClearInner(root.inode, shape, tree);
      }
    }

    /** foreach_node, with a callback that notes what it is called with and returns 0 */
    method ForeachNode(e: Entry, ghost s: Shape, ghost t: Tree) returns (visited: seq<(nat, nat)>)
      requires e == s.e && Holds(Now(), s, t)
      ensures visited == InOrder(t)
      decreases t
    {
      HoldsRoot(Now(), s, t);
      assert Now().entries[e] == Fields(e.key, e.inode, e.value);
      if e.inode != null {
        var n := e.inode;
        assert Now().inners[n] == Links(n.diff, n.zero, n.one);
        var first := ForeachNode(n.zero, s.zero, t.zero);
        var second := ForeachNode(n.one, s.one, t.one);
        visited := first + second;
      } else {
        visited := [(e.key, e.value)];
      }
    }

    /** foreach: nothing is visited in a map that seems empty, else all leaves are. */
    method Foreach() returns (visited: seq<(nat, nat)>)
      requires Valid()
      ensures visited == if tree.Leaf? && tree.value == 0 then [] else InOrder(tree)
    {
      HoldsRoot(Now(), shape, tree);
      assert Now().entries[root] == Fields(root.key, root.inode, root.value);
      if root.value == 0 && root.inode == null {
        return [];
      }
      visited := ForeachNode(root, shape, tree);
    }
  }

  lemma RootAlone(h: Heap, root: Entry)
    requires h.entries.Keys == {root} && h.inners.Keys == {} && h.entries[root] == Fields(0, null, 0)
    ensures Represents(h, root, SLeaf(root), EMPTY)
  {
  }

  ghost function Without(h: Heap, e: set<Entry>, n: set<Inner>): Heap
  {
    Heap(h.entries - e, h.inners - n)
  }

  lemma WithoutNothing(h: Heap)
    ensures Without(h, {}, {}) == h
  {
  }

  lemma WithoutTwice(h: Heap, e: set<Entry>, n: set<Inner>, f: set<Entry>, m: set<Inner>)
    ensures Without(Without(h, e, n), f, m) == Without(h, e + f, n + m)
  {
  }

  lemma BelowRoot(s: Shape)
    requires s.SNode? && Separate(s)
    ensures Entries(s) - {s.e} == Entries(s.zero) + Entries(s.one) && Inners(s) - {s.n} == Inners(s.zero) + Inners(s.one)
  {
  }

  lemma UnchangedWithout(h: Heap, e: set<Entry>, n: set<Inner>, s: Shape, t: Tree)
    requires Holds(h, s, t) && e !! Entries(s) && n !! Inners(s)
    ensures Holds(Without(h, e, n), s, t)
  {
    Unchanged(h, Without(h, e, n), s, t);
  }

  // ---------- histories ----------

  datatype Op = Put(key: nat, value: nat) | Delete(key: nat) | DeleteAll

  function Applied(t: Tree, op: Op): Tree
  {
    match op
    case Put(k, v) => if IsKey(k) then CritBit.Insert(t, k, v) else t
    case Delete(k) => if IsKey(k) then CritBit.Remove(t, k) else t
    case DeleteAll => EMPTY
  }

  /** The tree that a sequence of operations makes. */
  function Replay(ops: seq<Op>): Tree
    decreases |ops|
  {
    if ops == [] then EMPTY else Applied(Replay(ops[..|ops| - 1]), ops[|ops| - 1])
  }

  lemma ReplayStep(ops: seq<Op>, op: Op)
    ensures Replay(ops + [op]) == Applied(Replay(ops), op)
  {
    assert (ops + [op])[..|ops|] == ops;
  }

  /** The same operations on a map. */
  function MapAfter(ops: seq<Op>): map<nat, nat>
    decreases |ops|
  {
    if ops == [] then map[]
    else
      var m := MapAfter(ops[..|ops| - 1]);
      match ops[|ops| - 1]
      case Put(k, v) => if IsKey(k) then m[k := v] else m
      case Delete(k) => if IsKey(k) then m - {k} else m
      case DeleteAll => map[]
  }

  /** After any operations the tree is a valid crit-bit tree of what a map would hold, and get finds that. */
  lemma {:induction false} HistoryRefines(ops: seq<Op>)
    ensures ValidMap(Replay(ops)) && Map(Replay(ops)) == MapAfter(ops)
    ensures forall k :: IsKey(k) ==> CritBit.Get(Replay(ops), k) == if k in MapAfter(ops) then MapAfter(ops)[k] else 0
    decreases |ops|
  {
    if ops != [] {
      var before := ops[..|ops| - 1];
      HistoryRefines(before);
      match ops[|ops| - 1]
      case Put(k, v) => if IsKey(k) { InsertRefines(Replay(before), k, v); }
      case Delete(k) => if IsKey(k) { RemoveRefines(Replay(before), k); }
      case DeleteAll =>
    }
    forall k | IsKey(k) ensures CritBit.Get(Replay(ops), k) == if k in MapAfter(ops) then MapAfter(ops)[k] else 0 {
      GetRefines(Replay(ops), k);
    }
  }

  /** The descent for a key that is not in the map ends at another key, or at the empty root. */
  lemma DownReplayed(ops: seq<Op>, k: nat)
    requires IsKey(k)
    ensures var leaf := Down(Replay(ops), k);
            Pointer(CritBit.Get(Replay(ops), k)) == if leaf.key == 0 || leaf.key == k then Pointer(leaf.value) else multiset{}
  {
    HistoryRefines(ops);
    var t := Replay(ops);
    if t != EMPTY {
      KeysRange(t, 64);
      DownInKeys(t, k);
    }
  }

  /** The leaf of k is one of the two entries of the node above it, and the other one has another key. */
  ghost predicate Last(h: Heap, s: Shape, t: Tree, k: nat)
    requires s.SNode? && t.Node?
  {
    var (a, u) := AboveLeaf(s, t, k);
    && a.e in h.entries && h.entries[a.e].inode == a.n && a.n in h.inners && h.inners[a.n] == Links(u.diff, a.zero.e, a.one.e)
    && a.zero.e in h.entries && a.one.e in h.entries
    && LeafOf(s, t, k) == (if Bit(k, u.diff) then a.one.e else a.zero.e)
    && h.entries[LeafOf(s, t, k)].key == k
    && (h.entries[a.zero.e].key == k <==> !Bit(k, u.diff))
  }

  lemma {:induction false} LastNode(h: Heap, s: Shape, t: Tree, hi: nat, k: nat)
    requires Holds(h, s, t) && CritBit.Valid(t, hi) && t.Node? && Down(t, k).key == k
    ensures Last(h, s, t, k)
    decreases t
  {
    var (z, u) := Below(s, t, k);
    if u.Node? {
      LastNode(h, z, u, t.diff, k);
    } else {
      HoldsRoot(h, s.zero, t.zero);
      HoldsRoot(h, s.one, t.one);
      DownInKeys(t, k);
      KeysRange(t, hi);
    }
  }

  lemma LastReplayed(h: Heap, s: Shape, ops: seq<Op>, k: nat)
    requires Holds(h, s, Replay(ops)) && Replay(ops).Node? && Down(Replay(ops), k).key == k
    ensures Last(h, s, Replay(ops), k)
  {
    HistoryRefines(ops);
    LastNode(h, s, Replay(ops), 64, k);
  }

  lemma {:induction false} RemoveMissing(t: Tree, k: nat)
    requires Down(t, k).key != k
    ensures CritBit.Remove(t, k) == t
  {
    if t.Node? {
      RemoveMissing(if Bit(k, t.diff) then t.one else t.zero, k);
    }
  }
}
