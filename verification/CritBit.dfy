/**
  Crit-bit trees as values: what the tree of the map examples holds, what its operations make
  of it, and why a tree of positions of differing bits is a sorted finite map.
 */
module CritBit {
  import opened HashPath
  import opened NextPow

  /** An empty map is a single leaf without a key. */
  datatype Tree = Leaf(key: nat, value: nat) | Node(diff: nat, zero: Tree, one: Tree)

  const EMPTY: Tree := Leaf(0, 0)

  /** Keys are 64-bit numbers; 0 marks the entry of an empty map. */
  predicate IsKey(k: nat)
  {
    0 < k < 0x1_0000_0000_0000_0000
  }

  // ---------- bits ----------

  /** a ^ b */
  function Xor(a: nat, b: nat): nat
  {
    if a == 0 && b == 0 then 0 else 2 * Xor(a / 2, b / 2) + (if a % 2 != b % 2 then 1 else 0)
  }

  lemma {:induction false} XorDiffers(a: nat, b: nat)
    requires a != b
    ensures Xor(a, b) > 0
  {
    if a / 2 != b / 2 {
      XorDiffers(a / 2, b / 2);
    }
  }

  /** find_crit_bit: the most significant bit in which two keys differ. */
  function Crit(a: nat, b: nat): nat
    requires a != b
  {
    XorDiffers(a, b);
    Log2(Xor(a, b))
  }

  lemma {:induction false} XorSame(a: nat)
    ensures Xor(a, a) == 0
  {
    if a > 0 {
      XorSame(a / 2);
    }
  }

  lemma ShiftedOnce(a: nat)
    ensures Shifted(a, 1) == a / 2
  {
    assert Shifted(a / 2, 0) == a / 2;
  }

  lemma {:induction false} CritDiffers(a: nat, b: nat)
    requires a != b
    ensures Bit(a, Crit(a, b)) != Bit(b, Crit(a, b))
    ensures Shifted(a, Crit(a, b) + 1) == Shifted(b, Crit(a, b) + 1)
  {
    if a / 2 == b / 2 {
      XorSame(a / 2);
      assert Xor(a, b) == 1;
      ShiftedOnce(a);
      ShiftedOnce(b);
    } else {
      CritDiffers(a / 2, b / 2);
      XorDiffers(a / 2, b / 2);
      assert Xor(a, b) / 2 == Xor(a / 2, b / 2);
      assert Crit(a, b) == 1 + Crit(a / 2, b / 2);
    }
  }

  lemma {:induction false} CritBelow(a: nat, b: nat, n: nat)
    requires a != b && a < Pow2(n) && b < Pow2(n)
    ensures Crit(a, b) < n
    decreases n
  {
    if a / 2 == b / 2 {
      XorSame(a / 2);
      assert Xor(a, b) == 1;
    } else {
      CritBelow(a / 2, b / 2, n - 1);
      XorDiffers(a / 2, b / 2);
      assert Xor(a, b) / 2 == Xor(a / 2, b / 2);
    }
  }

  /** Agreement above one bit is agreement above and at every higher bit. */
  lemma {:induction false} AgreeHigher(a: nat, b: nat, d: nat, c: nat)
    requires d < c && Shifted(a, d + 1) == Shifted(b, d + 1)
    ensures Bit(a, c) == Bit(b, c) && Shifted(a, c + 1) == Shifted(b, c + 1)
    decreases d
  {
    if d == 0 {
      assert Shifted(a, 1) == a / 2 && Shifted(b, 1) == b / 2;
    } else {
      AgreeHigher(a / 2, b / 2, d - 1, c - 1);
    }
  }

  lemma {:induction false} Smaller(a: nat, b: nat, d: nat)
    requires Shifted(a, d + 1) == Shifted(b, d + 1) && !Bit(a, d) && Bit(b, d)
    ensures a < b
    decreases d
  {
    if d == 0 {
      assert Shifted(a, 1) == a / 2 && Shifted(b, 1) == b / 2;
    } else {
      Smaller(a / 2, b / 2, d - 1);
    }
  }

  // ---------- validity ----------

  function Keys(t: Tree): set<nat>
  {
    match t
    case Leaf(k, _) => {k}
    case Node(_, l, r) => Keys(l) + Keys(r)
  }

  /** All keys have the same bits above d. */
  ghost predicate Agree(keys: set<nat>, d: nat)
  {
    forall a, b :: a in keys && b in keys ==> Shifted(a, d + 1) == Shifted(b, d + 1)
  }

  ghost predicate Side(keys: set<nat>, d: nat, one: bool)
  {
    forall k :: k in keys ==> Bit(k, d) == one
  }

  /** A crit-bit tree of keys: bit positions below hi, decreasing downwards. */
  ghost predicate Valid(t: Tree, hi: nat)
  {
    match t
    case Leaf(k, _) => IsKey(k)
    case Node(d, l, r) =>
      d < hi && Valid(l, d) && Valid(r, d) && Side(Keys(l), d, false) && Side(Keys(r), d, true) && Agree(Keys(t), d)
  }

  ghost predicate ValidMap(t: Tree)
  {
    t == EMPTY || Valid(t, 64)
  }

  lemma {:induction false} ValidHigher(t: Tree, lo: nat, hi: nat)
    requires Valid(t, lo) && lo <= hi
    ensures Valid(t, hi)
  {
  }

  lemma {:induction false} KeysRange(t: Tree, hi: nat)
    requires Valid(t, hi)
    ensures Keys(t) != {} && forall k :: k in Keys(t) ==> IsKey(k)
  {
    if t.Node? {
      KeysRange(t.zero, t.diff);
      KeysRange(t.one, t.diff);
    }
  }

  // ---------- the map ----------

  function Map(t: Tree): map<nat, nat>
  {
    match t
    case Leaf(k, v) => if k == 0 then map[] else map[k := v]
    case Node(_, l, r) => Map(l) + Map(r)
  }

  lemma {:induction false} MapKeys(t: Tree, hi: nat)
    requires Valid(t, hi)
    ensures Map(t).Keys == Keys(t)
  {
    if t.Node? {
      MapKeys(t.zero, t.diff);
      MapKeys(t.one, t.diff);
    }
  }

  /** The descent: the leaf that the bits of a key lead to. */
  function Down(t: Tree, k: nat): (leaf: Tree)
    ensures leaf.Leaf?
  {
    match t
    case Leaf(_, _) => t
    case Node(d, l, r) => Down(if Bit(k, d) then r else l, k)
  }

  lemma {:induction false} DownInKeys(t: Tree, k: nat)
    ensures Down(t, k).key in Keys(t)
  {
    if t.Node? {
      DownInKeys(if Bit(k, t.diff) then t.one else t.zero, k);
    }
  }

  /** get: the descent finds every key of the map, and no other. */
  function Get(t: Tree, k: nat): nat
  {
    if Down(t, k).key == k then Down(t, k).value else 0
  }

  lemma {:induction false} GetIsLookup(t: Tree, hi: nat, k: nat)
    requires Valid(t, hi)
    ensures k in Map(t) <==> Down(t, k).key == k
    ensures k in Map(t) ==> Map(t)[k] == Down(t, k).value
  {
    if t.Node? {
      GetIsLookup(t.zero, t.diff, k);
      GetIsLookup(t.one, t.diff, k);
      MapKeys(t.zero, t.diff);
      MapKeys(t.one, t.diff);
      DownInKeys(t, k);
    }
  }

  // ---------- insert ----------

  /** The leaf on the path of k replaced. */
  function SetLeaf(t: Tree, k: nat, leaf: Tree): Tree
  {
    match t
    case Leaf(_, _) => leaf
    case Node(d, l, r) => if Bit(k, d) then Node(d, l, SetLeaf(r, k, leaf)) else Node(d, SetLeaf(l, k, leaf), r)
  }

  /** insert_leaf: a new node above the first subtree on the path of k that splits below bit c. */
  function Graft(t: Tree, k: nat, v: nat, c: nat): Tree
  {
    if t.Leaf? || t.diff < c then
      if Bit(k, c) then Node(c, t, Leaf(k, v)) else Node(c, Leaf(k, v), t)
    else if Bit(k, t.diff) then Node(t.diff, t.zero, Graft(t.one, k, v, c))
    else Node(t.diff, Graft(t.zero, k, v, c), t.one)
  }

  function Insert(t: Tree, k: nat, v: nat): Tree
  {
    var j := Down(t, k).key;
    if j == 0 || j == k then SetLeaf(t, k, Leaf(k, v)) else Graft(t, k, v, Crit(j, k))
  }

  lemma MapUpdated(l: map<nat, nat>, r: map<nat, nat>, k: nat, v: nat)
    ensures k !in r ==> l[k := v] + r == (l + r)[k := v]
    ensures l + r[k := v] == (l + r)[k := v]
  {
  }

  lemma {:induction false} SetLeafKeys(t: Tree, k: nat, v: nat)
    requires Down(t, k).key == k
    ensures Keys(SetLeaf(t, k, Leaf(k, v))) == Keys(t)
  {
    if t.Node? {
      SetLeafKeys(if Bit(k, t.diff) then t.one else t.zero, k, v);
    }
  }

  lemma {:induction false} SetLeafValid(t: Tree, hi: nat, k: nat, v: nat)
    requires Valid(t, hi) && Down(t, k).key == k
    ensures Valid(SetLeaf(t, k, Leaf(k, v)), hi)
  {
    if t.Node? {
      SetLeafKeys(t, k, v);
      SetLeafKeys(if Bit(k, t.diff) then t.one else t.zero, k, v);
      SetLeafValid(if Bit(k, t.diff) then t.one else t.zero, t.diff, k, v);
    }
  }

  lemma {:induction false} SetLeafMap(t: Tree, hi: nat, k: nat, v: nat)
    requires Valid(t, hi) && Down(t, k).key == k
    ensures Map(SetLeaf(t, k, Leaf(k, v))) == Map(t)[k := v]
  {
    if t.Node? {
      SetLeafMap(if Bit(k, t.diff) then t.one else t.zero, t.diff, k, v);
      NotOnOtherSide(t, hi, k);
      MapUpdated(Map(t.zero), Map(t.one), k, v);
    }
  }

  lemma NotOnOtherSide(t: Tree, hi: nat, k: nat)
    requires Valid(t, hi) && t.Node?
    ensures k !in Map(if Bit(k, t.diff) then t.zero else t.one)
  {
    MapKeys(t.zero, t.diff);
    MapKeys(t.one, t.diff);
  }

  /** A key that first differs from those of t above their own differences. */
  lemma GraftHere(t: Tree, hi: nat, k: nat, j: nat, c: nat)
    requires Valid(t, hi) && (t.Leaf? || t.diff < c) && j in Keys(t) && j != k && c == Crit(j, k)
    ensures Valid(t, c) && Side(Keys(t), c, !Bit(k, c)) && Agree(Keys(t) + {k}, c) && k !in Keys(t)
  {
    CritDiffers(j, k);
    forall x | x in Keys(t) ensures Bit(x, c) == Bit(j, c) && Shifted(x, c + 1) == Shifted(k, c + 1) {
      if t.Node? {
        AgreeHigher(x, j, t.diff, c);
      }
    }
  }

  /** A node that splits above the first difference is passed, on the side of both keys. */
  lemma GraftPasses(t: Tree, hi: nat, k: nat, j: nat, c: nat)
    requires Valid(t, hi) && t.Node? && t.diff >= c
    requires j == Down(t, k).key != k && c == Crit(j, k)
    ensures c < t.diff && Bit(j, t.diff) == Bit(k, t.diff) && Agree(Keys(t) + {k}, t.diff)
  {
    CritDiffers(j, k);
    DownInKeys(t, k);
    DownInKeys(if Bit(k, t.diff) then t.one else t.zero, k);
    AgreeHigher(j, k, c, t.diff);
  }

  lemma {:induction false} GraftKeys(t: Tree, k: nat, v: nat, c: nat)
    ensures Keys(Graft(t, k, v, c)) == Keys(t) + {k}
  {
    if t.Node? && t.diff >= c {
      GraftKeys(if Bit(k, t.diff) then t.one else t.zero, k, v, c);
    }
  }

  lemma {:induction false} GraftValid(t: Tree, hi: nat, k: nat, v: nat, j: nat, c: nat)
    requires Valid(t, hi) && IsKey(k) && j == Down(t, k).key != k && c == Crit(j, k) < hi
    ensures Valid(Graft(t, k, v, c), hi)
  {
    GraftKeys(t, k, v, c);
    if t.Leaf? || t.diff < c {
      DownInKeys(t, k);
      GraftHere(t, hi, k, j, c);
    } else {
      GraftPasses(t, hi, k, j, c);
      var side := if Bit(k, t.diff) then t.one else t.zero;
      GraftKeys(side, k, v, c);
      GraftValid(side, t.diff, k, v, j, c);
    }
  }

  lemma {:induction false} GraftMap(t: Tree, hi: nat, k: nat, v: nat, j: nat, c: nat)
    requires Valid(t, hi) && IsKey(k) && j == Down(t, k).key != k && c == Crit(j, k)
    ensures Map(Graft(t, k, v, c)) == Map(t)[k := v]
  {
    if t.Leaf? || t.diff < c {
      DownInKeys(t, k);
      GraftHere(t, hi, k, j, c);
      MapKeys(t, hi);
      assert map[k := v] + Map(t) == Map(t)[k := v] == Map(t) + map[k := v];
    } else {
      GraftPasses(t, hi, k, j, c);
      GraftMap(if Bit(k, t.diff) then t.one else t.zero, t.diff, k, v, j, c);
      NotOnOtherSide(t, hi, k);
      MapUpdated(Map(t.zero), Map(t.one), k, v);
    }
  }

  /** insert: the map with the key added, in a tree that is still valid. */
  lemma InsertRefines(t: Tree, k: nat, v: nat)
    requires ValidMap(t) && IsKey(k)
    ensures Valid(Insert(t, k, v), 64) && Map(Insert(t, k, v)) == Map(t)[k := v]
  {
    if t != EMPTY {
      KeysRange(t, 64);
      DownInKeys(t, k);
      var j := Down(t, k).key;
      if j == k {
        SetLeafValid(t, 64, k, v);
        SetLeafMap(t, 64, k, v);
      } else {
        Pow2Of63();
        CritBelow(j, k, 64);
        GraftValid(t, 64, k, v, j, Crit(j, k));
        GraftMap(t, 64, k, v, j, Crit(j, k));
      }
    }
  }

  // ---------- remove ----------

  /** remove: the node above the leaf of the key gives way to the other subtree. */
  function Remove(t: Tree, k: nat): Tree
  {
    match t
    case Leaf(j, _) => if j == k then EMPTY else t
    case Node(d, l, r) =>
      if Bit(k, d) then (if r.Leaf? then (if r.key == k then l else t) else Node(d, l, Remove(r, k)))
      else (if l.Leaf? then (if l.key == k then r else t) else Node(d, Remove(l, k), r))
  }

  lemma {:induction false} RemoveValid(t: Tree, hi: nat, k: nat)
    requires Valid(t, hi) && t.Node?
    ensures Valid(Remove(t, k), hi) && Keys(Remove(t, k)) == Keys(t) - {k}
  {
    var d, side := t.diff, if Bit(k, t.diff) then t.one else t.zero;
    if side.Leaf? {
      ValidHigher(t.zero, d, hi);
      ValidHigher(t.one, d, hi);
    } else {
      RemoveValid(side, d, k);
    }
  }

  lemma {:induction false} RemoveMap(t: Tree, hi: nat, k: nat)
    requires Valid(t, hi) && t.Node?
    ensures Map(Remove(t, k)) == Map(t) - {k}
  {
    var side := if Bit(k, t.diff) then t.one else t.zero;
    NotOnOtherSide(t, hi, k);
    MapRemoved(Map(t.zero), Map(t.one), k);
    if side.Node? {
      RemoveMap(side, t.diff, k);
    }
  }

  lemma MapRemoved(l: map<nat, nat>, r: map<nat, nat>, k: nat)
    ensures k !in r ==> (l - {k}) + r == (l + r) - {k}
    ensures k !in l ==> l + (r - {k}) == (l + r) - {k}
    ensures k !in l && k !in r ==> (l + r) - {k} == l + r
  {
  }

  /** remove: the map without the key, in a tree that is still valid. */
  lemma RemoveRefines(t: Tree, k: nat)
    requires ValidMap(t) && k > 0
    ensures ValidMap(Remove(t, k)) && Map(Remove(t, k)) == Map(t) - {k}
  {
    if t.Node? {
      RemoveValid(t, 64, k);
      RemoveMap(t, 64, k);
    }
  }

  /** get: the value under the key, 0 if there is none. */
  lemma GetRefines(t: Tree, k: nat)
    requires ValidMap(t) && k > 0
    ensures Get(t, k) == if k in Map(t) then Map(t)[k] else 0
  {
    if t != EMPTY {
      GetIsLookup(t, 64, k);
    }
  }

  // ---------- order and size ----------

  /** foreach_node: the leaves from left to right. */
  function InOrder(t: Tree): seq<(nat, nat)>
  {
    match t
    case Leaf(k, v) => [(k, v)]
    case Node(_, l, r) => InOrder(l) + InOrder(r)
  }

  ghost predicate Ascending(s: seq<(nat, nat)>)
  {
    forall i, j :: 0 <= i < j < |s| ==> s[i].0 < s[j].0
  }

  lemma {:induction false} InOrderKeys(t: Tree)
    ensures forall p :: p in InOrder(t) ==> p.0 in Keys(t)
  {
    if t.Node? {
      InOrderKeys(t.zero);
      InOrderKeys(t.one);
    }
  }

  /** The leaves come in ascending order of the keys. */
  lemma {:induction false} InOrderAscends(t: Tree, hi: nat)
    requires Valid(t, hi)
    ensures Ascending(InOrder(t))
  {
    if t.Node? {
      var a, b := InOrder(t.zero), InOrder(t.one);
      InOrderAscends(t.zero, t.diff);
      InOrderAscends(t.one, t.diff);
      InOrderKeys(t.zero);
      InOrderKeys(t.one);
      forall i, j | 0 <= i < |a| && 0 <= j < |b| ensures a[i].0 < b[j].0 {
        assert a[i] in a && b[j] in b;
        Smaller(a[i].0, b[j].0, t.diff);
      }
    }
  }

  /** They are the entries of the map. */
  lemma {:induction false} InOrderIsMap(t: Tree, hi: nat)
    requires Valid(t, hi)
    ensures forall k, v :: (k, v) in InOrder(t) <==> k in Map(t) && Map(t)[k] == v
  {
    if t.Node? {
      InOrderIsMap(t.zero, t.diff);
      InOrderIsMap(t.one, t.diff);
      MapKeys(t.zero, t.diff);
      MapKeys(t.one, t.diff);
      forall k, v ensures (k, v) in InOrder(t) <==> k in Map(t) && Map(t)[k] == v {
        NotOnOtherSide(t, hi, k);
      }
    }
  }

  function Leaves(t: Tree): nat
  {
    if t.Leaf? then 1 else Leaves(t.zero) + Leaves(t.one)
  }

  function Nodes(t: Tree): nat
  {
    if t.Leaf? then 0 else 1 + Nodes(t.zero) + Nodes(t.one)
  }

  /** The number of hops of the descent for a key. */
  function Hops(t: Tree, k: nat): nat
  {
    if t.Leaf? then 0 else 1 + Hops(if Bit(k, t.diff) then t.one else t.zero, k)
  }

  /** A descent takes no more hops than there are bits; there is one node less than leaves. */
  lemma {:induction false} TreeSize(t: Tree, hi: nat, k: nat)
    requires Valid(t, hi)
    ensures Hops(t, k) <= hi
    ensures Leaves(t) == |InOrder(t)| == Nodes(t) + 1
  {
    if t.Node? {
      TreeSize(t.zero, t.diff, k);
      TreeSize(t.one, t.diff, k);
    }
  }
}
