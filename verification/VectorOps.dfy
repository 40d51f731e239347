/**
  What the operations of the persistent vector mean: for its elements, its capacity and the cells of
  its array, which cells they track, and what an abort after a run of them leaves.
 */
module VectorOps {
  import opened UndoBasics

  /** k elements after a gap of count cells at idx were moved down into it. */
  ghost predicate Closed<T>(gone: T -> T, was: seq<T>, c: seq<T>, idx: nat, count: nat, k: nat)
  {
    && |c| == |was| && idx + count + k <= |c|
    && (forall i :: 0 <= i < idx ==> c[i] == was[i])
    && (forall i :: idx <= i < idx + k ==> c[i] == was[i + count])
    && (forall i :: idx + k <= i < |c| ==> c[i] == if idx + count <= i < idx + count + k then gone(was[i]) else was[i])
  }

  lemma ClosedStep<T>(gone: T -> T, was: seq<T>, c: seq<T>, idx: nat, count: nat, k: nat)
    requires Closed(gone, was, c, idx, count, k) && 0 < count && idx + count + k < |c|
    ensures var x := c[idx + count + k];
      Closed(gone, was, c[idx + k := x][idx + count + k := gone(x)], idx, count, k + 1)
  {
  }

  lemma ClosedSlices<T>(gone: T -> T, was: seq<T>, c: seq<T>, idx: nat, count: nat, n: nat)
    requires idx + count <= n && Closed(gone, was, c, idx, count, n - idx - count)
    ensures c[..n - count] == was[..n][..idx] + was[..n][idx + count..]
    ensures c[n - count..] == Spoiled(gone, was, idx + count, n)[n - count..]
  {
  }

  lemma AppendStep<T>(data: seq<T>, had: seq<T>, from: seq<T>, dest: nat, lo: nat, k: nat)
    requires dest + k < |data| && lo + k < |from| && |had| == dest
    requires data[..dest + k] == had + from[lo..lo + k]
    ensures data[dest + k := from[lo + k]][..dest + (k + 1)] == had + from[lo..lo + (k + 1)]
  {
    assert data[dest + k := from[lo + k]][..dest + k + 1] == data[..dest + k] + [from[lo + k]];
  }

  /** c with the elements from lo up to hi moved from. */
  function Spoiled<T>(gone: T -> T, c: seq<T>, lo: nat, hi: nat): (r: seq<T>)
    requires lo <= hi <= |c|
    ensures |r| == |c|
  {
    seq(|c|, i requires 0 <= i < |c| => if lo <= i < hi then gone(c[i]) else c[i])
  }

  lemma SpoiledTwice<T>(gone: T -> T, c: seq<T>, lo: nat, mid: nat, hi: nat)
    requires lo <= mid <= hi <= |c|
    ensures Spoiled(gone, c, lo, mid)[mid..hi] == c[mid..hi]
    ensures Spoiled(gone, Spoiled(gone, c, lo, mid), mid, hi) == Spoiled(gone, c, lo, hi)
  {
  }

  lemma SpoiledStep<T>(gone: T -> T, c: seq<T>, lo: nat, k: nat)
    requires lo <= k < |c|
    ensures Spoiled(gone, c, lo, k)[k] == c[k]
    ensures Spoiled(gone, c, lo, k)[k := gone(c[k])] == Spoiled(gone, c, lo, k + 1)
  {
  }

  function Inserted<T>(gone: T -> T, c: seq<T>, idx: nat, items: seq<T>): seq<T>
    requires idx <= |c|
  {
    if items == [] then c[..idx] + Moved(gone, c[idx..]) else c[..idx] + items + c[idx..]
  }

  lemma InsertedSlices<T>(gone: T -> T, was: seq<T>, c: seq<T>, end: seq<T>, idx: nat, n: nat, items: seq<T>)
    requires idx <= n <= n + |items| <= |was| == |c|
    requires c[..idx] == was[..idx]
    requires |items| > 0 ==> c[idx + |items|..n + |items|] == was[idx..n]
    requires |items| == 0 ==> c[idx..n] == Moved(gone, was[idx..n])
    requires end == c[..idx] + items + c[idx + |items|..]
    ensures end[..n + |items|] == Inserted(gone, was[..n], idx, items) && end[n + |items|..] == c[n + |items|..]
  {
    assert end[..n + |items|] == c[..idx] + items + c[idx + |items|..n + |items|];
    assert was[..n][..idx] == was[..idx] && was[..n][idx..] == was[idx..n];
  }

  /** What is left of elements that were moved onto themselves. */
  function Moved<T>(gone: T -> T, c: seq<T>): seq<T>
  {
    seq(|c|, i requires 0 <= i < |c| => gone(c[i]))
  }

  /** The elements from last up to size were moved up by count cells. */
  ghost predicate Lifted<T>(gone: T -> T, was: seq<T>, c: seq<T>, last: nat, size: nat, count: nat)
  {
    && |c| == |was| && last <= size <= size + count <= |c|
    && (forall i :: 0 <= i < last ==> c[i] == was[i])
    && (forall i :: last + count <= i < size + count ==> c[i] == if count == 0 then gone(was[i]) else was[i - count])
    && (forall i :: size + count <= i < |c| ==> c[i] == was[i])
  }

  lemma LiftedStep<T>(gone: T -> T, was: seq<T>, c: seq<T>, last: nat, size: nat, count: nat)
    requires Lifted(gone, was, c, last + 1, size, count)
    ensures Lifted(gone, was, c[last + count := c[last]][last := gone(c[last])], last, size, count)
  {
  }

  lemma LiftedSlices<T>(gone: T -> T, was: seq<T>, c: seq<T>, idx: nat, size: nat, count: nat)
    requires Lifted(gone, was, c, idx, size, count)
    ensures c[..idx] == was[..idx]
    ensures count > 0 ==> c[idx + count..size + count] == was[idx..size]
    ensures count == 0 ==> c[idx..size] == Moved(gone, was[idx..size])
    ensures c[size + count..] == was[size + count..]
  {
  }

  /** What is in the array when the gap is filled. */
  lemma GapFilled<T>(gone: T -> T, was: seq<T>, c: seq<T>, end: seq<T>, idx: nat, n: nat, items: seq<T>)
    requires Lifted(gone, was, c, idx, n, |items|) && end == Overwritten(c, idx, items)
    ensures end[..n + |items|] == Inserted(gone, was[..n], idx, items) && end[n + |items|..] == was[n + |items|..]
  {
    LiftedSlices(gone, was, c, idx, n, |items|);
    InsertedSlices(gone, was, c, end, idx, n, items);
  }

  // ---------- what the operations mean ----------

  datatype Op<T> =
    | Insert(idx: nat, items: seq<T>)
    | Erase(idx: nat, count: nat)
    | Assign(items: seq<T>)
    | EmplaceBack(v: T)
    | PopBack
    | Clear
    | Resize(n: nat, blank: T)
    | Reserve(n: nat)
    | ShrinkToFit
    | FreeData

  /** The iterators lie in a vector of n elements and the new size can exist. */
  predicate Legal<T>(op: Op<T>, n: nat)
  {
    match op
    case Insert(idx, items) => idx <= n && Possible(n + |items|)
    case Erase(idx, count) => idx + count <= n
    case EmplaceBack(_) => Possible(n + 1)
    case _ => true
  }

  function After<T>(gone: T -> T, op: Op<T>, c: seq<T>): (r: seq<T>)
    requires Legal(op, |c|)
    ensures |r| == SizeAfter(op, |c|)
  {
    match op
    case Insert(idx, items) => Inserted(gone, c, idx, items)
    case Erase(idx, count) => c[..idx] + c[idx + count..]
    case Assign(items) => items
    case EmplaceBack(v) => c + [v]
    case PopBack => if c == [] then [] else c[..|c| - 1]
    case Clear => []
    case Resize(n, blank) => Resized(c, n, blank)
    case Reserve(_) => c
    case ShrinkToFit => c
    case FreeData => []
  }

  function AfterAll<T>(gone: T -> T, ops: seq<Op<T>>, c: seq<T>): seq<T>
    decreases |ops|
  {
    if ops == [] || !Legal(ops[0], |c|) then c else AfterAll(gone, ops[1..], After(gone, ops[0], c))
  }

  function SizeAfter<T>(op: Op<T>, n: nat): nat
    requires Legal(op, n)
  {
    match op
    case Insert(_, items) => n + |items|
    case Erase(_, count) => n - count
    case Assign(items) => |items|
    case EmplaceBack(_) => n + 1
    case PopBack => if n == 0 then 0 else n - 1
    case Clear => 0
    case Resize(m, _) => m
    case Reserve(_) => n
    case ShrinkToFit => n
    case FreeData => 0
  }

  function CapacityAfter<T>(op: Op<T>, n: nat, was: nat): nat
  {
    match op
    case Insert(_, items) => Grown(was, n + |items|)
    case EmplaceBack(_) => Grown(was, n + 1)
    case Assign(items) => if was < |items| then |items| else was
    case Resize(m, _) => if was < m then m else was
    case Reserve(m) => if was < m then m else was
    case ShrinkToFit => n
    case FreeData => 0
    case _ => was
  }

  /** The operation stays in the array of the vector. */
  predicate InPlace<T>(op: Op<T>, n: nat, was: nat)
    requires Legal(op, n)
  {
    match op
    case Reserve(m) => m <= was
    case ShrinkToFit => n == was
    case FreeData => false
    case _ => SizeAfter(op, n) <= was
  }

  lemma GrowsInPlace<T>(op: Op<T>, n: nat, was: nat)
    requires Legal(op, n) && n < SizeAfter(op, n) <= was
    ensures InPlace(op, n, was)
  {
  }

  /** An operation that stays in its array tracks the cells from here .. */
  function TrackedFrom<T>(op: Op<T>, trivial: bool, n: nat): nat
    requires Legal(op, n)
  {
    match op
    case Insert(idx, _) => idx
    case Erase(idx, _) => idx
    case Assign(_) => 0
    case PopBack => SizeAfter(op, n)
    case Clear => 0
    case Resize(m, _) => m
    case _ => n
  }

  /** .. up to here; dropping elements at the end tracks those with a destructor only. */
  function TrackedTo<T>(op: Op<T>, trivial: bool, n: nat): nat
    requires Legal(op, n)
  {
    match op
    case Insert(_, items) => n + |items|
    case Erase(idx, count) => if count == 0 || (trivial && idx + count == n) then idx else n
    case Assign(items) => if |items| < n then n else |items|
    case EmplaceBack(_) => n + 1
    case PopBack => if trivial then SizeAfter(op, n) else n
    case Clear => if trivial then 0 else n
    case Resize(m, _) => if trivial then m else n
    case _ => n
  }

  /** The cells that an operation on n elements tracks. */
  predicate Tracks<T>(op: Op<T>, trivial: bool, n: nat, was: nat, i: nat)
    requires Legal(op, n)
  {
    if InPlace(op, n, was) then TrackedFrom(op, trivial, n) <= i < TrackedTo(op, trivial, n)
    else i < n && !(trivial && (op.Assign? || op.FreeData?))
  }

  /** The cells before an operation in its array constructs or moves elements: erase leaves others moved from. */
  function Base<T>(gone: T -> T, op: Op<T>, n: nat, c: seq<T>): (r: seq<T>)
    requires Legal(op, n) && n <= |c|
    ensures |r| == |c|
  {
    if op.Erase? && op.count > 0 then Spoiled(gone, c, op.idx + op.count, n) else c
  }

  /** The cells of an array of elements with a trivial destructor after an operation on the vector that had it. */
  function CellsAfter<T>(gone: T -> T, op: Op<T>, n: nat, was: nat, c: seq<T>): (r: seq<T>)
    requires Legal(op, n) && n <= was == |c|
    ensures |r| == |c|
  {
    if InPlace(op, n, was) then
      Overwritten(Base(gone, op, n, c), 0, After(gone, op, c[..n]))
    else if op.Assign? || op.FreeData? then c
    else Spoiled(gone, c, 0, n)
  }

  /** Contents and tail make up the cells. */
  lemma CellsJoined<T>(gone: T -> T, op: Op<T>, n: nat, was: nat, c: seq<T>, now: seq<T>)
    requires Legal(op, n) && n <= was == |c| == |now| && InPlace(op, n, was)
    requires now[..SizeAfter(op, n)] == After(gone, op, c[..n])
    requires now[SizeAfter(op, n)..] == Base(gone, op, n, c)[SizeAfter(op, n)..]
    ensures now == CellsAfter(gone, op, n, was, c)
  {
    assert now == now[..SizeAfter(op, n)] + now[SizeAfter(op, n)..];
  }

  // ---------- whole runs ----------

  /** All n elements. */
  function Bares(n: nat): (s: set<nat>)
    ensures forall i: nat :: i in s <==> i < n
  {
    if n == 0 then {} else Bares(n - 1) + {n - 1}
  }

  /** The elements that are still bare after an operation: in their cells of the array, and not tracked. */
  function BareAfter<T>(op: Op<T>, trivial: bool, n: nat, was: nat, bare: set<nat>): set<nat>
    requires Legal(op, n)
  {
    set i | i in bare && InPlace(op, n, was) && !Tracks(op, trivial, n, was, i)
  }

  /** The bare elements over which an operation constructs others: it adds elements in the same array. */
  function Hurt<T>(op: Op<T>, n: nat, was: nat, bare: set<nat>): set<nat>
    requires Legal(op, n)
  {
    set i | i in bare && n <= i < SizeAfter(op, n) && InPlace(op, n, was)
  }

  /** All that the operations of a run hurt; only sizes and positions matter. */
  function RunHurt<T>(ops: seq<Op<T>>, trivial: bool, n: nat, was: nat, bare: set<nat>): set<nat>
    decreases |ops|
  {
    if ops == [] || !Legal(ops[0], n) then {}
    else
      Hurt(ops[0], n, was, bare) +
      RunHurt(ops[1..], trivial, SizeAfter(ops[0], n), CapacityAfter(ops[0], n, was), BareAfter(ops[0], trivial, n, was, bare))
  }

  /**
    What an abort after all the operations leaves in the array, if destructors are trivial: a bare
    element has the value it had when it was first tracked with a snapshot, or else the last one.
   */
  function AbortLeaves<T>(gone: T -> T, ops: seq<Op<T>>, n: nat, was: nat, c: seq<T>, bare: set<nat>): (r: seq<T>)
    requires n <= was == |c|
    ensures |r| == |c|
    decreases |ops|
  {
    if ops == [] || !Legal(ops[0], n) then c
    else
      var now := CellsAfter(gone, ops[0], n, was, c);
      var rest := if InPlace(ops[0], n, was) then
                    AbortLeaves(gone, ops[1..], SizeAfter(ops[0], n), was, now, BareAfter(ops[0], true, n, was, bare))
                  else now;
      seq(|c|, i requires 0 <= i < |c| => if i in bare && i < n && Tracks(ops[0], true, n, was, i) then c[i] else rest[i])
  }

  /** All iterators lie in the vector, and no capacity is beyond the largest one. */
  predicate Feasible<T>(ops: seq<Op<T>>, n: nat, was: nat, max: nat)
    decreases |ops|
  {
    ops == [] ||
    (Legal(ops[0], n) && CapacityAfter(ops[0], n, was) <= max &&
     Feasible(ops[1..], SizeAfter(ops[0], n), CapacityAfter(ops[0], n, was), max))
  }

  /** Elements with a destructor are never hurt. */
  lemma {:induction false} NoneHurt<T>(ops: seq<Op<T>>, n: nat, was: nat, bare: set<nat>)
    requires forall i :: i in bare ==> i < n
    ensures RunHurt(ops, false, n, was, bare) == {}
    decreases |ops|
  {
    if ops != [] && Legal(ops[0], n) {
      NoneHurt(ops[1..], SizeAfter(ops[0], n), CapacityAfter(ops[0], n, was), BareAfter(ops[0], false, n, was, bare));
    }
  }

  /** Neither does a single operation hurt an element. */
  lemma SingleHurtsNone<T>(op: Op<T>, trivial: bool, n: nat, was: nat)
    ensures RunHurt([op], trivial, n, was, Bares(n)) == {}
  {
    assert [op][1..] == [];
  }

  /** An operation leaves the cells of bare elements alone that it neither hurts nor tracks. */
  lemma BareUnchanged<T>(gone: T -> T, op: Op<T>, n: nat, was: nat, c: seq<T>, i: nat)
    requires Legal(op, n) && n <= was == |c| && i < |c| && InPlace(op, n, was) && !Tracks(op, true, n, was, i)
    requires !(n <= i < SizeAfter(op, n))
    ensures CellsAfter(gone, op, n, was, c)[i] == c[i]
  {
    if i < SizeAfter(op, n) {
      assert CellsAfter(gone, op, n, was, c)[i] == After(gone, op, c[..n])[i];
      AfterUnchanged(gone, op, c[..n], i);
    } else {
      assert CellsAfter(gone, op, n, was, c)[i] == Base(gone, op, n, c)[i];
    }
  }

  lemma AfterUnchanged<T>(gone: T -> T, op: Op<T>, c: seq<T>, i: nat)
    requires Legal(op, |c|) && i < |c| && i < SizeAfter(op, |c|)
    requires op.Reserve? || op.ShrinkToFit? || !(TrackedFrom(op, true, |c|) <= i < TrackedTo(op, true, |c|))
    ensures After(gone, op, c)[i] == c[i]
  {
    match op
    case Insert(idx, items) => assert After(gone, op, c)[..idx] == c[..idx];
    case Erase(idx, count) => assert c[..idx] + c[idx..] == c;
    case _ =>
  }

  /** An abort restores every bare element that the run does not hurt. */
  lemma {:induction false} UnhurtRestored<T>(gone: T -> T, ops: seq<Op<T>>, n: nat, was: nat, c: seq<T>, bare: set<nat>, i: nat)
    requires n <= was == |c| && i in bare && i < |c| && i !in RunHurt(ops, true, n, was, bare)
    ensures AbortLeaves(gone, ops, n, was, c, bare)[i] == c[i]
    decreases |ops|
  {
    if ops != [] && Legal(ops[0], n) && InPlace(ops[0], n, was) && !(i < n && Tracks(ops[0], true, n, was, i)) {
      assert i !in Hurt(ops[0], n, was, bare);
      BareUnchanged(gone, ops[0], n, was, c, i);
      var rest := BareAfter(ops[0], true, n, was, bare);
      assert CapacityAfter(ops[0], n, was) == was;
      UnhurtRestored(gone, ops[1..], SizeAfter(ops[0], n), was, CellsAfter(gone, ops[0], n, was, c), rest, i);
    }
  }

  /** So an abort after a run restores the vector if and only if the hurt elements have their old values. */
  lemma RestoredIff<T>(gone: T -> T, ops: seq<Op<T>>, n: nat, was: nat, c: seq<T>)
    requires n <= was == |c|
    ensures AbortLeaves(gone, ops, n, was, c, Bares(n))[..n] == c[..n] <==>
      forall i :: i in RunHurt(ops, true, n, was, Bares(n)) && i < n ==> AbortLeaves(gone, ops, n, was, c, Bares(n))[i] == c[i]
  {
    var r := AbortLeaves(gone, ops, n, was, c, Bares(n));
    forall i | 0 <= i < n && i !in RunHurt(ops, true, n, was, Bares(n)) ensures r[i] == c[i] {
      UnhurtRestored(gone, ops, n, was, c, Bares(n), i);
    }
    SamePrefix(r, c, n, RunHurt(ops, true, n, was, Bares(n)));
  }

  lemma SamePrefix<T>(r: seq<T>, c: seq<T>, n: nat, others: set<nat>)
    requires n <= |r| == |c| && forall i :: 0 <= i < n && i !in others ==> r[i] == c[i]
    ensures r[..n] == c[..n] <==> forall i :: i in others && i < n ==> r[i] == c[i]
  {
    assert r[..n] == c[..n] <==> forall i :: 0 <= i < n ==> r[i] == c[i];
  }

  lemma PopThenPushLeaves<T>(gone: T -> T, v: T, n: nat, was: nat, c: seq<T>)
    requires 0 < n <= was == |c| && Possible(n)
    ensures AbortLeaves(gone, [Op.PopBack, Op.EmplaceBack(v)], n, was, c, Bares(n))[..n] == c[..n - 1] + [v]
  {
    var pop: Op<T>, push: Op<T> := Op.PopBack, Op.EmplaceBack(v);
    assert [pop, push][1..] == [push];
    assert CellsAfter(gone, pop, n, was, c) == c;
    UntrackedLeaves(gone, [pop, push], n, was, c, Bares(n));
    PushLeaves(gone, v, n - 1, was, c, BareAfter(pop, true, n, was, Bares(n)));
    assert c[n - 1 := v][..n] == c[..n - 1] + [v];
  }

  lemma PopThenPushFits<T>(v: T, n: nat, was: nat, max: nat)
    requires 0 < n <= was <= max && Possible(n)
    ensures Feasible([Op.PopBack, Op.EmplaceBack(v)], n, was, max)
  {
    var pop: Op<T>, push: Op<T> := Op.PopBack, Op.EmplaceBack(v);
    assert [pop, push][1..] == [push] && [push][1..] == [];
  }

  lemma UntrackedLeaves<T>(gone: T -> T, ops: seq<Op<T>>, n: nat, was: nat, c: seq<T>, bare: set<nat>)
    requires n <= was == |c| && ops != [] && Legal(ops[0], n) && InPlace(ops[0], n, was)
    requires forall i: nat :: i < n ==> !Tracks(ops[0], true, n, was, i)
    ensures AbortLeaves(gone, ops, n, was, c, bare) ==
      AbortLeaves(gone, ops[1..], SizeAfter(ops[0], n), was, CellsAfter(gone, ops[0], n, was, c), BareAfter(ops[0], true, n, was, bare))
  {
  }

  lemma PushLeaves<T>(gone: T -> T, v: T, n: nat, was: nat, c: seq<T>, bare: set<nat>)
    requires n < was == |c| && Possible(n + 1)
    ensures AbortLeaves(gone, [Op.EmplaceBack(v)], n, was, c, bare) == c[n := v]
  {
    var push: Op<T> := Op.EmplaceBack(v);
    assert [push][1..] == [];
    assert CellsAfter(gone, push, n, was, c) == Overwritten(c, 0, c[..n] + [v]) == c[n := v];
  }

  // ---------- consequences ----------

  /**
    insert of an empty range is documented to change nothing; it moves the elements after idx
    onto themselves, so this holds exactly when that leaves them as they are.
   */
  lemma InsertNothing<T>(gone: T -> T, c: seq<T>, idx: nat)
    requires idx <= |c|
    ensures Inserted(gone, c, idx, []) == c <==> forall i :: idx <= i < |c| ==> gone(c[i]) == c[i]
  {
    var r := Inserted(gone, c, idx, []);
    assert forall i :: idx <= i < |c| ==> r[i] == gone(c[i]);
    if forall i :: idx <= i < |c| ==> gone(c[i]) == c[i] {
      assert r == c;
    }
  }

  /** Erasing what was inserted gives back the old elements. */
  lemma EraseAfterInsert<T>(gone: T -> T, c: seq<T>, idx: nat, items: seq<T>)
    requires idx <= |c| && items != []
    ensures var d := Inserted(gone, c, idx, items);
            |d| == |c| + |items| && d[..idx] + d[idx + |items|..] == c
  {
    var d := Inserted(gone, c, idx, items);
    assert d[..idx] == c[..idx] && d[idx + |items|..] == c[idx..];
    assert c[..idx] + c[idx..] == c;
  }
}
