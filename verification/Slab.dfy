/**
  The slab allocator of the examples and the key-value store above it: vacant slots are chained
  through their own storage, by numbers that are one more than an index so that 0 ends the chain,
  and a volatile index of the occupied slots is rebuilt by a traversal in parallel parts.
 */
module Slab {
  import opened Wrappers
  import opened HashPath

  function Inc(n: nat): nat { (n + 1) % WORD }

  function Dec(n: nat): nat { (n + WORD - 1) % WORD }

  /** The union of a slot. */
  datatype Content = Value(key: nat, value: int) | Next(next: nat)

  datatype Slot = Slot(occupied: bool, content: Content)

  // ---------- the chain of vacant slots ----------

  /** From `head` the slots `free` are chained, in that order. */
  ghost predicate IsChain(vec: seq<Slot>, head: nat, free: seq<nat>)
    decreases |free|
  {
    if free == [] then head == 0
    else
      var i := free[0];
      && head == i + 1 && i < |vec| && !vec[i].occupied && vec[i].content.Next?
      && IsChain(vec, vec[i].content.next, free[1..])
  }

  ghost predicate NoRepeats(s: seq<nat>)
  {
    forall i, j :: 0 <= i < j < |s| ==> s[i] != s[j]
  }

  /** The chain ends, repeats no slot and visits exactly the vacant ones. */
  ghost predicate ChainsVacant(vec: seq<Slot>, head: nat, free: seq<nat>)
  {
    && |vec| < WORD && IsChain(vec, head, free) && NoRepeats(free)
    && (forall i :: 0 <= i < |vec| ==> (i in free <==> !vec[i].occupied))
    && (forall i :: 0 <= i < |vec| ==> (vec[i].occupied <==> vec[i].content.Value?))
  }

  lemma {:induction false} ChainUnchanged(vec: seq<Slot>, head: nat, free: seq<nat>, k: nat, s: Slot)
    requires IsChain(vec, head, free) && k <= |vec| && k !in free
    ensures IsChain(if k == |vec| then vec + [s] else vec[k := s], head, free)
    decreases |free|
  {
    if free != [] {
      ChainUnchanged(vec, vec[free[0]].content.next, free[1..], k, s);
    }
  }

  /** There is only one chain from a head. */
  lemma {:induction false} ChainUnique(vec: seq<Slot>, head: nat, a: seq<nat>, b: seq<nat>)
    requires IsChain(vec, head, a) && IsChain(vec, head, b)
    ensures a == b
    decreases |a|
  {
    if a != [] && b != [] {
      ChainUnique(vec, vec[a[0]].content.next, a[1..], b[1..]);
      assert a == [a[0]] + a[1..] && b == [b[0]] + b[1..];
    }
  }

  // ---------- the index ----------

  /** The index of the store: each key with its slot, and each occupied slot under its key. */
  ghost predicate Indexes(index: map<nat, nat>, vec: seq<Slot>)
  {
    && (forall k :: k in index ==> index[k] < |vec| && vec[index[k]].occupied && vec[index[k]].content.Value? && vec[index[k]].content.key == k)
    && (forall i :: 0 <= i < |vec| && vec[i].occupied ==>
          vec[i].content.Value? && vec[i].content.key in index && index[vec[i].content.key] == i)
  }

  /** What the store holds. */
  function Contents(index: map<nat, nat>, vec: seq<Slot>): map<nat, int>
  {
    map k | k in index && index[k] < |vec| && vec[index[k]].content.Value? :: vec[index[k]].content.value
  }

  /** A value put into a free slot, or a new one. */
  lemma IndexedPut(index: map<nat, nat>, vec: seq<Slot>, vec': seq<Slot>, idx: nat, key: nat, value: int)
    requires Indexes(index, vec) && key !in index && idx <= |vec| && (idx < |vec| ==> !vec[idx].occupied)
    requires vec' == var s := Slot(true, Value(key, value)); if idx < |vec| then vec[idx := s] else vec + [s]
    ensures Indexes(index[key := idx], vec')
    ensures Contents(index[key := idx], vec') == Contents(index, vec)[key := value]
  {
    assert forall k :: k in index ==> index[k] != idx && vec'[index[k]] == vec[index[k]];
  }

  /** What the callback of the store makes of the slots in the order in which it gets them. */
  function Collected(vec: seq<Slot>, order: seq<nat>): map<nat, nat>
    decreases |order|
  {
    if order == [] then map[]
    else
      var i := order[|order| - 1];
      var before := Collected(vec, order[..|order| - 1]);
      if i < |vec| && vec[i].content.Value? then before[vec[i].content.key := i] else before
  }

  lemma {:induction false} CollectedFrom(vec: seq<Slot>, index: map<nat, nat>, order: seq<nat>)
    requires Indexes(index, vec) && forall i :: i in order ==> i < |vec| && vec[i].occupied
    ensures forall k :: k in Collected(vec, order) <==> k in index && index[k] in order
    ensures forall k :: k in Collected(vec, order) ==> Collected(vec, order)[k] == index[k]
    decreases |order|
  {
    if order != [] {
      var init := order[..|order| - 1];
      assert forall i :: i in init ==> i in order;
      CollectedFrom(vec, index, init);
      assert order == init + [order[|order| - 1]];
    }
  }

  /** Rebuilding from the occupied slots gives the same index, in whatever order the threads call back. */
  lemma RebuildIsIndex(vec: seq<Slot>, index: map<nat, nat>, order: seq<nat>)
    requires Indexes(index, vec) && multiset(order) == multiset(Occupied(vec, 0, |vec|))
    ensures Collected(vec, order) == index
  {
    OccupiedIs(vec, 0, |vec|);
    forall i ensures i in order <==> i < |vec| && 0 <= i && vec[i].occupied {
      assert i in order <==> i in multiset(order);
      assert i in Occupied(vec, 0, |vec|) <==> i in multiset(Occupied(vec, 0, |vec|));
    }
    CollectedFrom(vec, index, order);
    AllCollected(vec, index, order);
  }

  lemma AllCollected(vec: seq<Slot>, index: map<nat, nat>, order: seq<nat>)
    requires Indexes(index, vec) && (forall i :: 0 <= i < |vec| && vec[i].occupied ==> i in order)
    requires forall k :: k in Collected(vec, order) <==> k in index && index[k] in order
    requires forall k :: k in Collected(vec, order) ==> Collected(vec, order)[k] == index[k]
    ensures Collected(vec, order) == index
  {
    assert forall k :: k in index ==> index[k] in order;
  }

  // ---------- the traversal ----------

  /** The occupied slots from lo up to hi. */
  function Occupied(vec: seq<Slot>, lo: nat, hi: nat): seq<nat>
    requires lo <= hi <= |vec|
    decreases hi
  {
    if lo == hi then []
    else Occupied(vec, lo, hi - 1) + (if vec[hi - 1].occupied then [hi - 1] else [])
  }

  /** Each occupied slot once, in order. */
  lemma {:induction false} OccupiedIs(vec: seq<Slot>, lo: nat, hi: nat)
    requires lo <= hi <= |vec|
    ensures forall i :: i in Occupied(vec, lo, hi) <==> lo <= i < hi && vec[i].occupied
    ensures NoRepeats(Occupied(vec, lo, hi))
    decreases hi
  {
    if lo < hi {
      OccupiedIs(vec, lo, hi - 1);
    }
  }

  lemma {:induction false} OccupiedJoin(vec: seq<Slot>, lo: nat, mid: nat, hi: nat)
    requires lo <= mid <= hi <= |vec|
    ensures Occupied(vec, lo, hi) == Occupied(vec, lo, mid) + Occupied(vec, mid, hi)
    decreases hi
  {
    if mid < hi {
      OccupiedJoin(vec, lo, mid, hi - 1);
    }
  }

  function Flat(parts: seq<seq<nat>>): seq<nat>
    decreases |parts|
  {
    if parts == [] then [] else Flat(parts[..|parts| - 1]) + parts[|parts| - 1]
  }

  lemma FlatStep(parts: seq<seq<nat>>, part: seq<nat>)
    ensures Flat(parts + [part]) == Flat(parts) + part
  {
    assert (parts + [part])[..|parts|] == parts;
  }

  class SlabVector {
    var vec: seq<Slot>
    var vacant: nat
    ghost var free: seq<nat>    // the vacant slots in the order of the chain

    ghost predicate Valid()
      reads this
    {
      ChainsVacant(vec, vacant, free)
    }

    /** A zeroed slab. */
    constructor ()
      ensures Valid() && vec == []
    {
      vec, vacant, free := [], 0, [];
    }

    /** set_vacant */
    method SetVacant(entry: nat)
      modifies this`vacant
      ensures vacant == Inc(entry)
    {
      vacant := Inc(entry);
    }

    /** insert; appending may fail (full). The slot is the head of the chain, or a new one. */
    method Insert(key: nat, value: int, full: bool) returns (ok: bool, idx: nat)
      requires Valid()
      modifies this
      ensures Valid()
      ensures ok <==> old(free) != [] || (!full && old(|vec|) < WORD - 1)
      ensures !ok ==> vec == old(vec) && vacant == old(vacant)
      ensures ok && old(free) != [] ==> idx == old(free[0]) && idx < old(|vec|) && !old(vec[idx].occupied)
      ensures ok && old(free) != [] ==> vec == old(vec)[idx := Slot(true, Value(key, value))] && free == old(free[1..])
      ensures ok && old(free) == [] ==> idx == old(|vec|) && vec == old(vec) + [Slot(true, Value(key, value))] && free == []
    {
      if vacant != 0 {
        ok, idx := true, Dec(vacant);
        var next := Dec(vec[idx].content.next);
        assert idx == free[0] && IsChain(vec, vec[idx].content.next, free[1..]);
        ChainUnchanged(vec, vec[idx].content.next, free[1..], idx, Slot(true, Value(key, value)));
        ghost var link := vec[idx].content.next;
        LinkBelow(vec, link, free[1..]);
        vec := vec[idx := vec[idx].(content := Value(key, value))];
        vec := vec[idx := vec[idx].(occupied := true)];
        assert vec == old(vec)[idx := Slot(true, Value(key, value))];
        SetVacant(next);
        free := free[1..];
      } else {
        ok, idx := !full && |vec| < WORD - 1, |vec|;
        if ok {
          ChainUnchanged(vec, vacant, free, |vec|, Slot(true, Value(key, value)));
          vec := vec + [Slot(true, Value(key, value))];
        }
      }
    }

    /** remove: the slot becomes the head of the chain. */
    method Remove(idx: nat)
      requires Valid() && idx < |vec| && vec[idx].occupied
      modifies this
      ensures Valid() && vec == old(vec)[idx := Slot(false, Next(old(vacant)))] && free == [idx] + old(free)
    {
      ChainUnchanged(vec, vacant, free, idx, Slot(false, Next(vacant)));
      vec := vec[idx := vec[idx].(occupied := false)];
      vec := vec[idx := vec[idx].(content := Next(vacant))];
      assert vec == old(vec)[idx := Slot(false, Next(vacant))];
      ghost var f := [idx] + free;
      assert f[1..] == free;
      SetVacant(idx);
      free := f;
    }

    /** foreach: the slots for which each of the threads calls back, in its order. */
    method Foreach(nthreads: nat) returns (parts: seq<seq<nat>>)
      requires nthreads >= 1
      ensures Flat(parts) == Occupied(vec, 0, |vec|)
    {
      var itr := 0;
      var partsize := if |vec| > nthreads then |vec| / nthreads else |vec|;
      assert |vec| > 0 ==> partsize > 0 by {
        if |vec| > nthreads {
          AtLeastOne(|vec|, nthreads);
        }
      }
      parts := [];
      var more := true;
      while more
        invariant 0 <= itr <= |vec| && Flat(parts) == Occupied(vec, 0, itr)
        invariant more || itr == |vec|
        invariant more ==> itr < |vec| || |vec| == 0
        decreases |vec| - itr, more
      {
        var r := |vec| - itr;
        var end := itr + (if r < partsize then r else partsize);
        var part := ForeachPart(itr, end);
        FlatStep(parts, part);
        OccupiedJoin(vec, 0, itr, end);
        parts := parts + [part];
        itr := end;
        more := itr != |vec|;
      }
    }

    /** What one thread does. */
    method ForeachPart(lo: nat, hi: nat) returns (visited: seq<nat>)
      requires lo <= hi <= |vec|
      ensures visited == Occupied(vec, lo, hi)
    {
      visited := [];
      for n := lo to hi
        invariant visited == Occupied(vec, lo, n)
      {
        if vec[n].occupied {
          visited := visited + [n];
        }
      }
    }
  }

  lemma AtLeastOne(n: nat, d: nat)
    requires n > d >= 1
    ensures n / d >= 1
  {
  }

  lemma LinkBelow(vec: seq<Slot>, head: nat, free: seq<nat>)
    requires IsChain(vec, head, free) && |vec| < WORD
    ensures head < WORD && Inc(Dec(head)) == head
  {
  }

  /** The store above a slab. */
  class Store {
    var index: map<nat, nat>
    const slab: SlabVector

    ghost predicate Valid()
      reads this, slab
    {
      slab.Valid() && Indexes(index, slab.vec)
    }

    ghost function Map(): map<nat, int>
      reads this, slab
    {
      Contents(index, slab.vec)
    }

    /** The store on a zeroed slab. */
    constructor (slab: SlabVector)
      requires slab.Valid() && slab.vec == []
      ensures Valid() && this.slab == slab && Map() == map[]
    {
      this.slab, index := slab, map[];
    }

    /** The constructor of kv on a slab in use: `order` is the order in which the threads of foreach get the lock. */
    method Rebuild(nthreads: nat, order: seq<nat>) returns (rebuilt: map<nat, nat>, parts: seq<seq<nat>>)
      requires Valid() && nthreads >= 1
      ensures Flat(parts) == Occupied(slab.vec, 0, |slab.vec|)
      ensures multiset(order) == multiset(Flat(parts)) ==> rebuilt == index
    {
      parts := slab.Foreach(nthreads);
      rebuilt := map[];
      for k := 0 to |order|
        invariant rebuilt == Collected(slab.vec, order[..k])
      {
        assert order[..k + 1][..k] == order[..k];
        var i := order[k];
        if i < |slab.vec| && slab.vec[i].content.Value? {
          rebuilt := rebuilt[slab.vec[i].content.key := i];
        }
      }
      assert order[..|order|] == order;
      if multiset(order) == multiset(Flat(parts)) {
        RebuildIsIndex(slab.vec, index, order);
      }
    }

    method Insert(key: nat, value: int, full: bool) returns (ok: bool)
      requires Valid()
      modifies this, slab
      ensures Valid()
      ensures ok ==> key !in old(Map()) && Map() == old(Map())[key := value]
      ensures !ok ==> Map() == old(Map())
      ensures key in old(Map()) ==> !ok
      ensures key !in old(Map()) && (old(slab.free) != [] || (!full && old(|slab.vec|) < WORD - 1)) ==> ok
    {
      if key in index {
        return false;
      }
      var idx;
      ok, idx := slab.Insert(key, value, full);
      if ok {
        IndexedPut(index, old(slab.vec), slab.vec, idx, key, value);
        index := index[key := idx];
      }
    }

    method Remove(key: nat) returns (ok: bool)
      requires Valid()
      modifies this, slab
      ensures Valid()
      ensures ok == (key in old(Map())) && Map() == old(Map()) - {key}
    {
      if key !in index {
        return false;
      }
      slab.Remove(index[key]);
      index := index - {key};
      ok := true;
    }

    /** get; None stands for the exception. */
    method Get(key: nat) returns (r: Option<int>)
      requires Valid()
      ensures r == if key in Map() then Some(Map()[key]) else None
    {
      if key in index {
        r := Some(slab.vec[index[key]].content.value);
      } else {
        r := None;
      }
    }
  }
}
