/**
  The persistent vector: elements shifted in place or moved to a new array, with every change
  inside a transaction whose undo log the vector has to feed itself.

  Any construction, assignment, snapshot or allocation can throw (if `faulty`, the one after
  `budget` others does), so that the transaction can be aborted at any point of an operation.
 */
module UndoVector {
  import opened Wrappers
  import opened NextPow
  import opened UndoBasics
  import opened VectorOps

  /** What the undo log holds of a tracked cell; NoSnapshot for POBJ_XADD_NO_SNAPSHOT. */
  datatype Saved<T> = Snapshot(value: T) | NoSnapshot

  class Vector<T(0)> {
    // the fields of the vector
    var size: nat
    var capacity: nat
    var data: array?<T>

    // the element type
    const trivial: bool     // std::is_trivially_destructible
    const gone: T -> T      // what a move leaves behind, also of an element moved onto itself
    const maxSize: nat      // max_size()

    // the transaction
    var log: map<(array<T>, nat), Saved<T>>
    var oldSize: Option<nat>
    var oldCapacity: Option<nat>
    var oldData: Option<array?<T>>
    var heap: set<array<T>>    // the allocations of committed transactions
    var live: set<array<T>>    // and of this one, without what it has freed
    var faulty: bool
    var budget: nat

    // the vector when the transaction began
    ghost var before: seq<T>
    ghost var beforeCapacity: nat
    ghost var beforeData: array?<T>
    ghost var lost: set<nat>    // elements that an abort need not restore

    ghost function Owned(a: array?<T>): set<array<T>>
    {
      if a == null then {} else {a}
    }

    /** The state between two operations; live allocations are the array of the vector, no more. */
    ghost predicate Valid()
      reads this
    {
      && size <= capacity
      && (if data == null then capacity == 0 else capacity > 0 && data.Length == capacity)
      && live == Owned(data) && capacity <= maxSize
    }

    ghost function Contents(): seq<T>
      reads this, data
      requires Valid()
    {
      if data == null then [] else data[..size]
    }

    /** Aborting now restores the fields of the vector. */
    ghost predicate KeptFields()
      reads this
    {
      && (if oldSize.None? then size == |before| else oldSize.value == |before|)
      && (if oldCapacity.None? then capacity == beforeCapacity else oldCapacity.value == beforeCapacity)
      && (if oldData.None? then data == beforeData else oldData.value == beforeData)
      && heap == Owned(beforeData)
      && |before| <= beforeCapacity <= maxSize
      && (if beforeData == null then beforeCapacity == 0 else beforeCapacity > 0 && beforeData.Length == beforeCapacity)
    }

    /** Each element from before that is not lost is snapshotted, or untouched. */
    ghost predicate KeptCells()
      reads this, beforeData
    {
      beforeData != null && |before| <= beforeData.Length ==>
        forall i {:trigger (beforeData, i) in log} :: 0 <= i < |before| && i !in lost ==>
          if (beforeData, i) in log then log[(beforeData, i)] == Snapshot(before[i]) else beforeData[i] == before[i]
    }

    /** Aborting now restores the vector, but for the lost elements. */
    ghost predicate Kept()
      reads this, beforeData
    {
      KeptFields() && KeptCells()
    }

    /** A cell that may be overwritten, or tracked without a snapshot. */
    ghost predicate Writable(a: array<T>, i: nat)
      reads this
    {
      a == beforeData && i < |before| && i !in lost ==> (a, i) in log
    }

    ghost predicate WritableAll(a: array<T>, lo: nat, hi: nat)
      reads this
    {
      a == beforeData ==> forall i :: lo <= i < hi && i < |before| && i !in lost ==> (a, i) in log
    }

    /** The cells after the last element, up to hi, may be overwritten. */
    ghost predicate Secured(hi: nat)
      reads this
    {
      data != null && hi <= capacity ==> WritableAll(data, size, hi)
    }

    /** Element i from before is in its cell of the array and was never tracked. */
    ghost predicate Bare(i: nat)
      reads this
    {
      data != null && data == beforeData && i < |before| && (data, i) !in log
    }

    ghost predicate BaresAre(bare: set<nat>)
      reads this
    {
      var holds := forall i: nat :: Bare(i) <==> i in bare;
      holds
    }

    /** What was tracked earlier is in the log as it was. */
    ghost predicate LogKept(earlier: map<(array<T>, nat), Saved<T>>)
      reads this`log
    {
      forall c :: c in earlier ==> c in log && log[c] == earlier[c]
    }

    /** Exactly the cells lo up to hi of an array are tracked in addition to earlier ones. */
    ghost predicate LogGrew(earlier: map<(array<T>, nat), Saved<T>>, a: array?<T>, lo: nat, hi: nat)
      reads this
    {
      && LogKept(earlier)
      && (forall c :: c in log ==> c in earlier || (c.0 == a && lo <= c.1 < hi))
      && (a != null ==> forall i: nat :: lo <= i < hi ==> (a, i) in log)
    }

    /** The cells tracked since earlier have a snapshot of c if they held elements, else none. */
    ghost predicate Seen(earlier: map<(array<T>, nat), Saved<T>>, c: seq<T>, n: nat)
      reads this`log
    {
      forall k :: k in log && k !in earlier ==>
        if k.1 < n then k.1 < |c| && log[k] == Snapshot(c[k.1]) else log[k] == NoSnapshot
    }

    /** The cells of the array. */
    ghost function Cells(): seq<T>
      reads this`data, data
    {
      if data == null then [] else data[..]
    }

    /** The cells after the last element of a trivially destructible type are as in c. */
    ghost predicate TailKept(c: seq<T>)
      reads this`data, this`size, data
    {
      trivial && data != null ==> size <= |c| == data.Length && data[size..] == c[size..]
    }

    /** The vector has another array now, or none; a has its first cells tracked and, without destructors, holds c. */
    ghost predicate Left(a: array?<T>, c: seq<T>, earlier: map<(array<T>, nat), Saved<T>>, hi: nat)
      reads this, a
    {
      (data == null || data != a) && LogGrew(earlier, a, 0, hi) && (trivial && a != null ==> a[..] == c)
    }

    /** An operation on n elements in array a, with cells c, tracked what it should. */
    ghost predicate Logged(op: Op<T>, n: nat, was: nat, a: array?<T>, c: seq<T>,
                           earlier: map<(array<T>, nat), Saved<T>>, now: map<(array<T>, nat), Saved<T>>)
      requires Legal(op, n)
    {
      var tracked :=
        && (forall k :: k in earlier ==> k in now && now[k] == earlier[k])
        && (forall k :: k in now && k !in earlier ==> k.0 == a && Tracks(op, trivial, n, was, k.1))
        && (forall k :: k in now && k !in earlier ==>
              if k.1 < n then k.1 < |c| && now[k] == Snapshot(c[k.1]) else now[k] == NoSnapshot)
        && (a != null ==> forall i: nat :: Tracks(op, trivial, n, was, i) ==> (a, i) in now);
      tracked
    }

    /** ... and left what it should in the cells, without destructors. */
    ghost predicate Traces(op: Op<T>, n: nat, was: nat, a: array?<T>, c: seq<T>, earlier: map<(array<T>, nat), Saved<T>>)
      requires Legal(op, n) && (a != null ==> n <= was == |c|)
      reads this`log, a
    {
      Logged(op, n, was, a, c, earlier, log) && (trivial && a != null ==> a[..] == CellsAfter(gone, op, n, was, c))
    }

    /** Something was thrown. */
    ghost predicate Faulted()
      reads this
    {
      faulty && budget == 0
    }

    // ---------- primitive steps ----------

    /** What can throw. */
    method Spend() returns (o: Outcome)
      modifies this`budget
      ensures o.Fail? ==> Faulted()
    {
      if faulty && budget == 0 {
        return Fail;
      }
      budget := if faulty then budget - 1 else budget;
      return Pass;
    }

    /** A construction or an assignment. */
    method Put(a: array<T>, i: nat, v: T) returns (o: Outcome)
      requires i < a.Length
      modifies this`budget, a
      ensures o.Fail? ==> Faulted()
      ensures a[..] == if o.Pass? then old(a[..])[i := v] else old(a[..])
      ensures old(Kept()) && Writable(a, i) ==> Kept()
    {
      o := Spend();
      if o.Pass? {
        a[i] := v;
      }
    }

    /** What a move or a destructor does to its argument. */
    method Spoil(a: array<T>, i: nat)
      requires i < a.Length
      modifies a
      ensures a[..] == old(a[..])[i := gone(old(a[i]))]
      ensures old(Kept()) && Writable(a, i) ==> Kept()
    {
      a[i] := gone(a[i]);
    }

    method SetSize(n: nat)
      modifies this`size, this`oldSize
      ensures size == n
      ensures old(Kept()) ==> Kept()
      ensures old(KeptFields()) ==> KeptFields()
    {
      if oldSize.None? {
        oldSize := Some(size);
      }
      size := n;
    }

    method SetCapacity(n: nat)
      modifies this`capacity, this`oldCapacity
      ensures capacity == n
      ensures old(Kept()) ==> Kept()
    {
      if oldCapacity.None? {
        oldCapacity := Some(capacity);
      }
      capacity := n;
    }

    method SetData(a: array?<T>)
      modifies this`data, this`oldData
      ensures data == a
      ensures old(Kept()) ==> Kept()
    {
      if oldData.None? {
        oldData := Some(data);
      }
      data := a;
    }

    /** pmemobj_tx_free; the array must be live. */
    method TxFree(a: array?<T>) returns (o: Outcome)
      requires a == null || a in live
      modifies this`live, this`budget
      ensures o.Fail? ==> Faulted()
      ensures o.Pass? ==> live == old(live) - Owned(a)
      ensures old(Kept()) ==> Kept()
    {
      if a == null {
        return Pass;
      }
      o := Spend();
      if o.Pass? {
        live := live - {a};
      }
    }

    /** conditional_add_to_tx of cells lo up to hi; cells that are tracked already stay as they are. */
    method AddSnapshot(a: array<T>, lo: nat, hi: nat) returns (o: Outcome)
      requires lo <= hi <= a.Length
      modifies this`log, this`budget
      ensures o.Fail? ==> Faulted() && log == old(log)
      ensures o.Pass? ==> LogGrew(old(log), a, lo, hi)
      ensures LogKept(old(log)) && Seen(old(log), a[..], hi)
      ensures old(Kept()) ==> Kept()
    {
      if lo == hi {
        return Pass;
      }
      o := Spend();
      if o.Pass? {
        log := Snapshots(a, lo, hi) + log;
      }
    }

    function Snapshots(a: array<T>, lo: nat, hi: nat): (r: map<(array<T>, nat), Saved<T>>)
      requires lo <= hi <= a.Length
      reads a
      ensures forall i: nat :: (a, i) in r <==> lo <= i < hi
      ensures forall k :: k in r ==> k.0 == a && lo <= k.1 < hi && r[k] == Snapshot(a[k.1])
    {
      map i: nat | lo <= i < hi :: (a, i) := Snapshot(a[i])
    }

    /** The same with POBJ_XADD_NO_SNAPSHOT. */
    method AddNoSnapshot(a: array<T>, lo: nat, hi: nat) returns (o: Outcome)
      requires lo <= hi <= a.Length
      modifies this`log, this`budget
      ensures o.Fail? ==> Faulted() && log == old(log)
      ensures o.Pass? ==> LogGrew(old(log), a, lo, hi)
      ensures forall c :: c in log ==> log[c] == if c in old(log) then old(log[c]) else NoSnapshot
      ensures old(Kept()) && old(WritableAll(a, lo, hi)) ==> Kept()
    {
      if lo == hi {
        return Pass;
      }
      o := Spend();
      if o.Pass? {
        log := (map i: nat | lo <= i < hi :: (a, i) := NoSnapshot) + log;
      }
    }

    // ---------- private helpers of the vector ----------

    /** add_data_to_tx */
    method AddDataToTx(idx: nat, num: nat) returns (o: Outcome)
      requires Valid() && idx <= size && idx + num <= capacity
      modifies this`log, this`budget
      ensures LogKept(old(log))
      ensures o.Fail? ==> Faulted()
      ensures o.Pass? ==> LogGrew(old(log), data, idx, idx + num)
      ensures Seen(old(log), old(Cells()), old(size))
      ensures old(Kept() && Secured(idx + num)) ==> Kept()
    {
      if data == null {
        return Pass;
      }
      var initialized := size - idx;
      :- AddSnapshot(data, idx, idx + Min(initialized, num));
      if num > initialized {
        o := AddNoSnapshot(data, size, idx + num);
        return o;
      }
      return Pass;
    }

    /** shrink */
    method Shrink(n: nat) returns (o: Outcome)
      requires Valid() && n <= size
      modifies this`size, this`oldSize, this`log, this`budget, data
      ensures LogKept(old(log))
      ensures o.Fail? ==> Faulted()
      ensures o.Pass? ==> Valid() && Contents() == old(Contents())[..n]
      ensures o.Pass? ==> LogGrew(old(log), data, n, if trivial then n else old(size))
      ensures Seen(old(log), old(Cells()), old(size)) && (trivial ==> Cells() == old(Cells()))
      ensures old(Kept()) ==> Kept()
    {
      if !trivial {
        :- AddDataToTx(n, size - n);
        for i := n to size
          modifies data
          invariant old(Kept()) ==> Kept()
          invariant data != null ==> data[..n] == old(data[..n])
        {
          Spoil(data, i);
        }
      }
      SetSize(n);
      return Pass;
    }

    method PutNext(at: nat, items: seq<T>, k: nat, ghost was: seq<T>) returns (o: Outcome)
      requires data != null && k < |items| && at + |items| <= data.Length == |was|
      requires data[..] == Overwritten(was, at, items[..k])
      modifies this`budget, data
      ensures o.Fail? ==> Faulted()
      ensures o.Pass? ==> data[..] == Overwritten(was, at, items[..k + 1])
      ensures old(Kept() && Writable(data, at + k)) ==> Kept()
    {
      OverwrittenStep(was, at, items, k);
      o := Put(data, at + k, items[k]);
    }

    /** Constructions or assignments of a run of cells. */
    method PutAll(at: nat, items: seq<T>) returns (o: Outcome)
      requires items != [] ==> data != null && at + |items| <= data.Length
      modifies this`budget, data
      ensures o.Fail? ==> Faulted()
      ensures o.Pass? && data != null && at <= data.Length ==> data[..] == Overwritten(old(data[..]), at, items)
      ensures old(Kept() && (data != null ==> WritableAll(data, at, at + |items|))) ==> Kept()
    {
      if items == [] {
        return Pass;
      }
      o := PutEach(at, items);
    }

    method PutEach(at: nat, items: seq<T>) returns (o: Outcome)
      requires data != null && at + |items| <= data.Length
      modifies this`budget, data
      ensures o.Fail? ==> Faulted()
      ensures o.Pass? ==> data[..] == Overwritten(old(data[..]), at, items)
      ensures old(Kept() && WritableAll(data, at, at + |items|)) ==> Kept()
    {
      ghost var ok := Kept() && WritableAll(data, at, at + |items|);
      ghost var was := data[..];
      assert Overwritten(was, at, []) == was;
      for k := 0 to |items|
        invariant ok ==> Kept()
        invariant data[..] == Overwritten(was, at, items[..k])
        modifies this`budget, data
      {
        :- PutNext(at, items, k, was);
      }
      assert items[..|items|] == items;
      return Pass;
    }

    /** construct_at_end of a range of other elements */
    method ConstructAtEnd(items: seq<T>) returns (o: Outcome)
      requires size + |items| <= capacity && (if data == null then capacity == 0 else data.Length == capacity)
      modifies this`size, this`oldSize, this`budget, data
      ensures o.Fail? ==> Faulted()
      ensures o.Pass? ==> size == old(size) + |items| && (data != null ==> data[..size] == old(data[..size]) + items)
      ensures o.Pass? ==> TailKept(old(Cells()))
      ensures old(Kept() && Secured(size + |items|)) ==> Kept()
    {
      var dest := size;
      SetSize(size + |items|);
      assert old(Kept()) ==> Kept();
      o := PutAll(dest, items);
    }

    /** A construction or assignment of one cell by a move from another. */
    method Move(a: array<T>, i: nat, src: array<T>, j: nat) returns (o: Outcome)
      requires i < a.Length && j < src.Length && a != src
      modifies this`budget, a, src
      ensures o.Fail? ==> Faulted()
      ensures o.Pass? ==> a[..] == old(a[..])[i := old(src[j])] && src[..] == old(src[..])[j := gone(old(src[j]))]
      ensures old(Kept()) && Writable(a, i) && Writable(src, j) ==> Kept()
    {
      o := Pass;
      :- Put(a, i, src[j]);
      Spoil(src, j);
    }

    /** construct_at_end of the elements lo up to hi of another array, by moves */
    method MoveToEnd(src: array<T>, lo: nat, hi: nat) returns (o: Outcome)
      requires data != null && src != data && lo <= hi <= src.Length
      requires size + (hi - lo) <= capacity == data.Length
      modifies this`size, this`oldSize, this`budget, data, src
      ensures o.Fail? ==> Faulted()
      ensures o.Pass? ==> size == old(size) + (hi - lo) && data[..size] == old(data[..size]) + old(src[lo..hi])
      ensures o.Pass? ==> src[..] == Spoiled(gone, old(src[..]), lo, hi)
      ensures old(Kept() && data != beforeData && WritableAll(src, lo, hi)) ==> Kept()
    {
      ghost var ok := Kept() && data != beforeData && WritableAll(src, lo, hi);
      ghost var had, from := data[..size], src[..];
      var dest := size;
      SetSize(size + (hi - lo));
      for k := 0 to hi - lo
        modifies this`budget, data, src
        invariant ok ==> Kept()
        invariant src[..] == Spoiled(gone, from, lo, lo + k)
        invariant data[..dest + k] == had + from[lo..lo + k]
      {
        :- MoveNext(src, lo, k, dest, had, from);
      }
      return Pass;
    }

    method MoveNext(src: array<T>, lo: nat, k: nat, dest: nat, ghost had: seq<T>, ghost from: seq<T>) returns (o: Outcome)
      requires data != null && src != data && lo + k < |from| == src.Length && dest + k < data.Length && |had| == dest
      requires src[..] == Spoiled(gone, from, lo, lo + k) && data[..dest + k] == had + from[lo..lo + k]
      modifies this`budget, data, src
      ensures o.Fail? ==> Faulted()
      ensures o.Pass? ==> src[..] == Spoiled(gone, from, lo, lo + (k + 1)) && data[..dest + (k + 1)] == had + from[lo..lo + (k + 1)]
      ensures old(Kept()) && Writable(data, dest + k) && Writable(src, lo + k) ==> Kept()
    {
      AppendStep(data[..], had, from, dest, lo, k);
      SpoiledStep(gone, from, lo, lo + k);
      o := Move(data, dest + k, src, lo + k);
    }

    /** alloc */
    method Alloc(n: nat) returns (o: Outcome)
      requires data == null
      modifies this`capacity, this`oldCapacity, this`data, this`oldData, this`live, this`budget
      ensures o.Fail? ==> Faulted() || n > maxSize
      ensures old(Kept()) ==> Kept()
      ensures o.Pass? ==> capacity == n <= maxSize && live == old(live) + Owned(data) && (data == null <==> n == 0)
      ensures data != null ==> fresh(data) && data.Length == n
    {
      if n > maxSize {
        return Fail;
      }
      SetCapacity(n);
      if n == 0 {
        return Pass;
      }
      :- Spend();
      var a := new T[n];
      live := live + {a};
      SetData(a);
      return Pass;
    }

    /** dealloc */
    method Dealloc() returns (o: Outcome)
      requires Valid()
      modifies this`size, this`oldSize, this`capacity, this`oldCapacity, this`data, this`oldData, this`log, this`live, this`budget, data
      ensures o.Fail? ==> Faulted()
      ensures o.Pass? ==> Valid() && data == null && Left(old(data), old(Cells()), old(log), if trivial then 0 else old(size))
      ensures o.Pass? ==> Seen(old(log), old(Cells()), old(size))
      ensures old(Kept()) ==> Kept()
      ensures data == old(data) || data == null || fresh(data)
    {
      if data != null {
        :- Shrink(0);
        :- TxFree(data);
        SetData(null);
        SetCapacity(0);
      }
      return Pass;
    }

    /** The end of a reallocation: destroy and free the old array. */
    method Discard(a: array?<T>, n: nat) returns (o: Outcome)
      requires a != null ==> n <= a.Length && a != data
      requires a == null || a in live
      modifies this`live, this`budget, a
      ensures o.Fail? ==> Faulted()
      ensures o.Pass? ==> live == old(live) - Owned(a)
      ensures trivial && a != null ==> a[..] == old(a[..])
      ensures old(Kept()) && (a != null ==> WritableAll(a, 0, n)) ==> Kept()
    {
      ghost var ok := Kept() && (a != null ==> WritableAll(a, 0, n));
      if a != null && !trivial {
        for i := 0 to n
          modifies a
          invariant ok ==> Kept()
        {
          Spoil(a, i);
        }
      }
      o := TxFree(a);
    }

    /** The start of a reallocation: log the elements and forget the array. */
    method Detach() returns (o: Outcome)
      requires Valid()
      modifies this`size, this`oldSize, this`capacity, this`oldCapacity, this`data, this`oldData, this`log, this`budget
      ensures o.Fail? ==> Faulted()
      ensures o.Pass? ==> data == null && size == 0 && capacity == 0
      ensures o.Pass? && old(data) != null ==> WritableAll(old(data), 0, old(size))
      ensures o.Pass? ==> LogGrew(old(log), old(data), 0, old(size)) && Seen(old(log), old(Cells()), old(size))
      ensures old(Kept()) ==> Kept()
      ensures data == old(data) || data == null
    {
      o := Pass;
      :- AddDataToTx(0, size);
      assert data != null ==> WritableAll(data, 0, size);
      assert old(Kept()) ==> Kept();
      SetData(null);
      SetSize(0);
      SetCapacity(0);
    }

    /** realloc */
    method Realloc(n: nat) returns (o: Outcome)
      requires Valid()
      modifies this`size, this`oldSize, this`capacity, this`oldCapacity, this`data, this`oldData
      modifies this`log, this`live, this`budget, data
      ensures o.Fail? ==> Faulted() || n > maxSize
      ensures o.Pass? ==> Valid() && capacity == n && Contents() == old(Contents())[..Min(n, |old(Contents())|)]
      ensures old(Kept()) ==> Kept()
      ensures o.Pass? ==> data == null || fresh(data)
      ensures o.Pass? ==> Left(old(data), Spoiled(gone, old(Cells()), 0, Min(n, old(size))), old(log), old(size))
      ensures o.Pass? ==> Seen(old(log), old(Cells()), old(size))
      ensures data == old(data) || data == null || fresh(data)
    {
      if data == null {
        o := Alloc(n);
        return o;
      }
      o := Relocate(n);
    }

    /** realloc of an existing array */
    method Relocate(n: nat) returns (o: Outcome)
      requires Valid() && data != null
      modifies this`size, this`oldSize, this`capacity, this`oldCapacity, this`data, this`oldData
      modifies this`log, this`live, this`budget, data
      ensures o.Fail? ==> Faulted() || n > maxSize
      ensures o.Pass? ==> Valid() && capacity == n && Contents() == old(Contents())[..Min(n, |old(Contents())|)]
      ensures old(Kept()) ==> Kept()
      ensures o.Pass? ==> data == null || fresh(data)
      ensures o.Pass? ==> Left(old(data), Spoiled(gone, old(Cells()), 0, Min(n, old(size))), old(log), old(size))
      ensures o.Pass? ==> Seen(old(log), old(Cells()), old(size))
      ensures data == old(data) || data == null || fresh(data)
    {
      var a: array<T>, m := data, size;
      :- Detach();
      :- MoveOver(a, Min(n, m), n);
      o := Discard(a, m);
    }

    /** A new array of n cells that starts with the first k elements of another. */
    method MoveOver(a: array<T>, k: nat, n: nat) returns (o: Outcome)
      requires data == null && size == 0 && k <= a.Length && k <= n
      modifies this`size, this`oldSize, this`capacity, this`oldCapacity, this`data, this`oldData, this`live, this`budget, a
      ensures o.Fail? ==> Faulted() || n > maxSize
      ensures o.Pass? ==> size == k && capacity == n <= maxSize && live == old(live) + Owned(data)
      ensures o.Pass? ==> if data == null then n == 0 else data.Length == n > 0 && data[..k] == old(a[..k])
      ensures o.Pass? ==> a[..] == Spoiled(gone, old(a[..]), 0, k)
      ensures old(Kept() && WritableAll(a, 0, k)) ==> Kept()
      ensures data == null || fresh(data)
    {
      o := Pass;
      :- Alloc(n);
      if data != null {
        o := MoveToEnd(a, 0, k);
      }
    }

    /** An element moved to another cell of the array. */
    method MoveWithin(i: nat, j: nat) returns (o: Outcome)
      requires data != null && i < data.Length && j < data.Length
      modifies this`budget, data
      ensures o.Fail? ==> Faulted()
      ensures o.Pass? ==> data[..] == old(data[..])[i := old(data[j])][j := gone(old(data[j]))]
      ensures old(Kept()) && Writable(data, i) && Writable(data, j) ==> Kept()
    {
      o := Pass;
      :- Put(data, i, data[j]);
      assert i == j ==> data[j] == old(data[j]);
      Spoil(data, j);
    }

    /** A step of move_elements_backward */
    method MoveUp(target: nat, last: nat, ghost was: seq<T>) returns (o: Outcome)
      requires data != null && last <= target && last < size && size + (target - last) <= data.Length
      requires Lifted(gone, was, data[..], last + 1, size, target - last)
      modifies this`budget, data
      ensures o.Fail? ==> Faulted()
      ensures o.Pass? ==> Lifted(gone, was, data[..], last, size, target - last)
      ensures old(Kept() && WritableAll(data, last, target + 1)) ==> Kept()
    {
      LiftedStep(gone, was, data[..], last, size, target - last);
      o := MoveWithin(target, last);
    }

    /** std::move_backward, from [idx, last) to the cells that end at target */
    method MoveBackward(idx: nat, last: nat, target: nat, ghost was: seq<T>) returns (o: Outcome)
      requires data != null && idx <= last <= target && last <= size && size + (target - last) <= data.Length
      requires Lifted(gone, was, data[..], last, size, target - last)
      modifies this`budget, data
      ensures o.Fail? ==> Faulted()
      ensures o.Pass? ==> Lifted(gone, was, data[..], idx, size, target - last)
      ensures old(Kept() && WritableAll(data, idx, target)) ==> Kept()
    {
      ghost var ok := Kept() && WritableAll(data, idx, target);
      var l, t := last, target;
      while l != idx
        invariant idx <= l <= last && t - l == target - last
        invariant ok ==> Kept()
        invariant Lifted(gone, was, data[..], l, size, t - l)
        modifies this`budget, data
      {
        l, t := l - 1, t - 1;
        :- MoveUp(t, l, was);
      }
      return Pass;
    }

    /** move_elements_backward, from [idx, size) to the cells that end at size + count */
    method MoveElementsBackward(idx: nat, count: nat) returns (o: Outcome)
      requires data != null && idx <= size && size + count <= data.Length
      modifies this`budget, data
      ensures o.Fail? ==> Faulted()
      ensures o.Pass? ==> Lifted(gone, old(data[..]), data[..], idx, size, count)
      ensures old(Kept() && WritableAll(data, idx, size + count)) ==> Kept()
    {
      ghost var ok := Kept() && WritableAll(data, idx, size + count);
      ghost var was := data[..];
      var last, target := size, size + count;
      while last != idx && target >= size
        invariant idx <= last <= size && target - last == count
        invariant ok ==> Kept()
        invariant Lifted(gone, was, data[..], last, size, target - last)
        modifies this`budget, data
      {
        last, target := last - 1, target - 1;
        :- MoveUp(target, last, was);
      }
      o := MoveBackward(idx, last, target, was);
    }

    /** construct_or_assign */
    method ConstructOrAssign(idx: nat, items: seq<T>) returns (o: Outcome)
      requires data != null && idx <= size && size + |items| <= data.Length
      modifies this`size, this`oldSize, this`budget, data
      ensures o.Fail? ==> Faulted()
      ensures o.Pass? ==> size == old(size) + |items|
      ensures o.Pass? ==> data[..] == Overwritten(old(data[..]), idx, items)
      ensures old(Kept() && WritableAll(data, idx, idx + |items|)) ==> Kept()
    {
      var initialized := Min(size - idx, |items|);
      ghost var was := data[..];
      OverwrittenTwice(was, idx, items, initialized);
      :- PutAll(idx, items[..initialized]);
      assert data[..] == Overwritten(was, idx, items[..initialized]);
      :- PutAll(idx + initialized, items[initialized..]);
      SetSize(size + |items|);
      return Pass;
    }

    /** internal_insert when the elements fit */
    method InsertInPlace(idx: nat, items: seq<T>) returns (o: Outcome)
      requires Valid() && data != null && idx <= size && size + |items| <= capacity
      modifies this`size, this`oldSize, this`log, this`budget, data
      ensures o.Fail? ==> Faulted()
      ensures o.Pass? ==> Valid() && Contents() == Inserted(gone, old(Contents()), idx, items)
      ensures o.Pass? ==> LogGrew(old(log), data, idx, old(size) + |items|) && TailKept(old(Cells()))
      ensures Seen(old(log), old(Cells()), old(size))
      ensures old(Kept() && Secured(size + |items|)) ==> Kept()
    {
      o := Pass;
      :- AddDataToTx(idx, size - idx + |items|);
      o := FillGap(idx, items);
    }

    /** The part of internal_insert after the tracking. */
    method FillGap(idx: nat, items: seq<T>) returns (o: Outcome)
      requires Valid() && data != null && idx <= size && size + |items| <= capacity
      modifies this`size, this`oldSize, this`budget, data
      ensures o.Fail? ==> Faulted()
      ensures o.Pass? ==> Valid() && Contents() == Inserted(gone, old(Contents()), idx, items) && TailKept(old(Cells()))
      ensures old(Kept() && WritableAll(data, idx, size + |items|)) ==> Kept()
    {
      ghost var was, n := data[..], size;
      o := Pass;
      :- MoveElementsBackward(idx, |items|);
      ghost var c := data[..];
      o := ConstructOrAssign(idx, items);
      if o.Pass? {
        GapFilled(gone, was, c, data[..], idx, n, items);
      }
    }

    /** The elements of the old array around the inserted ones. */
    method MoveAround(a: array<T>, m: nat, idx: nat, items: seq<T>) returns (o: Outcome)
      requires data != null && data != a && size == 0 && idx <= m <= a.Length && m + |items| <= capacity == data.Length
      modifies this`size, this`oldSize, this`budget, data, a
      ensures o.Fail? ==> Faulted()
      ensures o.Pass? ==> size == m + |items| && data[..size] == old(a[..idx]) + items + old(a[idx..m])
      ensures o.Pass? ==> a[..] == Spoiled(gone, old(a[..]), 0, m)
      ensures old(Kept() && data != beforeData && WritableAll(a, 0, m)) ==> Kept()
    {
      ghost var was := a[..];
      :- MoveToEnd(a, 0, idx);
      :- ConstructAtEnd(items);
      SpoiledTwice(gone, was, 0, idx, m);
      o := MoveToEnd(a, idx, m);
    }

    /** alloc(get_recommended_capacity(n)) */
    method AllocFor(n: nat) returns (o: Outcome)
      requires data == null && 0 < n && Possible(n)
      modifies this`capacity, this`oldCapacity, this`data, this`oldData, this`live, this`budget
      ensures o.Fail? ==> Faulted() || Ceiling(n) > maxSize
      ensures old(Kept()) ==> Kept()
      ensures data != null ==> fresh(data)
      ensures o.Pass? ==> data != null && n <= capacity == data.Length <= maxSize && capacity == Ceiling(n) && live == old(live) + {data}
    {
      var c := RecommendedCapacity(n);
      o := Alloc(c);
    }

    /** The new array of internal_insert: the elements before idx, the items, the rest. */
    method Refill(a: array?<T>, m: nat, idx: nat, items: seq<T>, ghost was: seq<T>) returns (o: Outcome)
      requires data == null && size == 0 && idx <= m && 0 < |items| && Possible(m + |items|)
      requires if a == null then m == 0 && was == [] else m <= a.Length && was == a[..m]
      modifies this`size, this`oldSize, this`capacity, this`oldCapacity, this`data, this`oldData, this`live, this`budget, a
      ensures o.Fail? ==> Faulted() || Ceiling(m + |items|) > maxSize
      ensures o.Pass? ==> data != null && live == old(live) + {data}
      ensures o.Pass? ==> size == m + |items| <= capacity == data.Length <= maxSize && capacity == Ceiling(m + |items|)
      ensures o.Pass? ==> data[..size] == was[..idx] + items + was[idx..]
      ensures o.Pass? && a != null ==> a[..] == Spoiled(gone, old(a[..]), 0, m)
      ensures old(Kept() && (a != null ==> WritableAll(a, 0, m))) ==> Kept()
      ensures data == null || fresh(data)
    {
      o := Pass;
      :- AllocFor(m + |items|);
      if a == null {
        o := ConstructAtEnd(items);
      } else {
        assert a[..idx] == was[..idx] && a[idx..m] == was[idx..];
        o := MoveAround(a, m, idx, items);
      }
    }

    /** The old array replaced by the new one. */
    method Replace(a: array?<T>, m: nat, idx: nat, items: seq<T>, ghost was: seq<T>) returns (o: Outcome)
      requires data == null && size == 0 && idx <= m && 0 < |items| && Possible(m + |items|)
      requires if a == null then m == 0 && was == [] else m <= a.Length && was == a[..m]
      requires live == Owned(a)
      modifies this`size, this`oldSize, this`capacity, this`oldCapacity, this`data, this`oldData, this`live, this`budget, a
      ensures o.Fail? ==> Faulted() || Ceiling(m + |items|) > maxSize
      ensures o.Pass? ==> Valid() && size == m + |items| && capacity == Ceiling(m + |items|)
      ensures o.Pass? ==> Contents() == was[..idx] + items + was[idx..]
      ensures o.Pass? && a != null && trivial ==> a[..] == Spoiled(gone, old(a[..]), 0, m)
      ensures old(Kept() && (a != null ==> WritableAll(a, 0, m))) ==> Kept()
      ensures data == null || fresh(data)
    {
      o := Pass;
      :- Refill(a, m, idx, items, was);
      assert live == Owned(a) + {data};
      o := Discard(a, m);
    }

    /** internal_insert into a new array */
    method InsertMoving(idx: nat, items: seq<T>) returns (o: Outcome)
      requires Valid() && idx <= size && capacity < size + |items| && Possible(size + |items|)
      modifies this`size, this`oldSize, this`capacity, this`oldCapacity, this`data, this`oldData
      modifies this`log, this`live, this`budget, data
      ensures o.Fail? ==> Faulted() || Ceiling(old(size) + |items|) > maxSize
      ensures o.Pass? ==> Valid() && capacity == Ceiling(old(size) + |items|)
      ensures o.Pass? ==> Contents() == old(Contents())[..idx] + items + old(Contents())[idx..]
      ensures old(Kept()) ==> Kept()
      ensures data == old(data) || data == null || fresh(data)
      ensures o.Pass? ==> data == null || fresh(data)
      ensures o.Pass? ==> Left(old(data), Spoiled(gone, old(Cells()), 0, old(size)), old(log), old(size))
      ensures o.Pass? ==> Seen(old(log), old(Cells()), old(size))
    {
      var a, m := data, size;
      :- Detach();
      o := Replace(a, m, idx, items, old(Contents()));
    }

    /** internal_insert */
    method InternalInsert(idx: nat, items: seq<T>) returns (o: Outcome)
      requires Valid() && idx <= size && Possible(size + |items|)
      modifies this`size, this`oldSize, this`capacity, this`oldCapacity, this`data, this`oldData
      modifies this`log, this`live, this`budget, data
      ensures o.Fail? ==> Faulted() || Grown(old(capacity), old(size) + |items|) > maxSize
      ensures o.Pass? ==> Valid() && capacity == Grown(old(capacity), old(size) + |items|)
      ensures o.Pass? ==> Contents() == Inserted(gone, old(Contents()), idx, items)
      ensures old(Kept() && Secured(size + |items|)) ==> Kept()
      ensures o.Pass? && old(size + |items| <= capacity) ==>
        data == old(data) && LogGrew(old(log), data, idx, old(size) + |items|)
      ensures o.Pass? && old(size + |items| <= capacity) ==> TailKept(old(Cells()))
      ensures o.Pass? && old(capacity < size + |items|) ==>
        (data == null || fresh(data)) && Left(old(data), Spoiled(gone, old(Cells()), 0, old(size)), old(log), old(size))
      ensures o.Pass? ==> Seen(old(log), old(Cells()), old(size))
      ensures data == old(data) || data == null || fresh(data)
    {
      if size + |items| <= capacity {
        if data == null {
          return Pass;
        }
        o := InsertInPlace(idx, items);
      } else {
        o := InsertMoving(idx, items);
      }
    }

    /** The space for one more element. */
    method MakeRoom() returns (o: Outcome)
      requires Valid() && Possible(size + 1)
      modifies this`size, this`oldSize, this`capacity, this`oldCapacity, this`data, this`oldData
      modifies this`log, this`live, this`budget, data
      ensures o.Fail? ==> Faulted() || Grown(old(capacity), old(size) + 1) > maxSize
      ensures o.Pass? ==> Valid() && capacity == Grown(old(capacity), old(size) + 1) && size + 1 <= capacity
      ensures o.Pass? ==> Contents() == old(Contents()) && data != null && (data == old(data) || fresh(data))
      ensures old(Kept() && Secured(size + 1)) ==> Kept()
      ensures o.Pass? && old(size < capacity) ==>
        data == old(data) && LogGrew(old(log), data, old(size), old(size) + 1)
      ensures o.Pass? && old(size < capacity) ==> Cells() == old(Cells())
      ensures o.Pass? && old(size == capacity) ==>
        (data == null || fresh(data)) && Left(old(data), Spoiled(gone, old(Cells()), 0, old(size)), old(log), old(size))
      ensures o.Pass? ==> Seen(old(log), old(Cells()), old(size))
      ensures data == old(data) || data == null || fresh(data)
    {
      if size == capacity {
        var n := RecommendedCapacity(size + 1);
        o := Realloc(n);
      } else {
        o := AddDataToTx(size, 1);
      }
    }

    /** emplace_back, push_back */
    method EmplaceBack(v: T) returns (o: Outcome)
      requires Valid() && Possible(size + 1)
      modifies this`size, this`oldSize, this`capacity, this`oldCapacity, this`data, this`oldData
      modifies this`log, this`live, this`budget, data
      ensures o.Fail? ==> Faulted() || Grown(old(capacity), old(size) + 1) > maxSize
      ensures o.Pass? ==> Valid() && capacity == Grown(old(capacity), old(size) + 1)
      ensures o.Pass? ==> Contents() == old(Contents()) + [v]
      ensures old(Kept() && Secured(size + 1)) ==> Kept()
      ensures o.Pass? && old(size < capacity) ==>
        data == old(data) && LogGrew(old(log), data, old(size), old(size) + 1)
      ensures o.Pass? && old(size < capacity) ==> TailKept(old(Cells()))
      ensures o.Pass? && old(size == capacity) ==>
        (data == null || fresh(data)) && Left(old(data), Spoiled(gone, old(Cells()), 0, old(size)), old(log), old(size))
      ensures o.Pass? ==> Seen(old(log), old(Cells()), old(size))
      ensures data == old(data) || data == null || fresh(data)
    {
      o := Pass;
      :- MakeRoom();
      o := ConstructAtEnd([v]);
    }

    /** resize to n default elements */
    method Resize(n: nat, blank: T) returns (o: Outcome)
      requires Valid()
      modifies this`size, this`oldSize, this`capacity, this`oldCapacity, this`data, this`oldData
      modifies this`log, this`live, this`budget, data
      ensures o.Fail? ==> Faulted() || n > maxSize
      ensures o.Pass? ==> Valid() && capacity == (if old(capacity) < n then n else old(capacity))
      ensures o.Pass? ==> Contents() == Resized(old(Contents()), n, blank) && Fitted(old(Contents()), n, blank, Contents())
      ensures old(Kept() && Secured(n)) ==> Kept()
      ensures o.Pass? && n <= old(capacity) ==>
        data == old(data) && LogGrew(old(log), data, n, if trivial then n else old(size)) && (old(size) < n ==> log == old(log))
      ensures o.Pass? && n <= old(capacity) ==> TailKept(old(Cells()))
      ensures o.Pass? && old(capacity) < n ==>
        (data == null || fresh(data)) && Left(old(data), Spoiled(gone, old(Cells()), 0, old(size)), old(log), old(size))
      ensures o.Pass? ==> Seen(old(log), old(Cells()), old(size))
      ensures data == old(data) || data == null || fresh(data)
    {
      ResizedFits(Contents(), n, blank);
      if n <= size {
        o := Shrink(n);
        return o;
      }
      if capacity < n {
        :- Realloc(n);
      }
      o := ConstructAtEnd(seq(n - size, _ => blank));
    }

    /** std::move of the elements from idx + count on to idx */
    method MoveForward(idx: nat, count: nat) returns (o: Outcome)
      requires data != null && 0 < count && idx + count <= size <= data.Length
      modifies this`budget, data
      ensures o.Fail? ==> Faulted()
      ensures o.Pass? ==> Closed(gone, old(data[..]), data[..], idx, count, size - idx - count)
      ensures old(Kept() && (idx + count < size ==> WritableAll(data, idx, size))) ==> Kept()
    {
      ghost var ok := Kept() && (idx + count < size ==> WritableAll(data, idx, size));
      ghost var was := data[..];
      for k := 0 to size - idx - count
        invariant ok ==> Kept()
        invariant Closed(gone, was, data[..], idx, count, k)
        modifies this`budget, data
      {
        :- MoveDown(idx, count, k, was);
      }
      return Pass;
    }

    method MoveDown(idx: nat, count: nat, k: nat, ghost was: seq<T>) returns (o: Outcome)
      requires data != null && 0 < count && Closed(gone, was, data[..], idx, count, k) && idx + count + k < data.Length
      modifies this`budget, data
      ensures o.Fail? ==> Faulted()
      ensures o.Pass? ==> Closed(gone, was, data[..], idx, count, k + 1)
      ensures old(Kept()) && Writable(data, idx + k) && Writable(data, idx + count + k) ==> Kept()
    {
      ClosedStep(gone, was, data[..], idx, count, k);
      o := MoveWithin(idx + k, idx + count + k);
    }

    /** erase */
    method Erase(idx: nat, count: nat) returns (o: Outcome)
      requires Valid() && idx + count <= size
      modifies this`size, this`oldSize, this`log, this`budget, data
      ensures o.Fail? ==> Faulted()
      ensures o.Pass? ==> Valid() && Contents() == old(Contents())[..idx] + old(Contents())[idx + count..]
      ensures old(Kept()) ==> Kept()
      ensures o.Pass? ==> LogGrew(old(log), data, idx, if count == 0 || (trivial && idx + count == old(size)) then idx else old(size))
      ensures o.Pass? ==> Seen(old(log), old(Cells()), old(size))
      ensures o.Pass? ==> TailKept(if count == 0 then old(Cells()) else Spoiled(gone, old(Cells()), idx + count, old(size)))
    {
      if count == 0 {
        assert Contents()[..idx] + Contents()[idx..] == Contents();
        return Pass;
      }
      if !trivial || idx + count < size {
        :- AddDataToTx(idx, size - idx);
      }
      o := CloseGap(idx, count);
    }

    /** The elements after a gap moved down into it. */
    method CloseGap(idx: nat, count: nat) returns (o: Outcome)
      requires Valid() && 0 < count && idx + count <= size
      modifies this`size, this`oldSize, this`budget, data
      ensures o.Fail? ==> Faulted()
      ensures o.Pass? ==> Valid() && Contents() == old(Contents())[..idx] + old(Contents())[idx + count..]
      ensures o.Pass? ==> TailKept(Spoiled(gone, old(Cells()), idx + count, old(size)))
      ensures old(Kept() && (idx + count < size ==> WritableAll(data, idx, size))) ==> Kept()
    {
      ghost var was, n := data[..], size;
      o := MoveForward(idx, count);
      if o.Pass? {
        SetSize(size - count);
        ClosedSlices(gone, was, data[..], idx, count, n);
      }
    }

    /** The cells that assign overwrites or constructs. */
    method TrackForAssign(n: nat) returns (o: Outcome)
      requires Valid() && data != null && n <= capacity
      modifies this`log, this`budget
      ensures o.Fail? ==> Faulted()
      ensures o.Pass? ==> LogGrew(old(log), data, 0, if n < size then size else n)
      ensures Seen(old(log), old(Cells()), old(size))
      ensures old(Kept() && Secured(n)) ==> Kept()
    {
      o := Pass;
      :- AddDataToTx(0, size);
      if n > size {
        o := AddDataToTx(size, n - size);
        return o;
      }
    }

    /** assign of a range, when it fits */
    method AssignInPlace(items: seq<T>) returns (o: Outcome)
      requires Valid() && data != null && |items| <= capacity
      modifies this`size, this`oldSize, this`log, this`budget, data
      ensures o.Fail? ==> Faulted()
      ensures o.Pass? ==> Valid() && Contents() == items
      ensures o.Pass? ==> LogGrew(old(log), data, 0, if |items| < old(size) then old(size) else |items|)
      ensures o.Pass? ==> Seen(old(log), old(Cells()), old(size)) && TailKept(old(Cells()))
      ensures old(Kept() && Secured(|items|)) ==> Kept()
    {
      o := Pass;
      :- TrackForAssign(|items|);
      o := OverwriteTracked(items);
    }

    /** The part of assign after the tracking. */
    method OverwriteTracked(items: seq<T>) returns (o: Outcome)
      requires Valid() && data != null && |items| <= capacity
      requires forall i :: 0 <= i < size || 0 <= i < |items| ==> (data, i) in log
      modifies this`size, this`oldSize, this`log, this`budget, data
      ensures o.Fail? ==> Faulted()
      ensures o.Pass? ==> Valid() && Contents() == items && log == old(log) && TailKept(old(Cells()))
      ensures old(Kept()) ==> Kept()
    {
      var n := size;
      var growing := |items| > n;
      :- CopyOver(items[..Min(n, |items|)]);
      assert items[..Min(n, |items|)] + items[Min(n, |items|)..] == items;
      if growing {
        o := ConstructAtEnd(items[n..]);
      } else {
        o := Shrink(|items|);
      }
    }

    /** std::copy over the first elements */
    method CopyOver(items: seq<T>) returns (o: Outcome)
      requires data != null && |items| <= data.Length
      modifies this`budget, data
      ensures o.Fail? ==> Faulted()
      ensures o.Pass? ==> data[..] == Overwritten(old(data[..]), 0, items)
      ensures old(Kept() && WritableAll(data, 0, |items|)) ==> Kept()
    {
      o := PutAll(0, items);
    }

    /** assign of a range */
    method Assign(items: seq<T>) returns (o: Outcome)
      requires Valid()
      modifies this`size, this`oldSize, this`capacity, this`oldCapacity, this`data, this`oldData
      modifies this`log, this`live, this`budget, data
      ensures o.Fail? ==> Faulted() || |items| > maxSize
      ensures o.Pass? ==> Valid() && capacity == (if old(capacity) < |items| then |items| else old(capacity))
      ensures o.Pass? ==> Contents() == items
      ensures old(Kept() && Secured(|items|)) ==> Kept()
      ensures o.Pass? && |items| <= old(capacity) ==>
        data == old(data) &&
        LogGrew(old(log), data, 0, if |items| < old(size) then old(size) else |items|)
      ensures o.Pass? && |items| <= old(capacity) ==> TailKept(old(Cells()))
      ensures o.Pass? && old(capacity) < |items| ==>
        (data == null || fresh(data)) && Left(old(data), old(Cells()), old(log), if trivial then 0 else old(size))
      ensures o.Pass? ==> Seen(old(log), old(Cells()), old(size))
      ensures data == old(data) || data == null || fresh(data)
    {
      if |items| <= capacity {
        if data == null {
          return Pass;
        }
        o := AssignInPlace(items);
      } else {
        :- Dealloc();
        :- Alloc(|items|);
        o := ConstructAtEnd(items);
      }
    }

    // ---------- transactions ----------

    /** No transaction is open. */
    ghost predicate Idle()
      reads this
    {
      Valid() && log == map[] && oldSize == None && oldCapacity == None && oldData == None && live == heap
    }

    constructor (trivial: bool, gone: T -> T, maxSize: nat)
      ensures Idle() && Contents() == [] && this.trivial == trivial && this.gone == gone && this.maxSize == maxSize
    {
      size, capacity, data := 0, 0, null;
      log, oldSize, oldCapacity, oldData := map[], None, None, None;
      heap, live, faulty, budget := {}, {}, false, 0;
      this.trivial, this.gone, this.maxSize := trivial, gone, maxSize;
    }

    method Begin(fault: Option<nat>, ghost given: set<nat>)
      requires Idle()
      modifies this`faulty, this`budget, this`before, this`beforeCapacity, this`beforeData, this`lost
      ensures Kept() && faulty == fault.Some? && lost == given
      ensures before == Contents() && beforeCapacity == capacity && beforeData == data
    {
      faulty := fault.Some?;
      if fault.Some? {
        budget := fault.value;
      }
      before, lost := Contents(), given;
      beforeCapacity, beforeData := capacity, data;
    }

    method Commit()
      requires Valid()
      modifies this`heap, this`log, this`oldSize, this`oldCapacity, this`oldData
      ensures Idle()
    {
      heap := live;
      log, oldSize, oldCapacity, oldData := map[], None, None, None;
    }

    /** The snapshots of the cells of an array written back. */
    method RestoreCells(a: array<T>)
      modifies a
      ensures forall i :: 0 <= i < a.Length ==> a[i] == RestoredCell(a, i, old(a[i]))
      ensures a == beforeData && |before| <= a.Length && old(KeptCells()) ==>
        forall i :: 0 <= i < |before| && i !in lost ==> a[i] == before[i]
    {
      for i := 0 to a.Length
        invariant forall j :: 0 <= j < i ==> a[j] == RestoredCell(a, j, old(a[j]))
        invariant forall j :: i <= j < a.Length ==> a[j] == old(a[j])
      {
        if (a, i) in log && log[(a, i)].Snapshot? {
          a[i] := log[(a, i)].value;
        }
      }
      if a == beforeData && |before| <= a.Length && old(KeptCells()) {
        forall i | 0 <= i < |before| && i !in lost ensures a[i] == before[i] {
          assert (beforeData, i) in log || beforeData[i] == old(beforeData[i]);
        }
      }
    }

    ghost function RestoredCell(a: array<T>, i: nat, now: T): T
      reads this
    {
      if (a, i) in log && log[(a, i)].Snapshot? then log[(a, i)].value else now
    }

    method RestoreFields()
      requires KeptFields()
      modifies this`size, this`capacity, this`data, this`live, this`oldSize, this`oldCapacity, this`oldData
      ensures Valid() && size == |before| && capacity == beforeCapacity && data == beforeData
      ensures live == heap && oldSize == None && oldCapacity == None && oldData == None
    {
      if oldSize.Some? {
        size := oldSize.value;
      }
      if oldCapacity.Some? {
        capacity := oldCapacity.value;
      }
      if oldData.Some? {
        data := oldData.value;
      }
      live := heap;
      oldSize, oldCapacity, oldData := None, None, None;
    }

    /** The rollback: arrays allocated since are gone, so only the cells of the array from before matter. */
    method Abort()
      requires KeptFields()
      modifies this`size, this`capacity, this`data, this`live, this`log, this`oldSize, this`oldCapacity, this`oldData, beforeData
      ensures Idle() && size == |before| && capacity == beforeCapacity && data == beforeData
      ensures old(KeptCells()) ==> forall i :: 0 <= i < |before| && i !in lost ==> Contents()[i] == before[i]
      ensures data != null ==> forall i :: 0 <= i < data.Length ==> data[i] == old(RestoredCell(beforeData, i, beforeData[i]))
    {
      RestoreFields();
      if data != null {
        RestoreCells(data);
      }
      log := map[];
    }

    // ---------- whole transactions ----------

    method Perform(op: Op<T>) returns (o: Outcome)
      requires Valid() && Legal(op, size)
      modifies this`size, this`oldSize, this`capacity, this`oldCapacity, this`data, this`oldData
      modifies this`log, this`live, this`budget, data
      ensures o.Fail? ==> Faulted() || CapacityAfter(op, old(size), old(capacity)) > maxSize
      ensures o.Pass? ==> Valid() && Contents() == After(gone, op, old(Contents()))
      ensures o.Pass? ==> capacity == CapacityAfter(op, old(size), old(capacity))
      ensures old(Kept() && Secured(SizeAfter(op, size))) ==> Kept()
      ensures o.Pass? && InPlace(op, old(size), old(capacity)) ==> data == old(data)
      ensures o.Pass? && !InPlace(op, old(size), old(capacity)) ==> data == null || fresh(data)
      ensures o.Pass? ==> Traces(op, old(size), old(capacity), old(data), old(Cells()), old(log))
      ensures data == old(data) || data == null || fresh(data)
    {
      if op.Insert? || op.Assign? {
        o := PerformRange(op);
      } else if op.EmplaceBack? || op.Resize? {
        o := PerformEnd(op);
      } else if op.Erase? {
        o := PerformErase(op);
      } else if op.PopBack? || op.Clear? {
        o := PerformDrop(op);
      } else {
        o := PerformStorage(op);
      }
    }

    method PerformRange(op: Op<T>) returns (o: Outcome)
      requires Valid() && Legal(op, size) && (op.Insert? || op.Assign?)
      modifies this`size, this`oldSize, this`capacity, this`oldCapacity, this`data, this`oldData
      modifies this`log, this`live, this`budget, data
      ensures o.Fail? ==> Faulted() || CapacityAfter(op, old(size), old(capacity)) > maxSize
      ensures o.Pass? ==> Valid() && Contents() == After(gone, op, old(Contents()))
      ensures o.Pass? ==> capacity == CapacityAfter(op, old(size), old(capacity))
      ensures old(Kept() && Secured(SizeAfter(op, size))) ==> Kept()
      ensures o.Pass? && InPlace(op, old(size), old(capacity)) ==> data == old(data)
      ensures o.Pass? && !InPlace(op, old(size), old(capacity)) ==> data == null || fresh(data)
      ensures o.Pass? ==> Traces(op, old(size), old(capacity), old(data), old(Cells()), old(log))
      ensures data == old(data) || data == null || fresh(data)
    {
      ghost var a, n, was, c, earlier := data, size, capacity, Cells(), log;
      match op {
        case Insert(idx, items) => o := InternalInsert(idx, items);
        case Assign(items) => o := Assign(items);
      }
      if o.Pass? {
        Traced(op, n, was, a, c, earlier);
      }
    }

    /** An operation has tracked what it should and left what it should in the cells. */
    lemma Traced(op: Op<T>, n: nat, was: nat, a: array?<T>, c: seq<T>, earlier: map<(array<T>, nat), Saved<T>>)
      requires Legal(op, n) && (a != null ==> n <= was == |c| == a.Length) && Seen(earlier, c, n)
      requires if InPlace(op, n, was) then Stayed(op, n, a, c, earlier)
               else Left(a, if op.Assign? || op.FreeData? then c else Spoiled(gone, c, 0, if a == null then 0 else n), earlier,
                         if trivial && (op.Assign? || op.FreeData?) then 0 else n)
      ensures Traces(op, n, was, a, c, earlier)
    {
      if InPlace(op, n, was) {
        StayedLogged(op, n, was, a, c, earlier);
        if trivial && a != null {
          CellsJoined(gone, op, n, was, c, a[..]);
        }
      } else {
        LeftLogged(op, n, was, a, c, earlier);
      }
    }

    ghost predicate Stayed(op: Op<T>, n: nat, a: array?<T>, c: seq<T>, earlier: map<(array<T>, nat), Saved<T>>)
      requires Legal(op, n) && (a != null ==> n <= |c| == a.Length)
      reads this, data, a
    {
      && data == a && LogGrew(earlier, a, TrackedFrom(op, trivial, n), TrackedTo(op, trivial, n))
      && (a != null ==> (size == SizeAfter(op, n) <= a.Length && a[..size] == After(gone, op, c[..n]) &&
                         TailKept(Base(gone, op, n, c))))
    }

    lemma StayedLogged(op: Op<T>, n: nat, was: nat, a: array?<T>, c: seq<T>, earlier: map<(array<T>, nat), Saved<T>>)
      requires Legal(op, n) && InPlace(op, n, was) && Seen(earlier, c, n)
      requires LogGrew(earlier, a, TrackedFrom(op, trivial, n), TrackedTo(op, trivial, n))
      ensures Logged(op, n, was, a, c, earlier, log)
    {
      assert forall i: nat :: Tracks(op, trivial, n, was, i) <==> TrackedFrom(op, trivial, n) <= i < TrackedTo(op, trivial, n);
    }

    lemma LeftLogged(op: Op<T>, n: nat, was: nat, a: array?<T>, c: seq<T>, earlier: map<(array<T>, nat), Saved<T>>)
      requires Legal(op, n) && !InPlace(op, n, was) && Seen(earlier, c, n)
      requires LogGrew(earlier, a, 0, if trivial && (op.Assign? || op.FreeData?) then 0 else n)
      ensures Logged(op, n, was, a, c, earlier, log)
    {
      assert forall i: nat :: Tracks(op, trivial, n, was, i) <==> i < if trivial && (op.Assign? || op.FreeData?) then 0 else n;
    }

    method PerformEnd(op: Op<T>) returns (o: Outcome)
      requires Valid() && Legal(op, size) && (op.EmplaceBack? || op.Resize?)
      modifies this`size, this`oldSize, this`capacity, this`oldCapacity, this`data, this`oldData
      modifies this`log, this`live, this`budget, data
      ensures o.Fail? ==> Faulted() || CapacityAfter(op, old(size), old(capacity)) > maxSize
      ensures o.Pass? ==> Valid() && Contents() == After(gone, op, old(Contents()))
      ensures o.Pass? ==> capacity == CapacityAfter(op, old(size), old(capacity))
      ensures old(Kept() && Secured(SizeAfter(op, size))) ==> Kept()
      ensures o.Pass? && InPlace(op, old(size), old(capacity)) ==> data == old(data)
      ensures o.Pass? && !InPlace(op, old(size), old(capacity)) ==> data == null || fresh(data)
      ensures o.Pass? ==> Traces(op, old(size), old(capacity), old(data), old(Cells()), old(log))
      ensures data == old(data) || data == null || fresh(data)
    {
      ghost var a, m, was, c, earlier := data, size, capacity, Cells(), log;
      match op {
        case EmplaceBack(v) => o := EmplaceBack(v);
        case Resize(n, blank) => o := Resize(n, blank);
      }
      if o.Pass? {
        Traced(op, m, was, a, c, earlier);
      }
    }

    method PerformErase(op: Op<T>) returns (o: Outcome)
      requires Valid() && Legal(op, size) && op.Erase?
      modifies this`size, this`oldSize, this`log, this`budget, data
      ensures o.Fail? ==> Faulted() || CapacityAfter(op, old(size), old(capacity)) > maxSize
      ensures o.Pass? ==> Valid() && Contents() == After(gone, op, old(Contents()))
      ensures o.Pass? ==> capacity == CapacityAfter(op, old(size), old(capacity))
      ensures old(Kept()) ==> Kept()
      ensures o.Pass? && InPlace(op, old(size), old(capacity)) ==> data == old(data)
      ensures o.Pass? && !InPlace(op, old(size), old(capacity)) ==> data == null || fresh(data)
      ensures o.Pass? ==> Traces(op, old(size), old(capacity), old(data), old(Cells()), old(log))
    {
      match op
      case Erase(idx, count) => o := EraseTraced(idx, count);
    }

    method EraseTraced(idx: nat, count: nat) returns (o: Outcome)
      requires Valid() && idx + count <= size
      modifies this`size, this`oldSize, this`log, this`budget, data
      ensures o.Fail? ==> Faulted()
      ensures o.Pass? ==> Valid() && Contents() == old(Contents())[..idx] + old(Contents())[idx + count..]
      ensures old(Kept()) ==> Kept()
      ensures o.Pass? ==> LogGrew(old(log), data, idx, if count == 0 || (trivial && idx + count == old(size)) then idx else old(size))
      ensures o.Pass? ==> Seen(old(log), old(Cells()), old(size))
      ensures o.Pass? ==> Traces(Op.Erase(idx, count), old(size), old(capacity), data, old(Cells()), old(log))
    {
      ghost var n, was, c, earlier := size, capacity, Cells(), log;
      o := Erase(idx, count);
      if o.Pass? {
        Traced(Op.Erase(idx, count), n, was, data, c, earlier);
      }
    }

    method PerformDrop(op: Op<T>) returns (o: Outcome)
      requires Valid() && Legal(op, size) && (op.PopBack? || op.Clear?)
      modifies this`size, this`oldSize, this`log, this`budget, data
      ensures o.Fail? ==> Faulted() || CapacityAfter(op, old(size), old(capacity)) > maxSize
      ensures o.Pass? ==> Valid() && Contents() == After(gone, op, old(Contents()))
      ensures o.Pass? ==> capacity == CapacityAfter(op, old(size), old(capacity))
      ensures old(Kept()) ==> Kept()
      ensures o.Pass? && InPlace(op, old(size), old(capacity)) ==> data == old(data)
      ensures o.Pass? && !InPlace(op, old(size), old(capacity)) ==> data == null || fresh(data)
      ensures o.Pass? ==> Traces(op, old(size), old(capacity), old(data), old(Cells()), old(log))
    {
      if op.PopBack? && size == 0 {
        return Pass;
      }
      ghost var n, was, c, earlier := size, capacity, Cells(), log;
      o := Shrink(if op.Clear? then 0 else size - 1);
      if o.Pass? {
        Traced(op, n, was, data, c, earlier);
      }
    }

    method PerformStorage(op: Op<T>) returns (o: Outcome)
      requires Valid() && Legal(op, size) && (op.Reserve? || op.ShrinkToFit? || op.FreeData?)
      modifies this`size, this`oldSize, this`capacity, this`oldCapacity, this`data, this`oldData
      modifies this`log, this`live, this`budget, data
      ensures o.Fail? ==> Faulted() || CapacityAfter(op, old(size), old(capacity)) > maxSize
      ensures o.Pass? ==> Valid() && Contents() == After(gone, op, old(Contents()))
      ensures o.Pass? ==> capacity == CapacityAfter(op, old(size), old(capacity))
      ensures old(Kept()) ==> Kept()
      ensures o.Pass? && InPlace(op, old(size), old(capacity)) ==> data == old(data)
      ensures o.Pass? && !InPlace(op, old(size), old(capacity)) ==> data == null || fresh(data)
      ensures o.Pass? ==> Traces(op, old(size), old(capacity), old(data), old(Cells()), old(log))
      ensures data == old(data) || data == null || fresh(data)
    {
      ghost var a, m, was, c, earlier := data, size, capacity, Cells(), log;
      o := Pass;
      match op {
        case Reserve(n) =>
          if n > capacity {
            o := Realloc(n);
          }
        case ShrinkToFit =>
          if capacity != size {
            o := Realloc(size);
          }
        case FreeData => o := Dealloc();
      }
      if o.Pass? {
        Traced(op, m, was, a, c, earlier);
      }
    }

    // ---------- operations by themselves ----------

    /** insert of a range that is not empty */
    method Insert(idx: nat, items: seq<T>) returns (o: Outcome)
      requires Valid() && idx <= size && items != [] && Possible(size + |items|)
      modifies this`size, this`oldSize, this`capacity, this`oldCapacity, this`data, this`oldData
      modifies this`log, this`live, this`budget, data
      ensures o.Fail? ==> Faulted() || Grown(old(capacity), old(size) + |items|) > maxSize
      ensures o.Pass? ==> Valid() && Contents() == old(Contents())[..idx] + items + old(Contents())[idx..]
      ensures o.Pass? && old(size) + |items| <= old(capacity) ==> capacity == old(capacity) && data == old(data)
    {
      o := Perform(Op.Insert(idx, items));
    }

    /** pop_back */
    method PopBack() returns (o: Outcome)
      requires Valid()
      modifies this`size, this`oldSize, this`capacity, this`oldCapacity, this`data, this`oldData
      modifies this`log, this`live, this`budget, data
      ensures o.Fail? ==> Faulted()
      ensures o.Pass? ==> Valid() && capacity == old(capacity) && data == old(data)
      ensures o.Pass? && old(size) > 0 ==> size == old(size) - 1 && Contents() == old(Contents())[..old(size) - 1]
      ensures o.Pass? && old(size) == 0 ==> size == 0
    {
      o := Perform(Op.PopBack);
    }

    /** clear */
    method Clear() returns (o: Outcome)
      requires Valid()
      modifies this`size, this`oldSize, this`capacity, this`oldCapacity, this`data, this`oldData
      modifies this`log, this`live, this`budget, data
      ensures o.Fail? ==> Faulted()
      ensures o.Pass? ==> Valid() && size == 0 && capacity == old(capacity) && data == old(data)
    {
      o := Perform(Op.Clear);
    }

    /** reserve */
    method Reserve(n: nat) returns (o: Outcome)
      requires Valid()
      modifies this`size, this`oldSize, this`capacity, this`oldCapacity, this`data, this`oldData
      modifies this`log, this`live, this`budget, data
      ensures o.Fail? ==> Faulted() || n > maxSize
      ensures o.Pass? ==> Valid() && Contents() == old(Contents()) && capacity >= n && capacity >= old(capacity)
      ensures o.Pass? ==> capacity == n || (capacity == old(capacity) && data == old(data))
    {
      o := Perform(Op.Reserve(n));
    }

    /** shrink_to_fit */
    method ShrinkToFit() returns (o: Outcome)
      requires Valid()
      modifies this`size, this`oldSize, this`capacity, this`oldCapacity, this`data, this`oldData
      modifies this`log, this`live, this`budget, data
      ensures o.Fail? ==> Faulted()
      ensures o.Pass? ==> Valid() && Contents() == old(Contents()) && capacity == size == old(size)
    {
      o := Perform(Op.ShrinkToFit);
    }

    /** free_data */
    method FreeData() returns (o: Outcome)
      requires Valid()
      modifies this`size, this`oldSize, this`capacity, this`oldCapacity, this`data, this`oldData
      modifies this`log, this`live, this`budget, data
      ensures o.Fail? ==> Faulted()
      ensures o.Pass? ==> Valid() && size == 0 && capacity == 0 && data == null
    {
      o := Perform(Op.FreeData);
    }

    /**
      An outermost transaction with any operations in it, in which something may be thrown at any
      point (fault) or abort may be called after all of them. Without a fault it does everything
      exactly if the operations are possible. If it does not, the vector is what it was, but for
      elements of a trivially destructible type over which the run constructed others before it
      tracked them; AbortLeaves says what an abort after all the operations makes of those.
     */
    method Transact(ops: seq<Op<T>>, fault: Option<nat>, commit: bool) returns (done: bool)
      requires Idle()
      modifies this`size, this`oldSize, this`capacity, this`oldCapacity, this`data, this`oldData, this`heap, this`log, this`live
      modifies this`faulty, this`budget, this`before, this`beforeCapacity, this`beforeData, this`lost, data
      ensures Idle()
      ensures done ==> Contents() == AfterAll(gone, ops, old(Contents()))
      ensures !commit || !Feasible(ops, old(size), old(capacity), maxSize) ==> !done
      ensures commit && fault.None? && Feasible(ops, old(size), old(capacity), maxSize) ==> done
      ensures !done ==> size == old(size) && capacity == old(capacity) && data == old(data)
      ensures !done ==> forall i :: 0 <= i < size && i !in RunHurt(ops, trivial, size, capacity, Bares(size)) ==>
        Contents()[i] == old(Contents())[i]
      ensures !done && (!trivial || RunHurt(ops, true, size, capacity, Bares(size)) == {}) ==> Contents() == old(Contents())
      ensures !commit && fault.None? && trivial && Feasible(ops, old(size), old(capacity), maxSize) ==>
        Contents() == AbortLeaves(gone, ops, size, capacity, old(Cells()), Bares(size))[..size]
    {
      NoneHurt(ops, size, capacity, Bares(size));
      done := Attempt(ops, fault, commit);
    }

    method Attempt(ops: seq<Op<T>>, fault: Option<nat>, commit: bool) returns (done: bool)
      requires Idle()
      modifies this`size, this`oldSize, this`capacity, this`oldCapacity, this`data, this`oldData, this`heap, this`log, this`live
      modifies this`faulty, this`budget, this`before, this`beforeCapacity, this`beforeData, this`lost, data
      ensures Idle()
      ensures done ==> Contents() == AfterAll(gone, ops, old(Contents()))
      ensures !commit || !Feasible(ops, old(size), old(capacity), maxSize) ==> !done
      ensures commit && fault.None? && Feasible(ops, old(size), old(capacity), maxSize) ==> done
      ensures !done ==> size == old(size) && capacity == old(capacity) && data == old(data)
      ensures !done ==> forall i :: 0 <= i < size && i !in RunHurt(ops, trivial, size, capacity, Bares(size)) ==>
        Contents()[i] == old(Contents())[i]
      ensures !commit && fault.None? && trivial && Feasible(ops, old(size), old(capacity), maxSize) ==>
        Contents() == AbortLeaves(gone, ops, size, capacity, old(Cells()), Bares(size))[..size]
    {
      Begin(fault, RunHurt(ops, trivial, size, capacity, Bares(size)));
      ghost var leaves := AbortLeaves(gone, ops, size, capacity, Cells(), Bares(size));
      done := Body(ops, Bares(size));
      ghost var foreseen := done && trivial;
      done := done && commit;
      if done {
        Commit();
      } else {
        RollBack(leaves, foreseen);
      }
    }

    /** The abort, of a transaction that might have foreseen what that leaves. */
    method RollBack(ghost cells: seq<T>, ghost foreseen: bool)
      requires Kept() && (foreseen && beforeData != null ==> Foreseen(cells, Bares(|before|)))
      modifies this`size, this`capacity, this`data, this`live, this`log, this`oldSize, this`oldCapacity, this`oldData, beforeData
      ensures Idle() && size == |before| && capacity == beforeCapacity && data == beforeData
      ensures forall i :: 0 <= i < |before| && i !in lost ==> Contents()[i] == before[i]
      ensures foreseen && data != null ==> size <= |cells| && Contents() == cells[..size]
    {
      Abort();
      if foreseen && data != null {
        assert forall i :: 0 <= i < size ==> data[i] == cells[i];
      }
    }

    /** The value that an abort now would leave in a cell. */
    ghost function Undone(i: nat): T
      requires beforeData != null && i < beforeData.Length
      reads this, beforeData
    {
      RestoredCell(beforeData, i, beforeData[i])
    }

    /** cells is what the array from before holds; at the elements that were bare, what an abort would leave. */
    ghost predicate Foreseen(cells: seq<T>, bare: set<nat>)
      requires beforeData != null
      reads this, beforeData
    {
      |cells| == beforeData.Length && forall i :: 0 <= i < |cells| ==> cells[i] == if i in bare then Undone(i) else beforeData[i]
    }

    /** Nothing of the array from before was tracked since earlier. */
    ghost predicate LeftAlone(earlier: map<(array<T>, nat), Saved<T>>)
      reads this
    {
      forall k :: k in log && k.0 == beforeData ==> k in earlier
    }

    /** The operations of a transaction; `bare` are the elements that were never tracked. */
    method Body(ops: seq<Op<T>>, ghost bare: set<nat>) returns (done: bool)
      requires Valid() && Kept() && RunHurt(ops, trivial, size, capacity, bare) <= lost
      requires BaresAre(bare)
      modifies this`size, this`oldSize, this`capacity, this`oldCapacity, this`data, this`oldData
      modifies this`log, this`live, this`budget, data
      ensures Kept()
      ensures done ==> Valid() && Contents() == AfterAll(gone, ops, old(Contents())) && Feasible(ops, old(size), old(capacity), maxSize)
      ensures !done ==> Faulted() || !Feasible(ops, old(size), old(capacity), maxSize)
      ensures done ==> Outlook(ops, old(size), old(capacity), old(data), old(Cells()), old(log), bare)
      ensures data == old(data) || data == null || fresh(data)
      decreases |ops|
    {
      if ops == [] {
        return true;
      }
      if !Legal(ops[0], size) {
        return false;
      }
      ghost var a, n, was, c, earlier := data, size, capacity, Cells(), log;
      var o := PerformSafe(ops[0], bare);
      if o.Fail? {
        return false;
      }
      ghost var a', c', mid := data, Cells(), log;
      done := Body(ops[1..], BareAfter(ops[0], trivial, n, was, bare));
      if done {
        OutlookStep(ops, n, was, a, c, earlier, a', c', mid, bare);
      }
    }

    /** After a run from n elements in array a: what it tracked, and what an abort would leave. */
    ghost predicate Outlook(ops: seq<Op<T>>, n: nat, was: nat, a: array?<T>, c: seq<T>,
                            earlier: map<(array<T>, nat), Saved<T>>, bare: set<nat>)
      requires a != null ==> n <= was == |c|
      reads this, beforeData
    {
      var holds :=
        && LogKept(earlier) && (a != beforeData ==> LeftAlone(earlier))
        && (trivial && a != null && a == beforeData ==> Foreseen(AbortLeaves(gone, ops, n, was, c, bare), bare));
      holds
    }

    lemma OutlookStep(ops: seq<Op<T>>, n: nat, was: nat, a: array?<T>, c: seq<T>, earlier: map<(array<T>, nat), Saved<T>>,
                      a': array?<T>, c': seq<T>, mid: map<(array<T>, nat), Saved<T>>, bare: set<nat>)
      requires ops != [] && Legal(ops[0], n) && (a != null ==> n <= was == |c| == a.Length)
      requires Logged(ops[0], n, was, a, c, earlier, mid)
      requires forall i: nat :: WasBare(i, a, earlier) <==> i in bare
      requires a == beforeData && a != null ==> |before| <= a.Length
      requires var n', was' := SizeAfter(ops[0], n), CapacityAfter(ops[0], n, was);
        (a' != null ==> n' <= was' == |c'|) && Outlook(ops[1..], n', was', a', c', mid, BareAfter(ops[0], trivial, n, was, bare))
      requires if InPlace(ops[0], n, was) then a' == a else a' == null || a' != beforeData
      requires a != null && trivial ==>
                 (if InPlace(ops[0], n, was) then c' else a[..]) == CellsAfter(gone, ops[0], n, was, c)
      ensures Outlook(ops, n, was, a, c, earlier, bare)
    {
      if trivial && a != null && a == beforeData {
        assert forall i :: i in bare ==> WasBare(i, a, earlier);
        ForeseenStep(ops, n, was, a, c, earlier, mid, bare);
      }
    }

    /** What is foreseen after the first operation of a run, foreseen before it. */
    lemma ForeseenStep(ops: seq<Op<T>>, n: nat, was: nat, a: array<T>, c: seq<T>,
                       earlier: map<(array<T>, nat), Saved<T>>, mid: map<(array<T>, nat), Saved<T>>, bare: set<nat>)
      requires ops != [] && Legal(ops[0], n) && n <= was == |c| && trivial && a == beforeData && a.Length == |c|
      requires forall i :: i in bare ==> i < |c| && (a, i) !in earlier
      requires Logged(ops[0], n, was, a, c, earlier, mid) && LogKept(mid)
      requires if InPlace(ops[0], n, was) then
                 var rest := AbortLeaves(gone, ops[1..], SizeAfter(ops[0], n), was, CellsAfter(gone, ops[0], n, was, c),
                                         BareAfter(ops[0], true, n, was, bare));
                 Foreseen(rest, BareAfter(ops[0], true, n, was, bare))
               else a[..] == CellsAfter(gone, ops[0], n, was, c) && LeftAlone(mid)
      ensures Foreseen(AbortLeaves(gone, ops, n, was, c, bare), bare)
    {
      var cells := AbortLeaves(gone, ops, n, was, c, bare);
      forall i | 0 <= i < |cells| ensures cells[i] == if i in bare then Undone(i) else beforeData[i] {
        assert i in bare && Tracks(ops[0], true, n, was, i) ==> (a, i) in mid && (a, i) !in earlier;
        assert i in bare && !Tracks(ops[0], true, n, was, i) ==> (a, i) !in mid;
      }
    }

    /** An operation that hurts no element but those given up as lost. */
    method PerformSafe(op: Op<T>, ghost bare: set<nat>) returns (o: Outcome)
      requires Valid() && Legal(op, size) && Kept() && Hurt(op, size, capacity, bare) <= lost
      requires BaresAre(bare)
      modifies this`size, this`oldSize, this`capacity, this`oldCapacity, this`data, this`oldData
      modifies this`log, this`live, this`budget, data
      ensures Kept()
      ensures o.Fail? ==> Faulted() || CapacityAfter(op, old(size), old(capacity)) > maxSize
      ensures o.Pass? ==> Valid() && Contents() == After(gone, op, old(Contents()))
      ensures o.Pass? ==> size == SizeAfter(op, old(size)) && capacity == CapacityAfter(op, old(size), old(capacity))
      ensures o.Pass? ==> BaresAre(BareAfter(op, trivial, old(size), old(capacity), bare))
      ensures o.Pass? ==> Traces(op, old(size), old(capacity), old(data), old(Cells()), old(log))
      ensures o.Pass? && InPlace(op, old(size), old(capacity)) ==> data == old(data)
      ensures o.Pass? && !InPlace(op, old(size), old(capacity)) ==> data == null || fresh(data)
      ensures data == old(data) || data == null || fresh(data)
    {
      ghost var a, earlier, n, was, c := data, log, size, capacity, Cells();
      o := PerformKept(op, bare);
      if o.Pass? {
        BareStep(op, bare, a, earlier, n, was, c);
      }
    }

    method PerformKept(op: Op<T>, ghost bare: set<nat>) returns (o: Outcome)
      requires Valid() && Legal(op, size) && Kept() && Hurt(op, size, capacity, bare) <= lost
      requires BaresAre(bare)
      modifies this`size, this`oldSize, this`capacity, this`oldCapacity, this`data, this`oldData
      modifies this`log, this`live, this`budget, data
      ensures Kept()
      ensures o.Fail? ==> Faulted() || CapacityAfter(op, old(size), old(capacity)) > maxSize
      ensures o.Pass? ==> Valid() && Contents() == After(gone, op, old(Contents()))
      ensures o.Pass? ==> size == SizeAfter(op, old(size)) && capacity == CapacityAfter(op, old(size), old(capacity))
      ensures o.Pass? ==> Traces(op, old(size), old(capacity), old(data), old(Cells()), old(log))
      ensures o.Pass? && InPlace(op, old(size), old(capacity)) ==> data == old(data)
      ensures o.Pass? && !InPlace(op, old(size), old(capacity)) ==> data == null || fresh(data)
      ensures data == old(data) || data == null || fresh(data)
    {
      SafeIsSecured(op, bare);
      o := Perform(op);
    }

    ghost predicate WasBare(i: nat, a: array?<T>, earlier: map<(array<T>, nat), Saved<T>>)
      reads this
    {
      a != null && a == beforeData && i < |before| && (a, i) !in earlier
    }

    lemma BareStep(op: Op<T>, bare: set<nat>, a: array?<T>, earlier: map<(array<T>, nat), Saved<T>>, n: nat, was: nat, c: seq<T>)
      requires Legal(op, n) && Logged(op, n, was, a, c, earlier, log)
      requires if InPlace(op, n, was) then data == a else data == null || data != beforeData
      requires forall i: nat :: WasBare(i, a, earlier) <==> i in bare
      ensures BaresAre(BareAfter(op, trivial, n, was, bare))
    {
      forall i: nat ensures Bare(i) <==> i in BareAfter(op, trivial, n, was, bare) {
        assert WasBare(i, a, earlier) <==> i in bare;
      }
    }

    lemma SafeIsSecured(op: Op<T>, bare: set<nat>)
      requires Valid() && Legal(op, size) && Hurt(op, size, capacity, bare) <= lost
      requires BaresAre(bare)
      ensures Secured(SizeAfter(op, size))
    {
      if data != null && data == beforeData && size < SizeAfter(op, size) <= capacity {
        GrowsInPlace(op, size, capacity);
        assert forall i: nat :: size <= i < SizeAfter(op, size) && i in bare ==> i in Hurt(op, size, capacity, bare);
        assert forall i: nat :: size <= i < SizeAfter(op, size) && Bare(i) ==> i in lost;
        assert forall i: nat :: size <= i < SizeAfter(op, size) && i < |before| && i !in lost ==> (data, i) in log || Bare(i);
      }
    }

    /** Erasing what was inserted gives back the elements; the capacity stays grown. */
    method InsertThenErase(idx: nat, items: seq<T>) returns (o: Outcome)
      requires Valid() && idx <= size && items != [] && Possible(size + |items|)
      modifies this`size, this`oldSize, this`capacity, this`oldCapacity, this`data, this`oldData
      modifies this`log, this`live, this`budget, data
      ensures o.Fail? ==> Faulted() || Grown(old(capacity), old(size) + |items|) > maxSize
      ensures o.Pass? ==> Valid() && Contents() == old(Contents()) && capacity == Grown(old(capacity), old(size) + |items|)
    {
      EraseAfterInsert(gone, Contents(), idx, items);
      o := InternalInsert(idx, items);
      if o.Pass? {
        o := Erase(idx, |items|);
      }
    }

    /** The shortest run that hurts an element: pop_back and push_back of a trivially destructible element. */
    method PopThenPush(v: T) returns (done: bool)
      requires Idle() && size > 0 && Possible(size)
      modifies this`size, this`oldSize, this`capacity, this`oldCapacity, this`data, this`oldData, this`heap, this`log, this`live
      modifies this`faulty, this`budget, this`before, this`beforeCapacity, this`beforeData, this`lost, data
      ensures Idle() && size == old(size) && !done
      ensures Contents() == if trivial then old(Contents())[..size - 1] + [v] else old(Contents())
    {
      PopThenPushLeaves(gone, v, size, capacity, Cells());
      PopThenPushFits(v, size, capacity, maxSize);
      done := Transact([Op.PopBack, Op.EmplaceBack(v)], None, false);
    }
  }
}
