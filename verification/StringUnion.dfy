/**
  The persistent string: 32 bytes that hold a size word with a flag and, behind it, either up to
  23 characters and a terminator or the capacity and the array pointer of a vector. The bytes of
  the two overlap, and the undo log tracks bytes.

  Characters are numbers. Arrays are numbered from 1; a pointer is the number of its array or 0.
 */
module StringUnion {
  import opened Wrappers
  import opened NextPow
  import opened UndoBasics

  const MSB: int := 0x8000_0000_0000_0000
  const SSO_CAPACITY: nat := 23
  const POINTERS: int := 0x1_0000_0000_0000_0000_0000_0000_0000_0000    // of 16 bytes

  // ---------- fields as bytes ----------

  function Pow256(k: nat): (p: nat)
    ensures p > 0
  {
    if k == 0 then 1 else 256 * Pow256(k - 1)
  }

  /** A field of k bytes, least significant first. */
  function Encode(n: nat, k: nat): (s: seq<int>)
    ensures |s| == k
  {
    if k == 0 then [] else [n % 256] + Encode(n / 256, k - 1)
  }

  function Decode(s: seq<int>): int
  {
    if s == [] then 0 else s[0] + 256 * Decode(s[1..])
  }

  lemma {:induction false} DecodeEncode(n: nat, k: nat)
    requires n < Pow256(k)
    ensures Decode(Encode(n, k)) == n
    decreases k
  {
    if k > 0 {
      DecodeEncode(n / 256, k - 1);
      assert Encode(n, k)[1..] == Encode(n / 256, k - 1);
    }
  }

  lemma {:induction false} EncodeZero(k: nat)
    ensures forall i :: 0 <= i < k ==> Encode(0, k)[i] == 0
    decreases k
  {
    if k > 0 {
      EncodeZero(k - 1);
      forall i | 0 <= i < k ensures Encode(0, k)[i] == 0 {
        if i > 0 {
          assert Encode(0, k)[i] == Encode(0, k - 1)[i - 1];
        }
      }
    }
  }

  // ---------- what the bytes mean ----------

  /** The size word, the 24 bytes behind it and the arrays. */
  datatype Image = Image(word: int, bytes: seq<int>, blocks: map<nat, seq<int>>)

  predicate IsSso(m: Image)
  {
    m.word >= MSB
  }

  function Capacity(m: Image): int
    requires |m.bytes| == 24
  {
    Decode(m.bytes[..8])
  }

  function Pointer(m: Image): int
    requires |m.bytes| == 24
  {
    Decode(m.bytes[8..])
  }

  predicate IsShort(m: Image)
  {
    && |m.bytes| == 24 && MSB <= m.word <= MSB + SSO_CAPACITY
    && m.bytes[m.word - MSB] == 0
  }

  /** The vector in the bytes; it may be without an array. */
  predicate IsVector(m: Image)
  {
    && |m.bytes| == 24 && 0 <= m.word <= Capacity(m) < MSB
    && (if Pointer(m) == 0 then Capacity(m) == 0 else Pointer(m) in m.blocks && |m.blocks[Pointer(m)]| == Capacity(m))
  }

  /** A large string: a vector of the characters and a terminator, with room for more than a short one has. */
  predicate IsLarge(m: Image)
  {
    IsVector(m) && 0 < m.word && SSO_CAPACITY + 1 < Capacity(m) && m.blocks[Pointer(m)][m.word - 1] == 0
  }

  predicate IsString(m: Image)
  {
    IsShort(m) || IsLarge(m)
  }

  /** The characters. */
  function Text(m: Image): seq<int>
    requires IsString(m)
  {
    if IsSso(m) then m.bytes[..m.word - MSB] else m.blocks[Pointer(m)][..m.word - 1]
  }

  /** The elements of the vector. */
  function Elements(m: Image): seq<int>
    requires IsVector(m)
  {
    if Pointer(m) == 0 then [] else m.blocks[Pointer(m)][..m.word]
  }

  /** The array that belongs to the string. */
  function Owned(m: Image): set<nat>
    requires |m.bytes| == 24
  {
    if IsSso(m) || Pointer(m) <= 0 then {} else {Pointer(m)}
  }

  /** What has to be there again after an abort; home is the array of a large string, or 0. */
  datatype Origin = Origin(word: int, bytes: seq<int>, home: int, cells: seq<int>, capacity: int, blocks: set<nat>)

  /** Of a short string, the bytes up to the terminator matter; of a large one, all bytes and the elements. */
  function OriginOf(m: Image): Origin
    requires IsString(m)
  {
    if IsSso(m) then Origin(m.word, m.bytes[..m.word - MSB + 1], 0, [], 0, m.blocks.Keys)
    else Origin(m.word, m.bytes, Pointer(m), Elements(m), Capacity(m), m.blocks.Keys)
  }

  /** The arrays from before are there, and their elements were snapshotted or left alone. */
  ghost predicate KeptArrays(before: Origin, blocks: map<nat, seq<int>>, taken: set<nat>, log: map<(nat, nat), Option<int>>)
  {
    && blocks.Keys - taken == before.blocks
    && (before.home != 0 ==>
          && before.home in blocks && before.home !in taken
          && |before.cells| <= |blocks[before.home]| == before.capacity
          && forall i {:trigger (before.home, i) in log} :: 0 <= i < |before.cells| ==>
            var cell := (before.home, i);
            if cell in log then log[cell] == Some(before.cells[i]) else blocks[before.home][i] == before.cells[i])
  }

  function Max(a: int, b: int): int { if a >= b then a else b }

  class PString {
    var word: int
    const bytes: array<int>
    var blocks: map<nat, seq<int>>
    const maxAlloc: nat            // max_size() of the vector

    // the transaction
    var wordLog: Option<int>
    var byteLog: map<nat, Option<int>>         // None for POBJ_XADD_NO_SNAPSHOT
    var cellLog: map<(nat, nat), Option<int>>
    var taken: set<nat>
    var live: set<nat>                         // the arrays that are not freed
    var next: nat                              // the number of the next array
    var faulty: bool                           // whether something throws,
    var budget: nat                            // and after how much else

    ghost var before: Origin                   // the string when the transaction began

    ghost function Now(): Image
      reads this, bytes
    {
      Image(word, bytes[..], blocks)
    }

    /** What always holds of the pool around the string. */
    ghost predicate Sane()
      reads this, bytes
    {
      && bytes.Length == 24 && maxAlloc < MSB
      && 0 < next && (forall b :: b in blocks ==> 0 < b < next)
      && live <= blocks.Keys && taken <= blocks.Keys
    }

    /** The array of the string is all that is allocated. */
    ghost predicate Tidy()
      reads this, bytes
    {
      Sane() && live == Owned(Now())
    }

    ghost predicate Valid()
      reads this, bytes
    {
      var holds := IsString(Now());
      Tidy() && holds
    }

    // ---------- what an abort restores ----------

    ghost predicate KeptWord()
      reads this
    {
      if wordLog.None? then word == before.word else wordLog.value == before.word
    }

    ghost predicate KeptBytes()
      reads this, bytes
    {
      bytes.Length == 24 && |before.bytes| <= 24 &&
      forall i {:trigger i in byteLog} :: 0 <= i < |before.bytes| ==>
        if i in byteLog then byteLog[i] == Some(before.bytes[i]) else bytes[i] == before.bytes[i]
    }

    ghost predicate KeptCells()
      reads this
    {
      KeptArrays(before, blocks, taken, cellLog)
    }

    /** Aborting now restores the string. */
    ghost predicate Kept()
      reads this, bytes
    {
      KeptWord() && KeptBytes() && KeptCells()
    }

    ghost predicate BytesWritable(lo: nat, hi: nat)
      reads this
    {
      forall i :: lo <= i < hi && i < |before.bytes| ==> i in byteLog
    }

    ghost predicate CellsWritable(p: int, lo: nat, hi: nat)
      reads this
    {
      p == before.home != 0 ==> forall i :: lo <= i < hi && i < |before.cells| ==> (p, i) in cellLog
    }

    // ---------- primitive steps ----------

    /** What can throw. */
    method Spend() returns (o: Outcome)
      modifies this`budget
      ensures o.Fail? ==> Faulted()
    {
      if faulty && budget == 0 {
        return Fail;
      }
      budget := if faulty then budget - 1 else budget;
      return Pass;
    }

    /** Something was thrown. */
    ghost predicate Faulted()
      reads this
    {
      faulty && budget == 0
    }

    /** Something was thrown, or all numbers of arrays are used up. */
    ghost predicate Broke()
      reads this
    {
      Faulted() || next >= POINTERS
    }

    /** An assignment of sso._size or of the vector's _size. */
    method SetWord(w: int)
      modifies this`word, this`wordLog
      ensures word == w && wordLog.Some?
      ensures old(KeptWord()) ==> KeptWord()
    {
      if wordLog.None? {
        wordLog := Some(word);
      }
      word := w;
    }

    method TrackBytes(lo: nat, hi: nat) returns (o: Outcome)
      requires lo <= hi <= bytes.Length
      modifies this`byteLog, this`budget
      ensures o.Fail? ==> Faulted()
      ensures old(byteLog.Keys) <= byteLog.Keys
      ensures o.Pass? ==> forall i :: lo <= i < hi ==> i in byteLog
      ensures old(KeptBytes()) ==> KeptBytes()
    {
      o := Pass;
      :- Spend();
      byteLog := (map i: nat | lo <= i < hi :: i := Some(bytes[i])) + byteLog;
    }

    method TrackBytesBlindly(lo: nat, hi: nat) returns (o: Outcome)
      requires lo <= hi <= bytes.Length
      modifies this`byteLog, this`budget
      ensures o.Fail? ==> Faulted()
      ensures old(byteLog.Keys) <= byteLog.Keys
      ensures o.Pass? ==> forall i :: lo <= i < hi ==> i in byteLog
      ensures old(KeptBytes() && BytesWritable(lo, hi)) ==> KeptBytes()
    {
      o := Pass;
      :- Spend();
      byteLog := (map i: nat {:trigger i in byteLog} | lo <= i < hi :: i := None) + byteLog;
    }

    method PutBytes(at: nat, s: seq<int>)
      requires at + |s| <= bytes.Length
      modifies bytes
      ensures bytes[..] == Overwritten(old(bytes[..]), at, s)
      ensures old(KeptBytes()) && BytesWritable(at, at + |s|) ==> KeptBytes()
    {
      forall i | 0 <= i < |s| {
        bytes[at + i] := s[i];
      }
    }

    method TrackCells(p: nat, lo: nat, hi: nat) returns (o: Outcome)
      requires p in blocks && lo <= hi <= |blocks[p]|
      modifies this`cellLog, this`budget
      ensures o.Fail? ==> Faulted()
      ensures old(cellLog.Keys) <= cellLog.Keys
      ensures o.Pass? ==> forall i :: lo <= i < hi ==> (p, i) in cellLog
      ensures old(KeptCells()) ==> KeptCells()
    {
      o := Pass;
      :- Spend();
      cellLog := (map i: nat | lo <= i < hi :: (p, i) := Some(blocks[p][i])) + cellLog;
    }

    method TrackCellsBlindly(p: nat, lo: nat, hi: nat) returns (o: Outcome)
      requires p in blocks && lo <= hi <= |blocks[p]|
      modifies this`cellLog, this`budget
      ensures o.Fail? ==> Faulted()
      ensures old(cellLog.Keys) <= cellLog.Keys
      ensures o.Pass? ==> forall i :: lo <= i < hi ==> (p, i) in cellLog
      ensures old(KeptCells() && CellsWritable(p, lo, hi)) ==> KeptCells()
    {
      o := Pass;
      :- Spend();
      cellLog := (map i: nat | lo <= i < hi :: (p, i) := None) + cellLog;
    }

    method PutCells(p: nat, at: nat, s: seq<int>)
      requires p in blocks && at + |s| <= |blocks[p]|
      modifies this`blocks
      ensures blocks == old(blocks)[p := Overwritten(old(blocks)[p], at, s)]
      ensures old(KeptCells()) && CellsWritable(p, at, at + |s|) ==> KeptCells()
    {
      blocks := blocks[p := Overwritten(blocks[p], at, s)];
    }

    // ---------- the fields of the vector ----------

    method SetCapacity(n: nat) returns (o: Outcome)
      requires bytes.Length == 24 && n < MSB
      modifies this`byteLog, this`budget, bytes
      ensures o.Fail? ==> Faulted()
      ensures old(byteLog.Keys) <= byteLog.Keys
      ensures o.Pass? ==> Capacity(Now()) == n && bytes[8..] == old(bytes[8..]) && bytes[..8] == Encode(n, 8)
      ensures o.Pass? ==> forall i :: 0 <= i < 8 ==> i in byteLog
      ensures o.Fail? ==> bytes[..] == old(bytes[..])
      ensures old(KeptBytes()) ==> KeptBytes()
    {
      o := Pass;
      :- TrackBytes(0, 8);
      FieldRoundTrip(n);
      OverwrittenParts(bytes[..], 0, Encode(n, 8));
      PutBytes(0, Encode(n, 8));
      assert bytes[..][..8] == Encode(n, 8) && bytes[..][8..] == old(bytes[..])[8..];
    }

    method SetPointer(p: nat) returns (o: Outcome)
      requires bytes.Length == 24 && p < POINTERS
      modifies this`byteLog, this`budget, bytes
      ensures o.Fail? ==> Faulted()
      ensures old(byteLog.Keys) <= byteLog.Keys
      ensures o.Pass? ==> Pointer(Now()) == p && bytes[..8] == old(bytes[..8])
      ensures o.Pass? ==> forall i :: 8 <= i < 24 ==> i in byteLog
      ensures o.Fail? ==> bytes[..] == old(bytes[..])
      ensures old(KeptBytes()) ==> KeptBytes()
    {
      o := Pass;
      :- TrackBytes(8, 24);
      PointerRoundTrip(p);
      OverwrittenParts(bytes[..], 8, Encode(p, 16));
      PutBytes(8, Encode(p, 16));
      assert bytes[..][8..] == Encode(p, 16) && bytes[..][..8] == old(bytes[..])[..8];
    }

    /** The cells after the last element may be overwritten. */
    ghost predicate Secured()
      reads this, bytes
    {
      bytes.Length == 24 && 0 <= word ==> CellsWritable(Pointer(Now()), word, |before.cells|)
    }

    /** pmemobj_tx_alloc of n uninitialized cells */
    method TxAlloc(n: nat) returns (o: Outcome, p: nat)
      requires Sane()
      modifies this`blocks, this`taken, this`live, this`next, this`budget
      ensures o.Fail? ==> Broke()
      ensures old(next) <= next <= old(next) + 1
      ensures Sane()
      ensures forall b :: b in old(blocks) ==> b in blocks && blocks[b] == old(blocks[b])
      ensures o.Pass? ==> 0 < p < POINTERS && p !in old(blocks) && p in blocks && |blocks[p]| == n && live == old(live) + {p}
      ensures old(KeptCells()) ==> KeptCells()
    {
      o, p := Fail, next;
      if next >= POINTERS {
        return;
      }
      o := Spend();
      if o.Fail? {
        return;
      }
      blocks, taken, live := blocks[p := Junk(n)], taken + {p}, live + {p};
      next := next + 1;
    }

    method TxFree(p: nat) returns (o: Outcome)
      requires Sane() && p in live
      modifies this`live, this`budget
      ensures o.Fail? ==> Faulted()
      ensures Sane()
      ensures o.Pass? ==> live == old(live) - {p}
    {
      o := Pass;
      :- Spend();
      live := live - {p};
    }

    /** vector::alloc */
    method VecAlloc(n: nat) returns (o: Outcome)
      requires Sane() && word == 0 && Pointer(Now()) == 0
      modifies this`blocks, this`byteLog, this`taken, this`live, this`next, this`budget, bytes
      ensures n > maxAlloc ==> o.Fail?
      ensures o.Fail? ==> Broke() || n > maxAlloc
      ensures old(next) <= next <= old(next) + 1
      ensures Sane() && old(byteLog.Keys) <= byteLog.Keys
      ensures o.Pass? ==> IsVector(Now()) && Capacity(Now()) == n && live == old(live) + Owned(Now())
      ensures o.Pass? ==> Pointer(Now()) !in old(blocks)
      ensures forall b :: b in old(blocks) ==> b in blocks && blocks[b] == old(blocks[b])
      ensures old(Kept()) ==> Kept() && (o.Pass? ==> Secured())
    {
      if n > maxAlloc {
        return Fail;
      }
      :- SetCapacity(n);
      if n == 0 {
        return Pass;
      }
      var p;
      o, p := TxAlloc(n);
      if o.Pass? {
        o := SetPointer(p);
      }
    }

    // ---------- the vector's elements in place: array p, of which the first `word` cells are in use ----------

    ghost predicate Free(p: nat)
      reads this
    {
      0 <= word && CellsWritable(p, word, |before.cells|)
    }

    /** vector::add_data_to_tx */
    method Track(p: nat, idx: nat, num: nat) returns (o: Outcome)
      requires p in blocks && idx <= word <= |blocks[p]| && idx + num <= |blocks[p]|
      modifies this`cellLog, this`budget
      ensures o.Fail? ==> Faulted()
      ensures old(cellLog.Keys) <= cellLog.Keys
      ensures o.Pass? ==> forall i :: idx <= i < idx + num ==> (p, i) in cellLog
      ensures old(KeptCells()) && (old(Free(p)) || idx + num <= word) ==> KeptCells()
    {
      var initialized := word - idx;
      :- TrackCells(p, idx, idx + Min(initialized, num));
      if num > initialized {
        o := TrackCellsBlindly(p, word, idx + num);
        return o;
      }
      return Pass;
    }

    /** vector::insert of a range that fits */
    method InsertCells(p: nat, idx: nat, items: seq<int>) returns (o: Outcome)
      requires p in blocks && idx <= word && word + |items| <= |blocks[p]|
      modifies this`word, this`wordLog, this`blocks, this`cellLog, this`budget
      ensures o.Fail? ==> Faulted()
      ensures blocks.Keys == old(blocks.Keys) && |blocks[p]| == old(|blocks[p]|)
      ensures o.Pass? ==> word == old(word) + |items|
      ensures o.Pass? ==> blocks[p][..word] == old(blocks[p][..idx]) + items + old(blocks[p][idx..word])
      ensures old(KeptWord()) ==> KeptWord()
      ensures old(KeptCells() && Free(p)) ==> KeptCells() && (o.Pass? ==> Free(p))
    {
      var n := word;
      :- Track(p, idx, n - idx + |items|);
      SpliceCells(p, idx, items, n);
      SetWord(n + |items|);
      return Pass;
    }

    /** The elements from idx up to n moved and the items written before them */
    method SpliceCells(p: nat, idx: nat, items: seq<int>, n: nat)
      requires p in blocks && idx <= n && n + |items| <= |blocks[p]|
      modifies this`blocks
      ensures blocks.Keys == old(blocks.Keys) && |blocks[p]| == old(|blocks[p]|)
      ensures blocks[p][..n + |items|] == old(blocks[p][..idx]) + items + old(blocks[p][idx..n])
      ensures old(KeptCells() && CellsWritable(p, idx, n + |items|)) ==> KeptCells()
    {
      var s := blocks[p];
      SplicedCells(s, idx, 0, items, n);
      PutCells(p, idx + |items|, s[idx..n]);
      PutCells(p, idx, items);
    }

    /** vector::erase */
    method EraseCells(p: nat, idx: nat, count: nat) returns (o: Outcome)
      requires p in blocks && idx + count < word <= |blocks[p]|
      modifies this`word, this`wordLog, this`blocks, this`cellLog, this`budget
      ensures o.Fail? ==> Faulted()
      ensures blocks.Keys == old(blocks.Keys) && |blocks[p]| == old(|blocks[p]|)
      ensures o.Pass? ==> word == old(word) - count
      ensures o.Pass? ==> blocks[p][..word] == old(blocks[p][..idx]) + old(blocks[p][idx + count..word])
      ensures old(KeptWord()) ==> KeptWord()
      ensures old(KeptCells() && Free(p)) ==> KeptCells() && (o.Pass? ==> Free(p))
    {
      if count == 0 {
        return Pass;
      }
      var n, s := word, blocks[p];
      :- Track(p, idx, n - idx);
      PutCells(p, idx, s[idx + count..n]);
      SetWord(n - count);
      return Pass;
    }

    /** vector::assign of a range that fits */
    method AssignCells(p: nat, items: seq<int>) returns (o: Outcome)
      requires p in blocks && 0 <= word <= |blocks[p]| && |items| <= |blocks[p]|
      modifies this`word, this`wordLog, this`blocks, this`cellLog, this`budget
      ensures o.Fail? ==> Faulted()
      ensures blocks.Keys == old(blocks.Keys) && |blocks[p]| == old(|blocks[p]|)
      ensures o.Pass? ==> word == |items| && blocks[p][..word] == items
      ensures old(KeptWord()) ==> KeptWord()
      ensures old(KeptCells() && Free(p)) ==> KeptCells() && (o.Pass? ==> Free(p))
    {
      var n := word;
      :- Track(p, 0, n);
      if |items| > n {
        :- Track(p, n, |items| - n);
      }
      PutCells(p, 0, items);
      SetWord(|items|);
      return Pass;
    }

    /** vector::push_back when there is room */
    method PushCell(p: nat, c: int) returns (o: Outcome)
      requires p in blocks && 0 <= word < |blocks[p]|
      modifies this`word, this`wordLog, this`blocks, this`cellLog, this`budget
      ensures o.Fail? ==> Faulted()
      ensures blocks.Keys == old(blocks.Keys) && |blocks[p]| == old(|blocks[p]|)
      ensures o.Pass? ==> word == old(word) + 1 && blocks[p][..word] == old(blocks[p][..word]) + [c]
      ensures old(KeptWord()) ==> KeptWord()
      ensures old(KeptCells() && Free(p)) ==> KeptCells() && (o.Pass? ==> Free(p))
    {
      var n := word;
      :- Track(p, n, 1);
      PutCells(p, n, [c]);
      SetWord(n + 1);
      return Pass;
    }

    // ---------- the vector ----------

    ghost predicate IsVec()
      reads this, bytes
    {
      Tidy() && IsVector(Now())
    }

    /** The fields of an empty vector without an array. */
    method Detach() returns (o: Outcome)
      requires Sane()
      modifies this`word, this`wordLog, this`byteLog, this`budget, bytes
      ensures o.Fail? ==> Faulted()
      ensures Sane() && old(byteLog.Keys) <= byteLog.Keys && (o.Pass? ==> wordLog.Some?)
      ensures o.Pass? ==> word == 0 && Pointer(Now()) == 0 && Capacity(Now()) == 0 && bytes[0] == 0
      ensures o.Pass? ==> forall i :: 0 <= i < 24 ==> i in byteLog
      ensures old(Kept()) ==> Kept()
    {
      o := Pass;
      :- SetPointer(0);
      SetWord(0);
      :- SetCapacity(0);
      EncodeZero(8);
      assert bytes[0] == bytes[..8][0];
    }

    /** vector::dealloc */
    method VecDealloc() returns (o: Outcome)
      requires IsVec()
      modifies this`word, this`wordLog, this`byteLog, this`live, this`budget, bytes
      ensures o.Fail? ==> Faulted()
      ensures Sane() && old(byteLog.Keys) <= byteLog.Keys
      ensures o.Pass? ==> IsVec() && word == 0 && Pointer(Now()) == 0 && Capacity(Now()) == 0
      ensures o.Pass? && old(Pointer(Now())) != 0 ==> wordLog.Some? && bytes[0] == 0 && forall i :: 0 <= i < 24 ==> i in byteLog
      ensures old(Kept()) ==> Kept() && (o.Pass? ==> Secured())
    {
      ghost var p := Pointer(Now());
      var q := ReadPointer();
      if q == 0 {
        return Pass;
      }
      :- TxFree(q);
      o := Detach();
    }

    method ReadPointer() returns (p: int)
      requires bytes.Length == 24
      ensures p == Pointer(Now())
    {
      p := Decode(bytes[8..]);
      assert bytes[8..] == bytes[..][8..];
    }

    method ReadCapacity() returns (n: int)
      requires bytes.Length == 24
      ensures n == Capacity(Now())
    {
      n := Decode(bytes[..8]);
      assert bytes[..8] == bytes[..][..8];
    }

    /** A new array of n cells that starts with the given ones. */
    method VecRefill(n: nat, s: seq<int>) returns (o: Outcome)
      requires Sane() && word == 0 && Pointer(Now()) == 0 && |s| <= n
      modifies this`word, this`wordLog, this`blocks, this`byteLog, this`taken, this`live, this`next, this`budget, bytes
      ensures n > maxAlloc ==> o.Fail?
      ensures o.Fail? ==> Broke() || n > maxAlloc
      ensures old(next) <= next <= old(next) + 1
      ensures Sane() && old(byteLog.Keys) <= byteLog.Keys
      ensures o.Pass? ==> IsVector(Now()) && Capacity(Now()) == n && live == old(live) + Owned(Now())
      ensures o.Pass? ==> Elements(Now()) == s && Pointer(Now()) !in old(blocks)
      ensures forall b :: b in old(blocks) ==> b in blocks && blocks[b] == old(blocks[b])
      ensures old(Kept()) ==> Kept() && (o.Pass? ==> Secured())
    {
      o := Pass;
      :- VecAlloc(n);
      var p := ReadPointer();
      if p != 0 {
        PutCells(p, 0, s);
      }
      SetWord(|s|);
    }

    /** The elements s in a new array of n cells, instead of the old array. */
    method VecReplace(n: nat, s: seq<int>) returns (o: Outcome)
      requires IsVec() && Pointer(Now()) != 0 && |s| <= n
      modifies this`word, this`wordLog, this`blocks, this`byteLog, this`cellLog, this`taken, this`live, this`next, this`budget, bytes
      ensures n > maxAlloc ==> o.Fail?
      ensures o.Fail? ==> Broke() || n > maxAlloc
      ensures old(next) <= next <= old(next) + 1
      ensures Sane() && old(byteLog.Keys) <= byteLog.Keys
      ensures o.Pass? ==> IsVec() && Capacity(Now()) == n && Elements(Now()) == s
      ensures old(Kept()) ==> Kept() && (o.Pass? ==> Secured())
    {
      var p := ReadPointer();
      :- Release(p);
      :- VecRefill(n, s);
      o := TxFree(p);
    }

    /** The elements logged and the array forgotten */
    method Release(p: nat) returns (o: Outcome)
      requires IsVec() && p == Pointer(Now()) != 0
      modifies this`word, this`wordLog, this`byteLog, this`cellLog, this`budget, bytes
      ensures o.Fail? ==> Faulted()
      ensures Sane() && old(byteLog.Keys) <= byteLog.Keys
      ensures o.Pass? ==> word == 0 && Pointer(Now()) == 0 && Capacity(Now()) == 0
      ensures old(Kept()) ==> Kept()
    {
      o := Track(p, 0, word);
      if o.Pass? {
        o := Detach();
      }
    }

    /** vector::realloc */
    method VecRealloc(n: nat) returns (o: Outcome)
      requires IsVec()
      modifies this`word, this`wordLog, this`blocks, this`byteLog, this`cellLog, this`taken, this`live, this`next, this`budget, bytes
      ensures n > maxAlloc ==> o.Fail?
      ensures o.Fail? ==> Broke() || n > maxAlloc
      ensures old(next) <= next <= old(next) + 1
      ensures Sane() && old(byteLog.Keys) <= byteLog.Keys
      ensures o.Pass? ==> IsVec() && Capacity(Now()) == n && Elements(Now()) == old(Elements(Now()))[..Min(n, |old(Elements(Now()))|)]
      ensures old(Kept()) ==> Kept() && (o.Pass? ==> Secured())
    {
      var p := ReadPointer();
      if p == 0 {
        o := VecAlloc(n);
      } else {
        o := VecReplace(n, blocks[p][..word][..Min(n, word)]);
      }
    }

    /** vector::reserve */
    method VecReserve(n: nat) returns (o: Outcome)
      requires IsVec()
      modifies this`word, this`wordLog, this`blocks, this`byteLog, this`cellLog, this`taken, this`live, this`next, this`budget, bytes
      ensures o.Fail? ==> Broke() || (old(Capacity(Now())) < n && n > maxAlloc)
      ensures old(Capacity(Now())) < n && n > maxAlloc ==> o.Fail?
      ensures old(next) <= next <= old(next) + 1
      ensures Sane() && old(byteLog.Keys) <= byteLog.Keys
      ensures o.Pass? ==> IsVec() && Capacity(Now()) == Max(old(Capacity(Now())), n) && Elements(Now()) == old(Elements(Now()))
      ensures old(Kept() && Secured()) ==> Kept() && (o.Pass? ==> Secured())
    {
      var c := ReadCapacity();
      if n <= c {
        return Pass;
      }
      o := VecRealloc(n);
    }

    /** vector::insert of a range that does not fit */
    method VecInsertMoving(p: nat, idx: nat, items: seq<int>) returns (o: Outcome)
      requires IsVec() && p == Pointer(Now()) != 0 && idx <= word && Possible(word + |items|)
      modifies this`word, this`wordLog, this`blocks, this`byteLog, this`cellLog, this`taken, this`live, this`next, this`budget, bytes
      ensures o.Fail? ==> Broke() || Ceiling(old(word) + |items|) > maxAlloc
      ensures Ceiling(old(word) + |items|) > maxAlloc ==> o.Fail?
      ensures old(next) <= next <= old(next) + 1
      ensures Sane()
      ensures o.Pass? ==> IsVec() && Capacity(Now()) == Ceiling(old(word) + |items|) && Pointer(Now()) != 0
      ensures o.Pass? ==> Elements(Now()) == old(blocks[p][..idx]) + items + old(blocks[p][idx..word])
      ensures old(Kept()) ==> Kept() && (o.Pass? ==> Secured())
    {
      var n := RecommendedCapacity(word + |items|);
      o := VecReplace(n, blocks[p][..idx] + items + blocks[p][idx..word]);
    }

    /** vector::insert of a range */
    method VecInsert(p: nat, idx: nat, items: seq<int>) returns (o: Outcome)
      requires IsVec() && p == Pointer(Now()) != 0 && idx <= word && Possible(word + |items|)
      modifies this`word, this`wordLog, this`blocks, this`byteLog, this`cellLog, this`taken, this`live, this`next, this`budget, bytes
      ensures o.Fail? ==> Broke() || TooBig(old(Capacity(Now())), old(word) + |items|, maxAlloc)
      ensures TooBig(old(Capacity(Now())), old(word) + |items|, maxAlloc) ==> o.Fail?
      ensures old(next) <= next <= old(next) + 1
      ensures Sane()
      ensures o.Pass? ==> IsVec() && Capacity(Now()) == Grown(old(Capacity(Now())), old(word) + |items|) && Pointer(Now()) != 0
      ensures o.Pass? ==> Elements(Now()) == old(blocks[p][..idx]) + items + old(blocks[p][idx..word])
      ensures old(Kept() && Secured()) ==> Kept() && (o.Pass? ==> Secured())
    {
      if word + |items| <= |blocks[p]| {
        o := InsertCells(p, idx, items);
      } else {
        o := VecInsertMoving(p, idx, items);
      }
    }

    // ---------- the string ----------

    /** An abort restores the string, and so it does after writes past its end. */
    ghost predicate Ready()
      reads this, bytes
    {
      Kept() && (if IsSso(Now()) then BytesWritable(word - MSB + 1, 24) else Secured())
    }

    /** add_sso_to_tx */
    method AddSso(first: nat, num: nat) returns (o: Outcome)
      requires bytes.Length == 24 && MSB <= word && first <= word - MSB + 1 <= 24 && first + num <= 24
      modifies this`byteLog, this`budget
      ensures o.Fail? ==> Faulted()
      ensures old(byteLog.Keys) <= byteLog.Keys
      ensures o.Pass? ==> forall i :: first <= i < first + num ==> i in byteLog
      ensures old(KeptBytes()) && (old(BytesWritable(word - MSB + 1, 24)) || first + num <= word - MSB + 1) ==> KeptBytes()
    {
      var initialized := word - MSB + 1 - first;
      :- TrackBytes(first, first + Min(initialized, num));
      if num > initialized {
        o := TrackBytesBlindly(word - MSB + 1, first + num);
        return o;
      }
      return Pass;
    }

    /** destroy_data: whatever the 24 bytes held is logged or given back. */
    method DestroyData() returns (o: Outcome)
      requires Valid()
      modifies this`word, this`wordLog, this`byteLog, this`live, this`budget, bytes
      ensures o.Fail? ==> Faulted()
      ensures Sane()
      ensures o.Pass? ==> live == {}
      ensures o.Pass? ==> if old(IsSso(Now())) then word == old(word) && bytes[..] == old(bytes[..]) else word == 0 && bytes[0] == 0
      ensures old(Ready()) ==> Kept() && (o.Pass? ==> BytesWritable(0, 24))
    {
      if word >= MSB {
        o := AddSso(0, word - MSB + 1);
      } else {
        o := VecDealloc();
      }
    }

    /** allocate, for a short string */
    method AllocateSso()
      requires bytes.Length == 24 && 0 <= word
      modifies this`word, this`wordLog
      ensures word == (if old(word) >= MSB then old(word) else old(word) + MSB)
      ensures old(KeptWord()) ==> KeptWord()
    {
      SetWord(if word >= MSB then word else word + MSB);
    }

    /** The construction of an empty vector over the bytes */
    method CreateVector() returns (o: Outcome)
      requires Sane() && live == {} && 0 <= word
      modifies this`word, this`wordLog, this`byteLog, this`budget, bytes
      ensures o.Fail? ==> Faulted()
      ensures Sane()
      ensures o.Pass? ==> IsVec() && word == 0 && Pointer(Now()) == 0
      ensures old(Kept() && BytesWritable(0, 24)) ==> Kept() && BytesWritable(0, 24)
    {
      SetWord(if word >= MSB then word - MSB else word);
      :- TrackBytesBlindly(0, 24);
      PutBytes(8, seq(16, i => 0));
      o := Detach();
    }

    /** allocate, for a large string */
    method AllocateLarge(n: nat) returns (o: Outcome)
      requires Sane() && live == {} && 0 <= word
      modifies this`word, this`wordLog, this`blocks, this`byteLog, this`cellLog, this`taken, this`live, this`next, this`budget, bytes
      ensures o.Fail? ==> Broke() || n + 1 > maxAlloc
      ensures n + 1 > maxAlloc ==> o.Fail?
      ensures old(next) <= next <= old(next) + 1
      ensures Sane()
      ensures o.Pass? ==> IsVec() && word == 0 && Capacity(Now()) == n + 1
      ensures old(Kept() && BytesWritable(0, 24)) ==> Kept() && (o.Pass? ==> Secured())
    {
      o := Pass;
      :- CreateVector();
      o := VecRealloc(n + 1);
    }

    /** assign_sso_data */
    method AssignSso(items: seq<int>) returns (o: Outcome)
      requires Sane() && live == {} && MSB <= word <= MSB + SSO_CAPACITY && |items| <= SSO_CAPACITY
      modifies this`word, this`wordLog, this`byteLog, this`budget, bytes
      ensures o.Fail? ==> Faulted()
      ensures Sane()
      ensures o.Pass? ==> Valid() && IsSso(Now()) && Text(Now()) == items
      ensures old(Kept() && BytesWritable(0, 24)) ==> Kept()
    {
      o := Pass;
      :- AddSso(0, |items| + 1);
      PutBytes(0, items + [0]);
      SetWord(MSB + |items|);
      assert bytes[..][..|items|] == items;
    }

    /** assign_large_data */
    method AssignLarge(items: seq<int>) returns (o: Outcome)
      requires IsVec() && SSO_CAPACITY + 1 < Max(Capacity(Now()), |items| + 1)
      modifies this`word, this`wordLog, this`blocks, this`byteLog, this`cellLog, this`taken, this`live, this`next, this`budget, bytes
      ensures o.Fail? ==> Broke() || (old(Capacity(Now())) < |items| + 1 && |items| + 1 > maxAlloc)
      ensures (old(Capacity(Now())) < |items| + 1 && |items| + 1 > maxAlloc) ==> o.Fail?
      ensures old(next) <= next <= old(next) + 1
      ensures Sane()
      ensures o.Pass? ==> Valid() && !IsSso(Now()) && Text(Now()) == items && Capacity(Now()) == Max(old(Capacity(Now())), |items| + 1)
      ensures old(Kept() && Secured()) ==> Kept() && (o.Pass? ==> Secured())
    {
      o := Pass;
      :- VecReserve(|items| + 1);
      var p := ReadPointer();
      o := AssignTerminated(p, items);
      if o.Pass? {
        Trimmed(Elements(Now()), items, [0]);
        LargeText(Now());
      }
    }

    /** assign and push_back of assign_large_data */
    method AssignTerminated(p: nat, items: seq<int>) returns (o: Outcome)
      requires p in blocks && 0 <= word <= |blocks[p]| && |items| < |blocks[p]|
      modifies this`word, this`wordLog, this`blocks, this`cellLog, this`budget
      ensures o.Fail? ==> Faulted()
      ensures blocks.Keys == old(blocks.Keys) && |blocks[p]| == old(|blocks[p]|)
      ensures o.Pass? ==> word == |items| + 1 && blocks[p][..word] == items + [0]
      ensures old(KeptWord()) ==> KeptWord()
      ensures old(KeptCells() && Free(p)) ==> KeptCells() && (o.Pass? ==> Free(p))
    {
      o := AssignCells(p, items);
      if o.Pass? {
        o := PushCell(p, 0);
      }
    }

    /** allocate(n) and initialize(items), after destroy_data */
    method Rebuild(n: nat, items: seq<int>) returns (o: Outcome)
      requires Sane() && live == {} && |items| <= n && (word == 0 || MSB <= word <= MSB + SSO_CAPACITY)
      modifies this`word, this`wordLog, this`blocks, this`byteLog, this`cellLog, this`taken, this`live, this`next, this`budget, bytes
      ensures o.Fail? ==> Broke() || (n > SSO_CAPACITY && n + 1 > maxAlloc)
      ensures (n > SSO_CAPACITY && n + 1 > maxAlloc) ==> o.Fail?
      ensures old(next) <= next <= old(next) + 2
      ensures Sane()
      ensures o.Pass? ==> Valid() && Text(Now()) == items && (IsSso(Now()) <==> n <= SSO_CAPACITY)
      ensures o.Pass? && n > SSO_CAPACITY ==> Capacity(Now()) == n + 1
      ensures old(Kept() && BytesWritable(0, 24)) ==> Kept() && (o.Pass? && n > SSO_CAPACITY ==> Secured())
    {
      if n <= SSO_CAPACITY {
        AllocateSso();
        assert old(Kept()) ==> Kept();
        o := AssignSso(items);
      } else {
        :- AllocateLarge(n);
        o := AssignLarge(items);
      }
    }

    /** replace_content */
    method ReplaceContent(items: seq<int>) returns (o: Outcome)
      requires Valid()
      modifies this`word, this`wordLog, this`blocks, this`byteLog, this`cellLog, this`taken, this`live, this`next, this`budget, bytes
      ensures o.Fail? ==> Broke() || Refused(Assign(items), old(Now()), maxAlloc)
      ensures Refused(Assign(items), old(Now()), maxAlloc) ==> o.Fail?
      ensures old(next) <= next <= old(next) + 2
      ensures Sane()
      ensures o.Pass? ==> Valid() && Text(Now()) == items
      ensures o.Pass? ==> RoomOf(Now()) == Assigned(old(RoomOf(Now())), |items|)
      ensures old(Ready()) ==> Kept()
    {
      if word < MSB {
        var c := ReadCapacity();
        if |items| <= c - 1 {
          o := AssignLarge(items);
          return o;
        }
      }
      :- DestroyData();
      o := Rebuild(|items|, items);
    }

    /** sso_to_large */
    method SsoToLarge(n: nat) returns (o: Outcome)
      requires Valid() && IsSso(Now()) && SSO_CAPACITY < n
      modifies this`word, this`wordLog, this`blocks, this`byteLog, this`cellLog, this`taken, this`live, this`next, this`budget, bytes
      ensures o.Fail? ==> Broke() || n + 1 > maxAlloc
      ensures n + 1 > maxAlloc ==> o.Fail?
      ensures old(next) <= next <= old(next) + 2
      ensures Sane()
      ensures o.Pass? ==> Valid() && !IsSso(Now()) && Text(Now()) == old(Text(Now())) && Capacity(Now()) == n + 1
      ensures old(Ready()) ==> Kept() && (o.Pass? ==> Secured())
    {
      var tmp := bytes[..word - MSB];
      assert tmp == Text(Now());
      :- DestroyData();
      o := Rebuild(n, tmp);
    }

    /** large_to_sso */
    method LargeToSso() returns (o: Outcome)
      requires Valid() && !IsSso(Now()) && word - 1 <= SSO_CAPACITY
      modifies this`word, this`wordLog, this`blocks, this`byteLog, this`cellLog, this`taken, this`live, this`next, this`budget, bytes
      ensures o.Fail? ==> Broke()
      ensures old(next) <= next <= old(next) + 2
      ensures Sane()
      ensures o.Pass? ==> Valid() && IsSso(Now()) && Text(Now()) == old(Text(Now()))
      ensures old(Ready()) ==> Kept()
    {
      var p := ReadPointer();
      var tmp := blocks[p][..word - 1];
      :- DestroyData();
      o := Rebuild(|tmp|, tmp);
    }

    // ---------- the operations ----------

    method Size() returns (n: nat)
      requires Valid()
      ensures n == |Text(Now())|
    {
      n := if word >= MSB then word - MSB else word - 1;
    }

    /** erase */
    method Erase(index: nat, count: nat) returns (o: Outcome)
      requires Valid()
      modifies this`word, this`wordLog, this`blocks, this`byteLog, this`cellLog, this`budget, bytes
      ensures o.Fail? ==> Faulted() || Refused(Op.Erase(index, count), old(Now()), maxAlloc)
      ensures Refused(Op.Erase(index, count), old(Now()), maxAlloc) ==> o.Fail?
      ensures Sane()
      ensures o.Pass? ==> Valid() && Text(Now()) == Erased(old(Text(Now())), index, count)
      ensures o.Pass? ==> IsCut(old(Text(Now())), index, Min(count, old(|Text(Now())|) - index), Text(Now()))
      ensures o.Pass? ==> RoomOf(Now()) == old(RoomOf(Now()))
      ensures old(Ready()) ==> Kept()
    {
      if index <= |Text(Now())| {
        ErasedIsCut(Text(Now()), index, count);
      }
      o := EraseChecked(index, count);
    }

    method EraseChecked(index: nat, count: nat) returns (o: Outcome)
      requires Valid()
      modifies this`word, this`wordLog, this`blocks, this`byteLog, this`cellLog, this`budget, bytes
      ensures o.Fail? ==> Faulted() || Refused(Op.Erase(index, count), old(Now()), maxAlloc)
      ensures Refused(Op.Erase(index, count), old(Now()), maxAlloc) ==> o.Fail?
      ensures Sane()
      ensures o.Pass? ==> Valid() && Text(Now()) == Erased(old(Text(Now())), index, count)
      ensures o.Pass? ==> RoomOf(Now()) == old(RoomOf(Now()))
      ensures old(Ready()) ==> Kept()
    {
      var sz := Size();
      if index > sz {
        return Fail;
      }
      var n := Min(count, sz - index);
      if word >= MSB {
        o := EraseSso(index, n);
      } else {
        o := EraseLarge(index, n);
      }
    }

    /** The bytes of erase in a short string of size sz */
    method EraseBytes(index: nat, n: nat, sz: nat) returns (o: Outcome)
      requires bytes.Length == 24 && index + n <= sz <= SSO_CAPACITY
      modifies this`byteLog, this`budget, bytes
      ensures o.Fail? ==> Faulted()
      ensures old(byteLog.Keys) <= byteLog.Keys
      ensures o.Pass? ==> bytes[..sz - n] == old(bytes[..index]) + old(bytes[index + n..sz]) && bytes[sz - n] == 0
      ensures old(KeptBytes()) ==> KeptBytes()
    {
      var moved := sz - index - n;
      ghost var was := bytes[..];
      CutCells(was, index, n, sz);
      if moved > 0 {
        :- TrackBytes(index, index + moved + 1);
        PutBytes(index, bytes[index + n..sz]);
      }
      ghost var c := bytes[..];
      assert c[..sz - n] == was[..index] + was[index + n..sz];
      o := EndBytes(index + moved);
      assert o.Pass? ==> bytes[..sz - n] == c[..sz - n];
    }

    method EraseSso(index: nat, n: nat) returns (o: Outcome)
      requires Valid() && IsSso(Now()) && index + n <= |Text(Now())|
      modifies this`word, this`wordLog, this`byteLog, this`budget, bytes
      ensures o.Fail? ==> Faulted()
      ensures Sane()
      ensures o.Pass? ==> Valid() && IsSso(Now()) && Text(Now()) == old(Text(Now()))[..index] + old(Text(Now()))[index + n..]
      ensures old(Ready()) ==> Kept()
    {
      var sz := word - MSB;
      ghost var was := bytes[..];
      :- EraseBytes(index, n, sz);
      SetWord(MSB + sz - n);
      assert was[..sz][..index] == was[..index] && was[..sz][index + n..] == was[index + n..sz];
      return Pass;
    }

    method EraseLarge(index: nat, n: nat) returns (o: Outcome)
      requires Valid() && !IsSso(Now()) && index + n <= |Text(Now())|
      modifies this`word, this`wordLog, this`blocks, this`cellLog, this`budget
      ensures o.Fail? ==> Faulted()
      ensures Sane()
      ensures o.Pass? ==> Valid() && !IsSso(Now()) && Text(Now()) == old(Text(Now()))[..index] + old(Text(Now()))[index + n..]
      ensures o.Pass? ==> Capacity(Now()) == old(Capacity(Now()))
      ensures old(Ready()) ==> Kept() && (o.Pass? ==> Secured())
    {
      var p := ReadPointer();
      ghost var was, m := blocks[p], word;
      :- EraseCells(p, index, n);
      assert was[..index] + [] == was[..index];
      TextSpliced(blocks[p][..word], was, m, index, n, []);
      LargeText(Now());
      assert was[..m - 1][..index] + [] == was[..m - 1][..index];
      return Pass;
    }

    /** insert into a large string */
    method InsertLarge(index: nat, items: seq<int>) returns (o: Outcome)
      requires Valid() && !IsSso(Now()) && index <= |Text(Now())| && Possible(word + |items|)
      modifies this`word, this`wordLog, this`blocks, this`byteLog, this`cellLog, this`taken, this`live, this`next, this`budget, bytes
      ensures o.Fail? ==> Broke() || TooBig(old(Capacity(Now())), old(word) + |items|, maxAlloc)
      ensures TooBig(old(Capacity(Now())), old(word) + |items|, maxAlloc) ==> o.Fail?
      ensures old(next) <= next <= old(next) + 1
      ensures Sane()
      ensures o.Pass? ==> Valid() && !IsSso(Now()) && Text(Now()) == old(Text(Now()))[..index] + items + old(Text(Now()))[index..]
      ensures o.Pass? ==> Capacity(Now()) == Grown(old(Capacity(Now())), old(word) + |items|)
      ensures old(Kept() && Secured()) ==> Kept() && (o.Pass? ==> Secured())
    {
      ghost var m := Now();
      var p := ReadPointer();
      o := VecInsert(p, index, items);
      if o.Pass? {
        SplicedText(m, Now(), index, items);
      }
    }

    /** The bytes of insert and replace in a short string of size word - MSB */
    method ReplaceBytes(index: nat, n: nat, items: seq<int>) returns (o: Outcome)
      requires bytes.Length == 24 && index + n <= word - MSB <= SSO_CAPACITY && word - MSB - n + |items| <= SSO_CAPACITY
      modifies this`byteLog, this`budget, bytes
      ensures o.Fail? ==> Faulted()
      ensures old(byteLog.Keys) <= byteLog.Keys
      ensures var sz := word - MSB; o.Pass? ==>
        bytes[..sz - n + |items|] == old(bytes[..index]) + items + old(bytes[index + n..sz]) && bytes[sz - n + |items|] == 0
      ensures old(KeptBytes() && BytesWritable(word - MSB + 1, 24)) ==> KeptBytes()
    {
      var sz := word - MSB;
      :- AddSso(index, sz - n + |items| - index + 1);
      Splice(index, n, items, sz);
      return Pass;
    }

    /** The tail moved, the items and the terminator written. */
    method Splice(index: nat, n: nat, items: seq<int>, sz: nat)
      requires bytes.Length == 24 && index + n <= sz <= SSO_CAPACITY && sz - n + |items| <= SSO_CAPACITY
      modifies bytes
      ensures var size := sz - n + |items|;
        bytes[..size] == old(bytes[..index]) + items + old(bytes[index + n..sz]) && bytes[size] == 0
      ensures old(KeptBytes()) && BytesWritable(index, sz - n + |items| + 1) ==> KeptBytes()
    {
      var was := bytes[..];
      PutBytes(index + |items|, was[index + n..sz]);
      PutBytes(index, items);
      PutBytes(sz - n + |items|, [0]);
      Spliced(was, index, n, items, sz);
      assert bytes[..sz - n + |items|] == bytes[..][..sz - n + |items|];
    }

    /** insert and replace in a short string that stays short */
    method ReplaceSso(index: nat, n: nat, items: seq<int>) returns (o: Outcome)
      requires Valid() && IsSso(Now()) && index + n <= |Text(Now())| && |Text(Now())| - n + |items| <= SSO_CAPACITY
      modifies this`word, this`wordLog, this`byteLog, this`budget, bytes
      ensures o.Fail? ==> Faulted()
      ensures Sane()
      ensures o.Pass? ==> Valid() && IsSso(Now())
      ensures o.Pass? ==> Text(Now()) == old(Text(Now()))[..index] + items + old(Text(Now()))[index + n..]
      ensures old(Ready()) ==> Kept()
    {
      var sz := word - MSB;
      ghost var was := bytes[..];
      :- ReplaceBytes(index, n, items);
      SetWord(MSB + sz - n + |items|);
      assert was[..sz][..index] == was[..index] && was[..sz][index + n..] == was[index + n..sz];
      return Pass;
    }

    /** append of a range */
    method Append(items: seq<int>) returns (o: Outcome)
      requires Valid()
      modifies this`word, this`wordLog, this`blocks, this`byteLog, this`cellLog, this`taken, this`live, this`next, this`budget, bytes
      ensures o.Fail? ==> Broke() || Refused(Op.Append(items), old(Now()), maxAlloc)
      ensures Refused(Op.Append(items), old(Now()), maxAlloc) ==> o.Fail?
      ensures old(next) <= next <= old(next) + 3
      ensures Sane()
      ensures o.Pass? ==> Valid() && Text(Now()) == old(Text(Now())) + items
      ensures o.Pass? ==> RoomOf(Now()) == Extended(old(RoomOf(Now())), |Text(Now())|)
      ensures old(Ready()) ==> Kept()
    {
      var sz := Size();
      ghost var t := Text(Now());
      assert t[..sz] == t && t[sz..] == [];
      if sz + |items| > maxAlloc - 1 {
        return Fail;
      }
      o := InsertAt(sz, items);
    }

    /** What append and insert do once the size is checked. */
    method InsertAt(index: nat, items: seq<int>) returns (o: Outcome)
      requires Valid() && index <= |Text(Now())| <= maxAlloc - 1 - |items|
      modifies this`word, this`wordLog, this`blocks, this`byteLog, this`cellLog, this`taken, this`live, this`next, this`budget, bytes
      ensures o.Fail? ==> Broke() || (!old(IsSso(Now())) && TooBig(old(Capacity(Now())), old(word) + |items|, maxAlloc))
      ensures (!old(IsSso(Now())) && TooBig(old(Capacity(Now())), old(word) + |items|, maxAlloc)) ==> o.Fail?
      ensures old(next) <= next <= old(next) + 3
      ensures Sane()
      ensures o.Pass? ==> Valid() && Text(Now()) == old(Text(Now()))[..index] + items + old(Text(Now()))[index..]
      ensures o.Pass? ==> RoomOf(Now()) == Extended(old(RoomOf(Now())), old(|Text(Now())|) + |items|)
      ensures old(Ready()) ==> Kept()
    {
      var sz := Size();
      SmallIsPossible(sz + 1 + |items|);
      if word >= MSB && sz + |items| <= SSO_CAPACITY {
        o := ReplaceSso(index, 0, items);
      } else if word >= MSB {
        o := InsertGrowing(index, items);
      } else {
        ghost var c := Capacity(Now());
        o := InsertLarge(index, items);
        assert o.Pass? ==> Extended(Long(c), sz + |items|) == Long(Grown(c, sz + 1 + |items|));
      }
    }

    /** insert into a short string that becomes large */
    method InsertGrowing(index: nat, items: seq<int>) returns (o: Outcome)
      requires Valid() && IsSso(Now()) && index <= |Text(Now())| <= maxAlloc - 1 - |items| && |Text(Now())| + |items| > SSO_CAPACITY
      requires Possible(|Text(Now())| + 1 + |items|)
      modifies this`word, this`wordLog, this`blocks, this`byteLog, this`cellLog, this`taken, this`live, this`next, this`budget, bytes
      ensures o.Fail? ==> Broke()
      ensures old(next) <= next <= old(next) + 3
      ensures Sane()
      ensures o.Pass? ==> Valid() && !IsSso(Now()) && Text(Now()) == old(Text(Now()))[..index] + items + old(Text(Now()))[index..]
      ensures o.Pass? ==> Capacity(Now()) == old(|Text(Now())|) + |items| + 1
      ensures old(Ready()) ==> Kept()
    {
      o := Pass;
      :- SsoToLarge(word - MSB + |items|);
      o := InsertLarge(index, items);
    }

    /** insert of a range */
    method Insert(index: nat, items: seq<int>) returns (o: Outcome)
      requires Valid()
      modifies this`word, this`wordLog, this`blocks, this`byteLog, this`cellLog, this`taken, this`live, this`next, this`budget, bytes
      ensures o.Fail? ==> Broke() || Refused(Op.Insert(index, items), old(Now()), maxAlloc)
      ensures Refused(Op.Insert(index, items), old(Now()), maxAlloc) ==> o.Fail?
      ensures old(next) <= next <= old(next) + 3
      ensures Sane()
      ensures o.Pass? ==> Valid() && Text(Now()) == old(Text(Now()))[..index] + items + old(Text(Now()))[index..]
      ensures o.Pass? ==> RoomOf(Now()) == Extended(old(RoomOf(Now())), |Text(Now())|)
      ensures old(Ready()) ==> Kept()
    {
      var sz := Size();
      if index > sz || sz + |items| > maxAlloc - 1 {
        return Fail;
      }
      o := InsertAt(index, items);
    }

    /** replace of a range */
    method Replace(index: nat, count: nat, items: seq<int>) returns (o: Outcome)
      requires Valid()
      modifies this`word, this`wordLog, this`blocks, this`byteLog, this`cellLog, this`taken, this`live, this`next, this`budget, bytes
      ensures o.Fail? ==> Broke() || Refused(Op.Replace(index, count, items), old(Now()), maxAlloc)
      ensures Refused(Op.Replace(index, count, items), old(Now()), maxAlloc) ==> o.Fail?
      ensures old(next) <= next <= old(next) + 5
      ensures Sane()
      ensures o.Pass? ==> Valid() && Text(Now()) == Replaced(old(Text(Now())), index, count, items)
      ensures o.Pass? ==> IsExchanged(old(Text(Now())), index, Min(count, old(|Text(Now())|) - index), items, Text(Now()))
      ensures o.Pass? ==> RoomOf(Now()) == if |Text(Now())| <= SSO_CAPACITY then Short else Extended(old(RoomOf(Now())), |Text(Now())|)
      ensures old(Ready()) ==> Kept()
    {
      if index <= |Text(Now())| {
        ReplacedIsExchanged(Text(Now()), index, count, items);
      }
      o := ReplaceChecked(index, count, items);
    }

    method ReplaceChecked(index: nat, count: nat, items: seq<int>) returns (o: Outcome)
      requires Valid()
      modifies this`word, this`wordLog, this`blocks, this`byteLog, this`cellLog, this`taken, this`live, this`next, this`budget, bytes
      ensures o.Fail? ==> Broke() || Refused(Op.Replace(index, count, items), old(Now()), maxAlloc)
      ensures Refused(Op.Replace(index, count, items), old(Now()), maxAlloc) ==> o.Fail?
      ensures old(next) <= next <= old(next) + 5
      ensures Sane()
      ensures o.Pass? ==> Valid() && Text(Now()) == Replaced(old(Text(Now())), index, count, items)
      ensures o.Pass? ==> RoomOf(Now()) == if |Text(Now())| <= SSO_CAPACITY then Short else Extended(old(RoomOf(Now())), |Text(Now())|)
      ensures old(Ready()) ==> Kept()
    {
      var sz := Size();
      if index > sz {
        return Fail;
      }
      var n := Min(count, sz - index);
      if sz - n + |items| > maxAlloc - 1 {
        return Fail;
      }
      o := ReplaceAt(index, n, items);
    }

    /** What replace does once the size is checked. */
    method ReplaceAt(index: nat, n: nat, items: seq<int>) returns (o: Outcome)
      requires Valid() && index + n <= |Text(Now())| && |Text(Now())| - n + |items| < maxAlloc
      modifies this`word, this`wordLog, this`blocks, this`byteLog, this`cellLog, this`taken, this`live, this`next, this`budget, bytes
      ensures o.Fail? ==> Broke() || (!old(IsSso(Now())) && TooBig(old(Capacity(Now())), old(word) - n + |items|, maxAlloc))
      ensures !old(IsSso(Now())) && TooBig(old(Capacity(Now())), old(word) - n + |items|, maxAlloc) ==> o.Fail?
      ensures old(next) <= next <= old(next) + 5
      ensures Sane()
      ensures o.Pass? ==> Valid() && Text(Now()) == old(Text(Now()))[..index] + items + old(Text(Now()))[index + n..]
      ensures o.Pass? ==> var size := old(|Text(Now())|) - n + |items|;
        RoomOf(Now()) == if size <= SSO_CAPACITY then Short else Extended(old(RoomOf(Now())), size)
      ensures old(Ready()) ==> Kept()
    {
      var sz := Size();
      var size := sz - n + |items|;
      if word >= MSB && size <= SSO_CAPACITY {
        o := ReplaceSso(index, n, items);
      } else {
        o := ReplaceThroughLarge(index, n, items, size);
      }
    }

    /** replace when the string is large before or after it */
    method ReplaceThroughLarge(index: nat, n: nat, items: seq<int>, size: nat) returns (o: Outcome)
      requires Valid() && index + n <= |Text(Now())| && size == |Text(Now())| - n + |items| < maxAlloc
      requires IsSso(Now()) ==> SSO_CAPACITY < size
      modifies this`word, this`wordLog, this`blocks, this`byteLog, this`cellLog, this`taken, this`live, this`next, this`budget, bytes
      ensures o.Fail? ==> Broke() || (!old(IsSso(Now())) && TooBig(old(Capacity(Now())), old(word) - n + |items|, maxAlloc))
      ensures !old(IsSso(Now())) && TooBig(old(Capacity(Now())), old(word) - n + |items|, maxAlloc) ==> o.Fail?
      ensures old(next) <= next <= old(next) + 5
      ensures Sane()
      ensures o.Pass? ==> Valid() && Text(Now()) == old(Text(Now()))[..index] + items + old(Text(Now()))[index + n..]
      ensures o.Pass? ==> RoomOf(Now()) == if size <= SSO_CAPACITY then Short else Extended(old(RoomOf(Now())), size)
      ensures old(Ready()) ==> Kept()
    {
      if word >= MSB {
        :- SsoToLarge(size);
      }
      :- ReplaceLarge(index, n, items);
      if size <= SSO_CAPACITY {
        o := LargeToSso();
      } else {
        o := Pass;
      }
    }

    /** erase and insert of the vector in replace */
    method ReplaceLarge(index: nat, n: nat, items: seq<int>) returns (o: Outcome)
      requires Valid() && !IsSso(Now()) && index + n <= |Text(Now())| && |Text(Now())| - n + |items| < maxAlloc
      modifies this`word, this`wordLog, this`blocks, this`byteLog, this`cellLog, this`taken, this`live, this`next, this`budget, bytes
      ensures o.Fail? ==> Broke() || TooBig(old(Capacity(Now())), old(word) - n + |items|, maxAlloc)
      ensures TooBig(old(Capacity(Now())), old(word) - n + |items|, maxAlloc) ==> o.Fail?
      ensures old(next) <= next <= old(next) + 1
      ensures Sane()
      ensures o.Pass? ==> Valid() && !IsSso(Now()) && Text(Now()) == old(Text(Now()))[..index] + items + old(Text(Now()))[index + n..]
      ensures o.Pass? ==> Capacity(Now()) == Grown(old(Capacity(Now())), old(word) - n + |items|)
      ensures old(Ready()) ==> Kept() && (o.Pass? ==> Secured())
    {
      ghost var t := Text(Now());
      :- EraseLarge(index, n);
      ghost var u := Text(Now());
      assert u[..index] == t[..index] && u[index..] == t[index + n..];
      SmallIsPossible(word + |items|);
      o := InsertLarge(index, items);
    }

    /** resize */
    method Resize(n: nat, ch: int) returns (o: Outcome)
      requires Valid()
      modifies this`word, this`wordLog, this`blocks, this`byteLog, this`cellLog, this`taken, this`live, this`next, this`budget, bytes
      ensures o.Fail? ==> Broke() || Refused(Op.Resize(n, ch), old(Now()), maxAlloc)
      ensures Refused(Op.Resize(n, ch), old(Now()), maxAlloc) ==> o.Fail?
      ensures old(next) <= next <= old(next) + 3
      ensures Sane()
      ensures o.Pass? ==> Valid() && Text(Now()) == Resized(old(Text(Now())), n, ch)
      ensures o.Pass? ==> Fitted(old(Text(Now())), n, ch, Text(Now()))
      ensures o.Pass? ==> RoomOf(Now()) == if n <= old(|Text(Now())|) then old(RoomOf(Now())) else Extended(old(RoomOf(Now())), n)
      ensures old(Ready()) ==> Kept()
    {
      if n > maxAlloc - 1 {
        return Fail;
      }
      ResizedFits(Text(Now()), n, ch);
      var sz := Size();
      if n > sz {
        o := Append(seq(n - sz, _ => ch));
      } else if word >= MSB {
        o := ResizeSso(n);
      } else {
        o := ResizeLarge(n);
      }
    }

    method ResizeSso(n: nat) returns (o: Outcome)
      requires Valid() && IsSso(Now()) && n <= |Text(Now())|
      modifies this`word, this`wordLog, this`byteLog, this`budget, bytes
      ensures o.Fail? ==> Faulted()
      ensures Sane()
      ensures o.Pass? ==> Valid() && IsSso(Now()) && Text(Now()) == old(Text(Now()))[..n]
      ensures old(Kept()) ==> Kept()
    {
      ghost var was := bytes[..];
      SetWord(MSB + n);
      o := EndBytes(n);
      if o.Pass? {
        assert bytes[..][..n] == was[..n];
      }
    }

    /** A terminator in the bytes */
    method EndBytes(n: nat) returns (o: Outcome)
      requires bytes.Length == 24 && n < 24
      modifies this`byteLog, this`budget, bytes
      ensures o.Fail? ==> Faulted()
      ensures old(byteLog.Keys) <= byteLog.Keys
      ensures o.Pass? ==> bytes[..n] == old(bytes[..n]) && bytes[n] == 0
      ensures old(KeptBytes()) ==> KeptBytes()
    {
      OverwrittenParts(bytes[..], n, [0]);
      o := TrackBytes(n, n + 1);
      if o.Pass? {
        PutBytes(n, [0]);
        assert bytes[..][n] == 0;
      }
    }

    /** resize of the vector in resize, and back() */
    method ResizeLarge(n: nat) returns (o: Outcome)
      requires Valid() && !IsSso(Now()) && n <= |Text(Now())|
      modifies this`word, this`wordLog, this`blocks, this`cellLog, this`budget
      ensures o.Fail? ==> Faulted()
      ensures Sane()
      ensures o.Pass? ==> Valid() && !IsSso(Now()) && Text(Now()) == old(Text(Now()))[..n]
      ensures o.Pass? ==> Capacity(Now()) == old(Capacity(Now()))
      ensures old(Kept()) ==> Kept()
    {
      var p := ReadPointer();
      ghost var was := blocks[p];
      if |blocks[p]| != n + 1 {
        SetWord(n + 1);
      }
      o := EndCells(p, n);
      if o.Pass? {
        LargeText(Now());
        assert Elements(Now())[..n] == was[..n];
      }
    }

    /** A terminator in the array, through back() */
    method EndCells(p: nat, n: nat) returns (o: Outcome)
      requires p in blocks && n < |blocks[p]|
      modifies this`blocks, this`cellLog, this`budget
      ensures o.Fail? ==> Faulted()
      ensures blocks.Keys == old(blocks.Keys) && |blocks[p]| == old(|blocks[p]|)
      ensures o.Pass? ==> blocks[p][..n] == old(blocks[p][..n]) && blocks[p][n] == 0
      ensures old(KeptCells()) ==> KeptCells()
    {
      OverwrittenParts(blocks[p], n, [0]);
      o := TrackCells(p, n, n + 1);
      if o.Pass? {
        PutCells(p, n, [0]);
      }
    }

    /** reserve */
    method Reserve(n: nat) returns (o: Outcome)
      requires Valid()
      modifies this`word, this`wordLog, this`blocks, this`byteLog, this`cellLog, this`taken, this`live, this`next, this`budget, bytes
      ensures o.Fail? ==> Broke() || Refused(Op.Reserve(n), old(Now()), maxAlloc)
      ensures Refused(Op.Reserve(n), old(Now()), maxAlloc) ==> o.Fail?
      ensures old(next) <= next <= old(next) + 2
      ensures Sane()
      ensures o.Pass? ==> Valid() && Text(Now()) == old(Text(Now())) && CapacityNow() == Max(old(CapacityNow()), n)
      ensures o.Pass? ==> RoomOf(Now()) == Assigned(old(RoomOf(Now())), n)
      ensures old(Ready()) ==> Kept()
    {
      if n > maxAlloc - 1 {
        return Fail;
      }
      if word >= MSB {
        if n <= SSO_CAPACITY {
          return Pass;
        }
        o := SsoToLarge(n);
      } else {
        o := ReserveLarge(n);
      }
    }

    /** reserve of a large string: short capacities are ignored */
    method ReserveLarge(n: nat) returns (o: Outcome)
      requires Valid() && !IsSso(Now())
      modifies this`word, this`wordLog, this`blocks, this`byteLog, this`cellLog, this`taken, this`live, this`next, this`budget, bytes
      ensures o.Fail? ==> Broke() || n + 1 > maxAlloc
      ensures old(next) <= next <= old(next) + 1
      ensures Sane()
      ensures o.Pass? ==> Valid() && !IsSso(Now()) && Text(Now()) == old(Text(Now()))
      ensures o.Pass? ==> Capacity(Now()) == (if n <= SSO_CAPACITY then old(Capacity(Now())) else Max(old(Capacity(Now())), n + 1))
      ensures old(Ready()) ==> Kept()
    {
      var c := ReadCapacity();
      if n < c - 1 || n <= SSO_CAPACITY {
        return Pass;
      }
      ghost var s := Elements(Now());
      :- VecReserve(n + 1);
      assert Elements(Now()) == s;
      return Pass;
    }

    /** shrink_to_fit */
    method ShrinkToFit() returns (o: Outcome)
      requires Valid()
      modifies this`word, this`wordLog, this`blocks, this`byteLog, this`cellLog, this`taken, this`live, this`next, this`budget, bytes
      ensures o.Fail? ==> Broke() || Refused(Op.ShrinkToFit, old(Now()), maxAlloc)
      ensures Refused(Op.ShrinkToFit, old(Now()), maxAlloc) ==> o.Fail?
      ensures old(next) <= next <= old(next) + 2
      ensures Sane()
      ensures o.Pass? ==> Valid() && Text(Now()) == old(Text(Now()))
      ensures o.Pass? ==> (IsSso(Now()) <==> old(IsSso(Now())) || |Text(Now())| <= SSO_CAPACITY)
      ensures o.Pass? && !IsSso(Now()) ==> CapacityNow() == |Text(Now())|
      ensures o.Pass? ==> RoomOf(Now()) == Extended(Short, |Text(Now())|)
      ensures old(Ready()) ==> Kept()
    {
      if word >= MSB {
        return Pass;
      }
      if word - 1 <= SSO_CAPACITY {
        o := LargeToSso();
        return o;
      }
      var c := ReadCapacity();
      if c == word {
        return Pass;
      }
      ghost var s := Elements(Now());
      :- VecRealloc(word);
      assert Elements(Now()) == s;
      return Pass;
    }

    /** free_data */
    method FreeData() returns (o: Outcome)
      requires Valid()
      modifies this`word, this`wordLog, this`blocks, this`byteLog, this`cellLog, this`taken, this`live, this`next, this`budget, bytes
      ensures next == old(next)
      ensures o.Fail? ==> Faulted()
      ensures Sane()
      ensures o.Pass? ==> Valid() && IsSso(Now()) && Text(Now()) == []
      ensures old(Ready()) ==> Kept()
    {
      if word >= MSB {
        :- AddSso(0, word - MSB + 1);
        o := EraseSso(0, word - MSB);
      } else {
        :- VecDealloc();
        SetWord(word + MSB);
        o := Pass;
      }
    }

    /** clear */
    method Clear() returns (o: Outcome)
      requires Valid()
      modifies this`word, this`wordLog, this`blocks, this`byteLog, this`cellLog, this`taken, this`live, this`next, this`budget, bytes
      ensures next == old(next)
      ensures o.Fail? ==> Faulted()
      ensures Sane()
      ensures o.Pass? ==> Valid() && Text(Now()) == []
      ensures o.Pass? ==> RoomOf(Now()) == old(RoomOf(Now()))
      ensures old(Ready()) ==> Kept()
    {
      var sz := Size();
      o := Erase(0, sz);
    }

    /** capacity() */
    ghost function CapacityNow(): int
      reads this, bytes
      requires bytes.Length == 24
    {
      if IsSso(Now()) then SSO_CAPACITY else Capacity(Now()) - 1
    }

    // ---------- transactions ----------

    ghost predicate Idle()
      reads this, bytes
    {
      Valid() && wordLog == None && byteLog == map[] && cellLog == map[] && taken == {} && live == blocks.Keys
    }

    constructor (maxAlloc: nat)
      requires maxAlloc < MSB
      ensures Idle() && Text(Now()) == [] && fresh(bytes)
    {
      bytes := new int[24](i => 0);
      word := MSB;
      blocks, live, taken, next := map[], {}, {}, 1;
      wordLog, byteLog, cellLog, faulty, budget := None, map[], map[], false, 0;
      this.maxAlloc := maxAlloc;
    }

    method Begin(fault: Option<nat>)
      requires Idle()
      modifies this`faulty, this`budget, this`before
      ensures before == OriginOf(Now()) && Ready() && faulty == fault.Some?
    {
      faulty := fault.Some?;
      if fault.Some? {
        budget := fault.value;
      }
      before := OriginOf(Now());
    }

    /** The rollback. */
    method Abort(ghost m: Image)
      requires Kept() && Sane() && IsString(m) && before == OriginOf(m) && m.blocks.Keys == Owned(m)
      modifies this`word, this`wordLog, this`blocks, this`byteLog, this`cellLog, this`taken, this`live, bytes
      ensures Idle() && Same(Now(), m)
    {
      if wordLog.Some? {
        word := wordLog.value;
      }
      RestoreBytes();
      RestoreBlocks();
      wordLog, byteLog, cellLog, taken, live := None, map[], map[], {}, blocks.Keys;
      assert bytes[..|before.bytes|] == before.bytes;
      SameOrigin(Now(), m);
    }

    method RestoreBytes()
      requires KeptBytes()
      modifies bytes
      ensures forall i :: 0 <= i < |before.bytes| ==> bytes[i] == before.bytes[i]
    {
      for k := 0 to 24
        invariant forall i :: 0 <= i < |before.bytes| && i < k ==> bytes[i] == before.bytes[i]
        invariant forall i :: k <= i < 24 ==> bytes[i] == old(bytes[i])
      {
        if k in byteLog && byteLog[k].Some? {
          bytes[k] := byteLog[k].value;
        }
        assert k < |before.bytes| ==> if k in byteLog then byteLog[k] == Some(before.bytes[k]) else old(bytes[k]) == before.bytes[k];
      }
    }

    method RestoreBlocks()
      requires KeptCells() && Sane()
      modifies this`blocks
      ensures blocks.Keys == before.blocks
      ensures forall b :: b in blocks ==> 0 < b < next
      ensures before.home != 0 ==> before.home in blocks && |blocks[before.home]| == before.capacity && blocks[before.home][..|before.cells|] == before.cells
    {
      var current, log := blocks, cellLog;
      blocks := map b | b in current && b !in taken :: RestoredCells(current[b], b, log);
      assert blocks.Keys == before.blocks;
      if before.home != 0 {
        var p := before.home;
        forall i | 0 <= i < |before.cells| ensures blocks[p][i] == before.cells[i] {
          assert (p, i) in cellLog || current[p][i] == before.cells[i];
        }
      }
    }

    method Commit()
      requires Valid()
      modifies this`wordLog, this`blocks, this`byteLog, this`cellLog, this`taken
      ensures Idle() && Text(Now()) == old(Text(Now())) && IsSso(Now()) == old(IsSso(Now()))
    {
      ghost var m := Now();
      blocks := map b | b in blocks && b in live :: blocks[b];
      wordLog, byteLog, cellLog, taken := None, map[], map[], {};
      assert Now().bytes == m.bytes && Now().word == m.word;
      assert !IsSso(m) ==> Pointer(m) in live;
    }

    method Perform(op: Op) returns (o: Outcome)
      requires Valid()
      modifies this`word, this`wordLog, this`blocks, this`byteLog, this`cellLog, this`taken, this`live, this`next, this`budget, bytes
      ensures o.Fail? ==> Broke() || Refused(op, old(Now()), maxAlloc)
      ensures Refused(op, old(Now()), maxAlloc) ==> o.Fail?
      ensures old(next) <= next <= old(next) + 5
      ensures Sane()
      ensures o.Pass? ==> Valid() && Text(Now()) == After(op, old(Text(Now())))
      ensures o.Pass? ==> RoomOf(Now()) == RoomAfter(op, old(Now()))
      ensures old(Ready()) ==> Kept()
    {
      match op
      case Assign(items) => o := ReplaceContent(items);
      case Append(items) => o := Append(items);
      case Insert(index, items) => o := Insert(index, items);
      case Erase(index, count) => o := Erase(index, count);
      case Replace(index, count, items) => o := Replace(index, count, items);
      case Resize(n, ch) => o := Resize(n, ch);
      case Reserve(n) => o := Reserve(n);
      case ShrinkToFit => o := ShrinkToFit();
      case FreeData => o := FreeData();
      case Clear => o := Clear();
    }

    /**
      A single operation in an outermost transaction, in which something may be thrown at any
      point (fault), or which is aborted after it. It does everything, or the string is as it
      was: the same representation, capacity and array, the same characters. Without a fault it
      does everything unless the arguments are refused.
     */
    method Transact(op: Op, fault: Option<nat>, commit: bool) returns (done: bool)
      requires Idle()
      modifies this, bytes
      ensures Idle()
      ensures done ==> Text(Now()) == After(op, old(Text(Now()))) && RoomOf(Now()) == RoomAfter(op, old(Now()))
      ensures !done ==> Same(Now(), old(Now())) && Text(Now()) == old(Text(Now())) && RoomOf(Now()) == old(RoomOf(Now()))
      ensures !commit || Refused(op, old(Now()), maxAlloc) ==> !done
      ensures commit && fault.None? && old(next) + 5 < POINTERS && !Refused(op, old(Now()), maxAlloc) ==> done
    {
      ghost var m := Now();
      Begin(fault);
      var o := Perform(op);
      done := o.Pass? && commit;
      if done {
        Commit();
      } else {
        Abort(m);
        SameText(Now(), m);
      }
    }

    // ---------- swap ----------

    /** The arrays that the pointers of two strings number, exchanged along with the pointers. */
    method ExchangeArrays(other: PString)
      requires this != other
      modifies this`blocks, this`live, this`taken, this`next, this`cellLog
      modifies other`blocks, other`live, other`taken, other`next, other`cellLog
      ensures blocks == old(other.blocks) && live == old(other.live) && taken == old(other.taken) && next == old(other.next) && cellLog == old(other.cellLog)
      ensures other.blocks == old(blocks) && other.live == old(live) && other.taken == old(taken) && other.next == old(next) && other.cellLog == old(cellLog)
    {
      blocks, other.blocks := other.blocks, blocks;
      live, other.live := other.live, live;
      taken, other.taken := other.taken, taken;
      next, other.next := other.next, next;
      cellLog, other.cellLog := other.cellLog, cellLog;
    }

    /** Two ranges of bytes logged and exchanged. */
    method SwapBytes(other: PString, lo: nat, hi: nat) returns (o: Outcome)
      requires this != other && bytes != other.bytes && lo <= hi <= bytes.Length == other.bytes.Length
      modifies this`byteLog, this`budget, bytes, other`byteLog, other`budget, other.bytes
      ensures o.Fail? ==> Faulted() || other.Faulted()
      ensures o.Pass? ==> bytes[..] == Overwritten(old(bytes[..]), lo, old(other.bytes[lo..hi]))
      ensures o.Pass? ==> other.bytes[..] == Overwritten(old(other.bytes[..]), lo, old(bytes[lo..hi]))
      ensures old(KeptBytes()) ==> KeptBytes()
      ensures old(other.KeptBytes()) ==> other.KeptBytes()
    {
      o := TrackBytes(lo, hi);
      if o.Pass? {
        o := other.TrackBytes(lo, hi);
      }
      if o.Pass? {
        var mine, theirs := bytes[lo..hi], other.bytes[lo..hi];
        PutBytes(lo, theirs);
        other.PutBytes(lo, mine);
      }
    }

    method SwapWords(other: PString)
      requires this != other
      modifies this`word, this`wordLog, other`word, other`wordLog
      ensures word == old(other.word) && other.word == old(word)
      ensures old(KeptWord()) ==> KeptWord()
      ensures old(other.KeptWord()) ==> other.KeptWord()
    {
      var mine, theirs := word, other.word;
      SetWord(theirs);
      other.SetWord(mine);
    }

    ghost predicate Apart(other: PString)
    {
      this != other && bytes != other.bytes
    }

    /** swap of two short strings: all bytes and the size words */
    method SwapShort(other: PString) returns (o: Outcome)
      requires Apart(other) && Valid() && other.Valid() && IsSso(Now()) && IsSso(other.Now())
      modifies this`word, this`wordLog, this`byteLog, this`budget, bytes
      modifies other`word, other`wordLog, other`byteLog, other`budget, other.bytes
      ensures o.Fail? ==> Faulted() || other.Faulted()
      ensures o.Pass? ==> Valid() && other.Valid()
      ensures o.Pass? ==> Text(Now()) == old(Text(other.Now())) && Text(other.Now()) == old(Text(Now()))
      ensures Sane() && other.Sane()
      ensures old(Kept()) ==> Kept()
      ensures old(other.Kept()) ==> other.Kept()
    {
      ShortElsewhere(Now(), other.blocks);
      ShortElsewhere(other.Now(), blocks);
      o := SwapStorage(other);
      if o.Pass? {
        assert Now() == old(other.Now()).(blocks := blocks) && other.Now() == old(Now()).(blocks := other.blocks);
      }
    }

    method SwapStorage(other: PString) returns (o: Outcome)
      requires Apart(other) && bytes.Length == other.bytes.Length == 24
      modifies this`word, this`wordLog, this`byteLog, this`budget, bytes
      modifies other`word, other`wordLog, other`byteLog, other`budget, other.bytes
      ensures o.Fail? ==> Faulted() || other.Faulted()
      ensures o.Pass? ==> bytes[..] == old(other.bytes[..]) && other.bytes[..] == old(bytes[..])
      ensures if o.Pass? then word == old(other.word) && other.word == old(word) else word == old(word) && other.word == old(other.word)
      ensures old(KeptWord()) ==> KeptWord()
      ensures old(KeptBytes()) ==> KeptBytes()
      ensures old(other.KeptWord()) ==> other.KeptWord()
      ensures old(other.KeptBytes()) ==> other.KeptBytes()
    {
      WholeSwapped(bytes[..], other.bytes[..]);
      o := SwapBytes(other, 0, 24);
      if o.Pass? {
        SwapWords(other);
      }
    }

    /** The fields of two vectors exchanged: pointer, size, capacity */
    method SwapFields(other: PString) returns (o: Outcome)
      requires Apart(other) && bytes.Length == other.bytes.Length == 24
      modifies this`word, this`wordLog, this`byteLog, this`budget, bytes
      modifies other`word, other`wordLog, other`byteLog, other`budget, other.bytes
      ensures o.Fail? ==> Faulted() || other.Faulted()
      ensures o.Pass? ==> bytes[..] == old(other.bytes[..]) && other.bytes[..] == old(bytes[..])
      ensures o.Pass? ==> word == old(other.word) && other.word == old(word)
      ensures old(KeptWord()) ==> KeptWord()
      ensures old(KeptBytes()) ==> KeptBytes()
      ensures old(other.KeptWord()) ==> other.KeptWord()
      ensures old(other.KeptBytes()) ==> other.KeptBytes()
    {
      WholeSwapped(bytes[..], other.bytes[..]);
      WholeSwapped(other.bytes[..], bytes[..]);
      o := SwapBytes(other, 8, 24);
      SwapWords(other);
      if o.Pass? {
        o := SwapBytes(other, 0, 8);
      }
    }

    /** swap of two large strings: vector::swap */
    method SwapLarge(other: PString) returns (o: Outcome)
      requires Apart(other) && Valid() && other.Valid() && !IsSso(Now()) && !IsSso(other.Now())
      modifies this`word, this`wordLog, this`blocks, this`byteLog, this`cellLog, this`taken, this`live, this`next, this`budget, bytes
      modifies other`word, other`wordLog, other`blocks, other`byteLog, other`cellLog, other`taken, other`live, other`next, other`budget, other.bytes
      ensures o.Fail? ==> next == old(next) && other.next == old(other.next)
      ensures o.Fail? ==> Faulted() || other.Faulted()
      ensures o.Pass? ==> Now() == old(other.Now()) && other.Now() == old(Now()) && Valid() && other.Valid()
      ensures o.Pass? ==> taken == old(other.taken) && other.taken == old(taken) && cellLog == old(other.cellLog) && other.cellLog == old(cellLog)
      ensures o.Fail? ==> blocks == old(blocks) && other.blocks == old(other.blocks) && taken == old(taken) && other.taken == old(other.taken)
      ensures o.Fail? ==> cellLog == old(cellLog) && other.cellLog == old(other.cellLog)
      ensures Sane() && other.Sane()
      ensures old(KeptWord() && KeptBytes()) ==> KeptWord() && KeptBytes()
      ensures old(other.KeptWord() && other.KeptBytes()) ==> other.KeptWord() && other.KeptBytes()
    {
      o := SwapFields(other);
      if o.Pass? {
        ExchangeArrays(other);
      }
    }

    /** swap of a short and a large string: the smaller one is cached, the larger one copied over it, and the copy assigned. */
    method SwapMixed(other: PString) returns (o: Outcome)
      requires Apart(other) && Valid() && other.Valid() && IsSso(Now()) != IsSso(other.Now())
      modifies this`word, this`wordLog, this`blocks, this`byteLog, this`cellLog, this`taken, this`live, this`next, this`budget, bytes
      modifies other`word, other`wordLog, other`blocks, other`byteLog, other`cellLog, other`taken, other`live, other`next, other`budget, other.bytes
      ensures o.Fail? ==> Broke() || other.Broke() || SwapRefused(old(Now()), old(other.Now()), maxAlloc, other.maxAlloc)
      ensures next <= old(next) + 2 && other.next <= old(other.next) + 2
      ensures o.Pass? ==> Valid() && other.Valid()
      ensures o.Pass? ==> Text(Now()) == old(Text(other.Now())) && Text(other.Now()) == old(Text(Now()))
      ensures Sane() && other.Sane()
      ensures old(Ready()) ==> Kept()
      ensures old(other.Ready()) ==> other.Kept()
    {
      var mine := ReadText();
      var theirs := other.ReadText();
      if |mine| > |theirs| {
        o := other.ReplaceContent(mine);
        if o.Pass? {
          o := ReplaceContent(theirs);
        }
      } else {
        o := ReplaceContent(theirs);
        if o.Pass? {
          o := other.ReplaceContent(mine);
        }
      }
    }

    /** c_str() and size() */
    method ReadText() returns (t: seq<int>)
      requires Valid()
      ensures t == Text(Now())
    {
      if word >= MSB {
        t := bytes[..word - MSB];
        assert t == bytes[..][..word - MSB];
      } else {
        var p := ReadPointer();
        t := blocks[p][..word - 1];
      }
    }

    /** swap; `exchanged` says that the strings have exchanged their arrays. */
    method Swap(other: PString) returns (o: Outcome, exchanged: bool)
      requires Apart(other) && Valid() && other.Valid()
      modifies this`word, this`wordLog, this`blocks, this`byteLog, this`cellLog, this`taken, this`live, this`next, this`budget, bytes
      modifies other`word, other`wordLog, other`blocks, other`byteLog, other`cellLog, other`taken, other`live, other`next, other`budget, other.bytes
      ensures o.Fail? ==> Broke() || other.Broke() || SwapRefused(old(Now()), old(other.Now()), maxAlloc, other.maxAlloc)
      ensures o.Fail? ==> next <= old(next) + 2 && other.next <= old(other.next) + 2
      ensures o.Pass? ==> Valid() && other.Valid()
      ensures o.Pass? ==> Text(Now()) == old(Text(other.Now())) && Text(other.Now()) == old(Text(Now()))
      ensures Sane() && other.Sane()
      ensures !exchanged && old(Ready()) ==> Kept()
      ensures !exchanged && old(other.Ready()) ==> other.Kept()
      ensures exchanged ==> o.Pass?
      ensures exchanged ==> blocks == old(other.blocks) && taken == old(other.taken) && cellLog == old(other.cellLog)
      ensures exchanged ==> other.blocks == old(blocks) && other.taken == old(taken) && other.cellLog == old(cellLog)
      ensures exchanged && old(Ready()) ==> KeptWord() && KeptBytes()
      ensures exchanged && old(other.Ready()) ==> other.KeptWord() && other.KeptBytes()
    {
      exchanged := false;
      if word >= MSB && other.word >= MSB {
        o := SwapShort(other);
      } else if word < MSB && other.word < MSB {
        o := SwapLarge(other);
        exchanged := o.Pass?;
      } else {
        o := SwapMixed(other);
      }
    }

    /**
      swap in an outermost transaction, in which something may be thrown at any point, or which is
      aborted after it: both strings have exchanged their characters, or both are as they were.
     */
    method TransactSwap(other: PString, fault: Option<nat>, otherFault: Option<nat>, commit: bool) returns (done: bool)
      requires Apart(other) && Idle() && other.Idle()
      modifies this, bytes, other, other.bytes
      ensures Idle() && other.Idle()
      ensures done ==> Text(Now()) == old(Text(other.Now())) && Text(other.Now()) == old(Text(Now()))
      ensures !done ==> Same(Now(), old(Now())) && Same(other.Now(), old(other.Now()))
      ensures !commit ==> !done
      ensures (commit && fault.None? && otherFault.None? && old(next) + 2 < POINTERS && old(other.next) + 2 < POINTERS &&
               !SwapRefused(old(Now()), old(other.Now()), maxAlloc, other.maxAlloc)) ==> done
    {
      ghost var m, n := Now(), other.Now();
      Begin(fault);
      other.Begin(otherFault);
      done := SwapOrUndo(other, commit, m, n);
    }

    method SwapOrUndo(other: PString, commit: bool, ghost m: Image, ghost n: Image) returns (done: bool)
      requires Apart(other) && Valid() && other.Valid() && Ready() && other.Ready()
      requires IsString(m) && before == OriginOf(m) && m.blocks.Keys == Owned(m)
      requires IsString(n) && other.before == OriginOf(n) && n.blocks.Keys == Owned(n)
      modifies this`word, this`wordLog, this`blocks, this`byteLog, this`cellLog, this`taken, this`live, this`next, this`budget, bytes
      modifies other`word, other`wordLog, other`blocks, other`byteLog, other`cellLog, other`taken, other`live, other`next, other`budget, other.bytes
      ensures Idle() && other.Idle()
      ensures done ==> Text(Now()) == old(Text(other.Now())) && Text(other.Now()) == old(Text(Now()))
      ensures !done ==> Same(Now(), m) && Same(other.Now(), n)
      ensures !commit ==> !done
      ensures (!faulty && !other.faulty && commit && old(next) + 2 < POINTERS && old(other.next) + 2 < POINTERS &&
               !SwapRefused(old(Now()), old(other.Now()), maxAlloc, other.maxAlloc)) ==> done
    {
      var o, exchanged := Swap(other);
      done := o.Pass? && commit;
      if done {
        CommitBoth(other);
      } else {
        UndoSwap(other, exchanged, m, n);
      }
    }

    method CommitBoth(other: PString)
      requires Apart(other) && Valid() && other.Valid()
      modifies this`wordLog, this`blocks, this`byteLog, this`cellLog, this`taken
      modifies other`wordLog, other`blocks, other`byteLog, other`cellLog, other`taken
      ensures Idle() && other.Idle() && Text(Now()) == old(Text(Now())) && Text(other.Now()) == old(Text(other.Now()))
    {
      Commit();
      other.Commit();
    }

    /** The rollback of both strings; the arrays go back with the pointers. */
    method UndoSwap(other: PString, exchanged: bool, ghost m: Image, ghost n: Image)
      requires Apart(other) && Sane() && other.Sane()
      requires KeptWord() && KeptBytes() && other.KeptWord() && other.KeptBytes()
      requires if exchanged then KeptArrays(before, other.blocks, other.taken, other.cellLog) && KeptArrays(other.before, blocks, taken, cellLog)
               else KeptCells() && other.KeptCells()
      requires IsString(m) && before == OriginOf(m) && m.blocks.Keys == Owned(m)
      requires IsString(n) && other.before == OriginOf(n) && n.blocks.Keys == Owned(n)
      modifies this`word, this`wordLog, this`blocks, this`byteLog, this`cellLog, this`taken, this`live, this`next, bytes
      modifies other`word, other`wordLog, other`blocks, other`byteLog, other`cellLog, other`taken, other`live, other`next, other.bytes
      ensures Idle() && other.Idle() && Same(Now(), m) && Same(other.Now(), n)
    {
      if exchanged {
        ExchangeArrays(other);
      }
      Abort(m);
      other.Abort(n);
    }
  }

  // ---------- what the operations mean ----------

  /** A vector of the given capacity would have to grow beyond the largest one for n elements. */
  predicate TooBig(capacity: int, n: int, max: nat)
  {
    capacity < n && 0 <= n && Ceiling(n) > max
  }

  /** The arguments or sizes for which an operation throws: positions beyond the end and lengths beyond the largest ones. */
  predicate Refused(op: Op, m: Image, max: nat)
    requires IsString(m)
  {
    var n, large := |Text(m)|, !IsSso(m);
    match op
    case Assign(items) => |items| > SSO_CAPACITY && |items| + 1 > max && (large ==> Capacity(m) < |items| + 1)
    case Append(items) => n + |items| > max - 1 || (large && TooBig(Capacity(m), n + 1 + |items|, max))
    case Insert(index, items) => index > n || n + |items| > max - 1 || (large && TooBig(Capacity(m), n + 1 + |items|, max))
    case Erase(index, _) => index > n
    case Replace(index, count, items) =>
      index > n ||
      var left := n - Min(count, n - index) + |items|;
      left > max - 1 || (large && TooBig(Capacity(m), left + 1, max))
    case Resize(k, _) => k > max - 1 || (large && n < k && TooBig(Capacity(m), k + 1, max))
    case Reserve(k) => k > max - 1
    case ShrinkToFit => large && n > SSO_CAPACITY && Capacity(m) != n + 1 && n + 1 > max
    case FreeData => false
    case Clear => false
  }

  /** The representation, and the capacity of the vector of a large string. */
  datatype Room = Short | Long(capacity: int)

  function RoomOf(m: Image): Room
    requires |m.bytes| == 24
  {
    if IsSso(m) then Short else Long(Capacity(m))
  }

  /** After the string has been assigned `size` characters, or has been given room for them: just enough is added. */
  function Assigned(r: Room, size: int): Room
  {
    match r
    case Short => if size <= SSO_CAPACITY then Short else Long(size + 1)
    case Long(c) => Long(Max(c, size + 1))
  }

  /** After characters were added, up to `size`: a short string gets just enough, a vector grows by powers of two. */
  function Extended(r: Room, size: nat): Room
  {
    match r
    case Short => if size <= SSO_CAPACITY then Short else Long(size + 1)
    case Long(c) => Long(if size + 1 <= c then c else Ceiling(size + 1))
  }

  function RoomAfter(op: Op, m: Image): Room
    requires IsString(m)
  {
    var r, n := RoomOf(m), |Text(m)|;
    match op
    case Assign(items) => Assigned(r, |items|)
    case Append(items) => Extended(r, n + |items|)
    case Insert(index, items) => Extended(r, n + |items|)
    case Erase(_, _) => r
    case Replace(index, count, items) =>
      var size := |Replaced(Text(m), index, count, items)|;
      if size <= SSO_CAPACITY then Short else Extended(r, size)
    case Resize(k, _) => if k <= n then r else Extended(r, k)
    case Reserve(k) => Assigned(r, k)
    case ShrinkToFit => Extended(Short, n)
    case FreeData => Short
    case Clear => r
  }

  datatype Op =
    | Assign(items: seq<int>)
    | Append(items: seq<int>)
    | Insert(index: nat, items: seq<int>)
    | Erase(index: nat, count: nat)
    | Replace(index: nat, count: nat, items: seq<int>)
    | Resize(n: nat, ch: int)
    | Reserve(n: nat)
    | ShrinkToFit
    | FreeData
    | Clear

  /** swap of a short and a large string assigns the characters of each to the other. */
  predicate SwapRefused(m: Image, n: Image, max: nat, otherMax: nat)
    requires IsString(m) && IsString(n)
  {
    IsSso(m) != IsSso(n) && (Refused(Op.Assign(Text(n)), m, max) || Refused(Op.Assign(Text(m)), n, otherMax))
  }

  /** The characters after an operation that does not throw. */
  function After(op: Op, t: seq<int>): seq<int>
  {
    match op
    case Assign(items) => items
    case Append(items) => t + items
    case Insert(index, items) => if index > |t| then t else t[..index] + items + t[index..]
    case Erase(index, count) => Erased(t, index, count)
    case Replace(index, count, items) => Replaced(t, index, count, items)
    case Resize(n, ch) => Resized(t, n, ch)
    case Reserve(_) => t
    case ShrinkToFit => t
    case FreeData => []
    case Clear => []
  }

  /** The same representation: of short strings the bytes up to the terminator, of large ones all fields and elements. */
  ghost predicate Same(a: Image, b: Image)
  {
    IsString(a) && IsString(b) && OriginOf(a) == OriginOf(b)
  }

  lemma SameText(a: Image, b: Image)
    requires Same(a, b)
    ensures Text(a) == Text(b) && RoomOf(a) == RoomOf(b)
  {
    if IsSso(a) {
      assert Text(a) == a.bytes[..a.word - MSB + 1][..a.word - MSB];
      assert Text(b) == b.bytes[..b.word - MSB + 1][..b.word - MSB];
    } else {
      assert Text(a) == Elements(a)[..a.word - 1];
      assert Text(b) == Elements(b)[..b.word - 1];
    }
  }

  /** What an abort restores is a string again. */
  lemma SameOrigin(a: Image, m: Image)
    requires IsString(m) && |a.bytes| == 24 && a.word == m.word && a.blocks.Keys == m.blocks.Keys
    requires var o := OriginOf(m);
             a.bytes[..|o.bytes|] == o.bytes &&
             (o.home != 0 ==> o.home in a.blocks && |a.blocks[o.home]| == o.capacity && a.blocks[o.home][..|o.cells|] == o.cells)
    ensures Same(a, m) && Owned(a) == Owned(m)
  {
    if IsSso(m) {
      assert a.bytes[m.word - MSB] == OriginOf(m).bytes[m.word - MSB];
    } else {
      assert a.bytes == m.bytes;
      assert Elements(m)[m.word - 1] == m.blocks[Pointer(m)][m.word - 1];
    }
  }

  /** Two strings of bytes exchanged at once, or field by field. */
  lemma WholeSwapped(a: seq<int>, b: seq<int>)
    requires |a| == |b| == 24
    ensures Overwritten(a, 0, b[0..24]) == b && Overwritten(b, 0, a[0..24]) == a
    ensures Overwritten(Overwritten(a, 8, b[8..24]), 0, Overwritten(b, 8, a[8..24])[0..8]) == b
  {
  }

  lemma ShortElsewhere(m: Image, blocks: map<nat, seq<int>>)
    requires IsShort(m)
    ensures IsShort(m.(blocks := blocks)) && Text(m.(blocks := blocks)) == Text(m)
  {
  }

  function RestoredCells(s: seq<int>, b: nat, log: map<(nat, nat), Option<int>>): seq<int>
  {
    seq(|s|, i requires 0 <= i < |s| => if (b, i) in log && log[(b, i)].Some? then log[(b, i)].value else s[i])
  }

  /** A tail moved down. */
  lemma CutCells(was: seq<int>, index: nat, n: nat, sz: nat)
    requires index + n <= sz <= |was|
    ensures Overwritten(was, index, was[index + n..sz])[..sz - n] == was[..index] + was[index + n..sz]
    ensures index + n == sz ==> was[..index] + was[index + n..sz] == was[..sz - n]
  {
    OverwrittenParts(was, index, was[index + n..sz]);
    var c := Overwritten(was, index, was[index + n..sz]);
    assert c[..sz - n] == c[..index] + c[index..sz - n];
  }

  /** A tail moved and items written before it. */
  lemma SplicedCells(was: seq<int>, index: nat, n: nat, items: seq<int>, sz: nat)
    requires index + n <= sz <= |was| && sz - n + |items| <= |was|
    ensures var b := Overwritten(Overwritten(was, index + |items|, was[index + n..sz]), index, items);
            b[..sz - n + |items|] == was[..index] + items + was[index + n..sz]
  {
    var size, k := sz - n + |items|, index + |items|;
    var a := Overwritten(was, k, was[index + n..sz]);
    var b := Overwritten(a, index, items);
    assert a[..index] == was[..index] && a[k..size] == was[index + n..sz];
    assert b[..index] == a[..index] && b[index..k] == items && b[k..size] == a[k..size];
    assert b[..size] == b[..index] + b[index..k] + b[k..size];
  }

  lemma Spliced(was: seq<int>, index: nat, n: nat, items: seq<int>, sz: nat)
    requires index + n <= sz < |was| && sz - n + |items| < |was|
    ensures var size := sz - n + |items|;
            var a := Overwritten(was, index + |items|, was[index + n..sz]);
            var c := Overwritten(Overwritten(a, index, items), size, [0]);
            c[..size] == was[..index] + items + was[index + n..sz] && c[size] == 0
  {
    SplicedCells(was, index, n, items, sz);
    var b := Overwritten(Overwritten(was, index + |items|, was[index + n..sz]), index, items);
    var size := sz - n + |items|;
    assert Overwritten(b, size, [0])[..size] == b[..size];
  }

  lemma LargeText(m: Image)
    requires IsVector(m) && 0 < m.word && SSO_CAPACITY + 1 < Capacity(m) && Elements(m)[m.word - 1] == 0
    ensures IsLarge(m) && Text(m) == Elements(m)[..m.word - 1]
  {
  }

  /** The characters before and after a change in an array of characters and a terminator */
  lemma TextSpliced(now: seq<int>, was: seq<int>, m: nat, index: nat, n: nat, items: seq<int>)
    requires index + n < m <= |was| && now == was[..index] + items + was[index + n..m]
    ensures now[..|now| - 1] == was[..m - 1][..index] + items + was[..m - 1][index + n..]
    ensures now[|now| - 1] == was[m - 1]
  {
    Trimmed(now, was[..index] + items, was[index + n..m]);
    assert was[..m - 1][..index] == was[..index];
    assert was[..m - 1][index + n..] == was[index + n..m][..m - 1 - index - n];
  }

  /** A large string with items inserted. */
  lemma SplicedText(was: Image, m: Image, index: nat, items: seq<int>)
    requires IsLarge(was) && !IsSso(was) && index < was.word && IsVector(m) && !IsSso(m) && Capacity(was) <= Capacity(m)
    requires var cells := was.blocks[Pointer(was)]; Elements(m) == cells[..index] + items + cells[index..was.word]
    ensures IsLarge(m) && Text(m) == Text(was)[..index] + items + Text(was)[index..]
  {
    TextSpliced(Elements(m), was.blocks[Pointer(was)], was.word, index, 0, items);
    LargeText(m);
  }

  lemma Trimmed(s: seq<int>, a: seq<int>, b: seq<int>)
    requires s == a + b && |b| > 0
    ensures s[..|s| - 1] == a + b[..|b| - 1] && s[|s| - 1] == b[|b| - 1]
  {
  }

  lemma SmallIsPossible(n: nat)
    requires n <= MSB
    ensures Possible(n)
  {
    Pow2Of63();
  }

  function Replaced(t: seq<int>, index: nat, count: nat, items: seq<int>): seq<int>
  {
    if index > |t| then t else t[..index] + items + t[index + Min(count, |t| - index)..]
  }

  function Erased(t: seq<int>, index: nat, count: nat): seq<int>
  {
    if index > |t| then t else t[..index] + t[index + Min(count, |t| - index)..]
  }

  /** r is t without n characters from index on. */
  ghost predicate IsCut(t: seq<int>, index: nat, n: nat, r: seq<int>)
  {
    var cut :=
      && index + n <= |t| && |r| == |t| - n
      && (forall k :: 0 <= k < index ==> r[k] == t[k])
      && (forall k :: index <= k < |r| ==> r[k] == t[k + n]);
    cut
  }

  /** r is t with items for n characters from index on. */
  ghost predicate IsExchanged(t: seq<int>, index: nat, n: nat, items: seq<int>, r: seq<int>)
  {
    var exchanged :=
      && index + n <= |t| && |r| == |t| - n + |items|
      && (forall k :: 0 <= k < index ==> r[k] == t[k])
      && (forall k :: 0 <= k < |items| ==> r[index + k] == items[k])
      && (forall k :: index + |items| <= k < |r| ==> r[k] == t[k - |items| + n]);
    exchanged
  }

  lemma ErasedIsCut(t: seq<int>, index: nat, count: nat)
    requires index <= |t|
    ensures IsCut(t, index, Min(count, |t| - index), Erased(t, index, count))
  {
  }

  lemma ReplacedIsExchanged(t: seq<int>, index: nat, count: nat, items: seq<int>)
    requires index <= |t|
    ensures IsExchanged(t, index, Min(count, |t| - index), items, Replaced(t, index, count, items))
  {
  }

  /** What an uninitialized array holds. */
  function Junk(n: nat): (s: seq<int>)
    ensures |s| == n
  {
    seq(n, i => 255)
  }

  lemma {:induction false} Pow256Add(m: nat, n: nat)
    ensures Pow256(m + n) == Pow256(m) * Pow256(n)
  {
    if m > 0 {
      Pow256Add(m - 1, n);
    }
  }

  lemma PointerRoundTrip(p: nat)
    requires p < POINTERS
    ensures Decode(Encode(p, 16)) == p
  {
    assert Pow256(8) == 0x1_0000_0000_0000_0000;
    Pow256Add(8, 8);
    DecodeEncode(p, 16);
  }

  lemma FieldRoundTrip(n: nat)
    requires n < MSB
    ensures Decode(Encode(n, 8)) == n
  {
    assert MSB <= Pow256(8);
    DecodeEncode(n, 8);
  }
}
