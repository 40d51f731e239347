/**
  How bucket indices are laid out over segments and allocated blocks, and how the table of
  block pointers grows, is recovered after a restart and is freed again.
 */
module Segments {
  import opened HashPath

  const FIRST_BIG_BLOCK: nat := 27
  const BIG_BLOCK_SIZE: nat := 0x800_0000     // 2^27 buckets
  const EMBEDDED_SEGMENTS: nat := 1
  const EMBEDDED_BUCKETS: nat := 2
  const NUMBER_OF_SEGMENTS: nat := 32
  const FIRST_BLOCK: nat := 8                 // segments 1 to 7 share one allocation
  const TABLE_SIZE: nat := 58                 // NumberOfBlocks()
  const SHARED_SIZE: nat := 254               // SharedSize()
  const INDICES: nat := 0x1_0000_0000         // buckets of all 32 segments

  // ---------- segment_traits ----------

  function FirstBlockIn(seg: nat): nat
  {
    if seg < FIRST_BIG_BLOCK then seg else FIRST_BIG_BLOCK + Pow2(seg - FIRST_BIG_BLOCK) - 1
  }

  function BlocksIn(seg: nat): nat
  {
    if seg < FIRST_BIG_BLOCK then 1 else Pow2(seg - FIRST_BIG_BLOCK)
  }

  function SegmentSize(k: nat): nat
  {
    Pow2(k)
  }

  function BlockSize(b: nat): (size: nat)
    ensures size > 0
  {
    if b < FIRST_BIG_BLOCK then SegmentSize(if b > 0 then b else 1) else BIG_BLOCK_SIZE
  }

  function NumberOfBlocks(): nat
  {
    FirstBlockIn(NUMBER_OF_SEGMENTS)
  }

  /** Log2(index | 1) */
  function SegmentOf(index: nat): nat
  {
    Log2(if index % 2 == 0 then index + 1 else index)
  }

  /** (1 << k) & ~1 */
  function SegmentBase(k: nat): nat
  {
    if k == 0 then 0 else Pow2(k)
  }

  /** Number of buckets of a segment. */
  function Size(seg: nat): nat
  {
    SegmentSize(if seg > 0 then seg else 1)
  }

  /** A cell of the table: a bucket by block and offset in the block. */
  datatype Cell = Cell(block: nat, offset: nat)

  lemma DivMod(i: nat, d: nat)
    requires d > 0
    ensures i / d >= 0 && 0 <= i % d < d
  {
  }

  /** segment_facade_impl::operator[] */
  function Subscript(seg: nat, i: nat): Cell
  {
    var block := FirstBlockIn(seg);
    var size := BlockSize(block);
    DivMod(i, size);
    Cell(block + i / size, i % size)
  }

  /** get_bucket */
  function GetBucket(h: nat): Cell
    requires SegmentBase(SegmentOf(h)) <= h
  {
    Subscript(SegmentOf(h), h - SegmentBase(SegmentOf(h)))
  }

  // ---------- powers ----------

  lemma Powers()
    ensures Pow2(1) == 2 && Pow2(5) == 32 && Pow2(8) == 256
    ensures Pow2(27) == BIG_BLOCK_SIZE && Pow2(32) == INDICES
  {
    assert Pow2(4) == 16;
    assert Pow2(8) == 256;
    assert Pow2(12) == 4096;
    assert Pow2(16) == 65536;
    assert Pow2(20) == 0x10_0000;
    assert Pow2(24) == 0x100_0000;
    assert Pow2(28) == 0x1000_0000;
  }

  lemma {:induction false} Log2Bounds(x: nat)
    requires x > 0
    ensures Pow2(Log2(x)) <= x < Pow2(Log2(x) + 1)
  {
    if x >= 2 {
      Log2Bounds(x / 2);
    }
  }

  lemma {:induction false} Log2Unique(x: nat, k: nat)
    requires Pow2(k) <= x < Pow2(k + 1)
    ensures Log2(x) == k
  {
    Log2Bounds(x);
    if Log2(x) < k {
      Pow2Grows(Log2(x) + 1, k);
    } else if k < Log2(x) {
      Pow2Grows(k + 1, Log2(x));
    }
  }

  lemma {:induction false} Pow2Sum(j: nat, k: nat)
    ensures Pow2(j + k) == Pow2(j) * Pow2(k)
  {
    if k > 0 {
      Pow2Sum(j, k - 1);
    }
  }

  lemma {:induction false} Pow2Even(k: nat)
    requires k >= 1
    ensures Pow2(k) % 2 == 0
  {
  }

  // ---------- where a bucket lies ----------

  lemma SegmentOfBounds(h: nat)
    requires h < INDICES
    ensures var s := SegmentOf(h);
      s < NUMBER_OF_SEGMENTS && SegmentBase(s) <= h < SegmentBase(s) + Size(s)
  {
    Powers();
    var x := if h % 2 == 0 then h + 1 else h;
    var s := Log2(x);
    Log2Bounds(x);
    OddBounds(h, x, s);
    Pow2Even(32);
    if s >= NUMBER_OF_SEGMENTS {
      Pow2Grows(NUMBER_OF_SEGMENTS, s);
    }
  }

  /** Setting the lowest bit does not move a number across a power of two above 1. */
  lemma OddBounds(h: nat, x: nat, s: nat)
    requires x == (if h % 2 == 0 then h + 1 else h) && Pow2(s) <= x < Pow2(s + 1)
    ensures h < Pow2(s + 1) && (s >= 1 ==> Pow2(s) <= h)
  {
    if s >= 1 {
      Pow2Even(s);
    }
  }

  lemma SmallSegment(h: nat)
    requires h < BIG_BLOCK_SIZE
    ensures SegmentOf(h) < FIRST_BIG_BLOCK
  {
    Powers();
    SegmentOfBounds(h);
    if SegmentOf(h) >= FIRST_BIG_BLOCK {
      Pow2Grows(FIRST_BIG_BLOCK, SegmentOf(h));
    }
  }

  lemma SmallBucket(h: nat)
    requires h < BIG_BLOCK_SIZE
    ensures SegmentBase(SegmentOf(h)) <= h
    ensures GetBucket(h) == Cell(SegmentOf(h), h - SegmentBase(SegmentOf(h)))
  {
    SegmentOfBounds(h);
    SmallSegment(h);
    var s := SegmentOf(h);
    SmallDivision(h - SegmentBase(s), Size(s));
  }

  lemma SmallDivision(i: nat, n: nat)
    requires i < n
    ensures i / n == 0 && i % n == i
  {
  }

  /** Beyond the small segments the blocks follow each other in index order. */
  lemma BigBucket(h: nat)
    requires BIG_BLOCK_SIZE <= h < INDICES
    ensures SegmentBase(SegmentOf(h)) <= h
    ensures GetBucket(h) == Cell(26 + h / BIG_BLOCK_SIZE, h % BIG_BLOCK_SIZE)
  {
    Powers();
    SegmentOfBounds(h);
    var s := SegmentOf(h);
    if s < FIRST_BIG_BLOCK {
      Pow2Grows(s + 1, FIRST_BIG_BLOCK);
    }
    Pow2Sum(FIRST_BIG_BLOCK, s - FIRST_BIG_BLOCK);
    var p := Pow2(s - FIRST_BIG_BLOCK);
    assert SegmentBase(s) == BIG_BLOCK_SIZE * p;
    assert (h - BIG_BLOCK_SIZE * p) / BIG_BLOCK_SIZE == h / BIG_BLOCK_SIZE - p;
  }

  /** The index of a cell. */
  function IndexOf(c: Cell): nat
  {
    if c.block < FIRST_BIG_BLOCK then SegmentBase(c.block) + c.offset
    else (c.block - 26) * BIG_BLOCK_SIZE + c.offset
  }

  /** Every bucket index has its own cell, within the table and within its block. */
  lemma CellOfIndex(h: nat)
    requires h < INDICES
    ensures SegmentBase(SegmentOf(h)) <= h
    ensures var c := GetBucket(h);
      c.block < NumberOfBlocks() && c.offset < BlockSize(c.block) && IndexOf(c) == h
  {
    Powers();
    SegmentOfBounds(h);
    if h < BIG_BLOCK_SIZE {
      SmallBucket(h);
      SmallSegment(h);
    } else {
      BigBucket(h);
    }
  }

  /** Every cell of every block belongs to one bucket index: the blocks tile the indices. */
  lemma IndexOfCell(c: Cell)
    requires c.block < NumberOfBlocks() && c.offset < BlockSize(c.block)
    ensures IndexOf(c) < INDICES
    ensures SegmentBase(SegmentOf(IndexOf(c))) <= IndexOf(c)
    ensures GetBucket(IndexOf(c)) == c
  {
    Powers();
    var h := IndexOf(c);
    if c.block < FIRST_BIG_BLOCK {
      SmallCell(c);
    } else {
      BigBucket(h);
    }
  }

  lemma SmallCell(c: Cell)
    requires c.block < FIRST_BIG_BLOCK && c.offset < BlockSize(c.block)
    ensures IndexOf(c) < BIG_BLOCK_SIZE && SegmentOf(IndexOf(c)) == c.block
    ensures SegmentBase(SegmentOf(IndexOf(c))) <= IndexOf(c)
    ensures GetBucket(IndexOf(c)) == c
  {
    Powers();
    var h := IndexOf(c);
    Pow2Grows(c.block + 1, FIRST_BIG_BLOCK);
    if c.block > 0 {
      Pow2Even(c.block);
      Log2Unique(if h % 2 == 0 then h + 1 else h, c.block);
    }
    SmallBucket(h);
  }

  /** So different buckets never share a cell. */
  lemma CellsDiffer(g: nat, h: nat)
    requires g < INDICES && h < INDICES && g != h
    ensures SegmentBase(SegmentOf(g)) <= g && SegmentBase(SegmentOf(h)) <= h
    ensures GetBucket(g) != GetBucket(h)
  {
    CellOfIndex(g);
    CellOfIndex(h);
  }

  // ---------- the table of block pointers ----------

  /** A persistent pointer into an allocated array of buckets. */
  datatype Ptr = Null | At(arr: nat, off: nat)

  /** The pool's heap: the length of every live array. */
  class Pool {
    var live: map<nat, nat>
    var next: nat

    ghost predicate Valid()
      reads this
    {
      forall a :: a in live ==> a < next
    }

    constructor ()
      ensures Valid() && live == map[]
    {
      live := map[];
      next := 0;
    }

    method Alloc(len: nat) returns (a: nat)
      requires Valid()
      modifies this
      ensures Valid() && a !in old(live) && live == old(live)[a := len]
      ensures old(next) <= a < next
    {
      a := next;
      live := live[a := len];
      next := next + 1;
    }

    /** delete_persistent<bucket_type[]>: the array has to be live and of the given length. */
    method Free(a: nat, len: nat)
      requires Valid() && a in live && live[a] == len
      modifies this
      ensures Valid() && live == old(live) - {a} && next == old(next)
    {
      live := live - {a};
    }
  }

  /** The number of segments a table can have: only the embedded one, or 8 to 32. */
  predicate Level(n: nat)
  {
    n == 1 || 8 <= n <= NUMBER_OF_SEGMENTS
  }

  /** Buckets in the shared allocation of segments 1 to 7. */
  function SharedSize(): nat
  {
    SegmentSize(FIRST_BLOCK) - EMBEDDED_BUCKETS
  }

  predicate InUse(b: nat, lo: nat, mid: nat, hi: nat)
  {
    FIRST_BLOCK <= b < lo || mid <= b < hi
  }

  /**
    Blocks 1 to sh - 1 point into one array of their joint length; of the big blocks those
    below lo and those in mid..hi point to arrays of their own; no other block points
    anywhere, and there are as many arrays as that, so no others.
   */
  ghost predicate Layout(bs: seq<Ptr>, live: map<nat, nat>, sh: nat, lo: nat, mid: nat, hi: nat)
  {
    && |bs| == TABLE_SIZE && 1 <= sh <= FIRST_BLOCK <= lo <= mid <= hi <= |bs|
    && bs[0] != Null
    && (sh > 1 ==> bs[1].At? && bs[1].arr in live && live[bs[1].arr] == SHARED_SIZE)
    && (forall b :: 1 <= b < sh ==> bs[b] == At(bs[1].arr, SegmentBase(b) - EMBEDDED_BUCKETS))
    && (forall b :: sh <= b < FIRST_BLOCK ==> bs[b] == Null)
    && (forall b :: FIRST_BLOCK <= b < |bs| ==>
          if InUse(b, lo, mid, hi) then bs[b].At? && bs[b].off == 0 && bs[b].arr in live && live[bs[b].arr] == BlockSize(b)
          else bs[b] == Null)
    && (forall b, c :: FIRST_BLOCK <= b < c < |bs| && InUse(b, lo, mid, hi) && InUse(c, lo, mid, hi) ==>
          bs[b].arr != bs[c].arr)
    && (sh > 1 ==> forall b :: FIRST_BLOCK <= b < |bs| && InUse(b, lo, mid, hi) ==> bs[b].arr != bs[1].arr)
    && |live| == (if sh > 1 then 1 else 0) + (lo - FIRST_BLOCK) + (hi - mid)
  }

  /** The big blocks below n that are in use. */
  function Used(n: nat, lo: nat, mid: nat, hi: nat): int
    requires FIRST_BLOCK <= n && FIRST_BLOCK <= lo <= mid <= hi
  {
    (if n < lo then n else lo) - FIRST_BLOCK + (if n < mid then 0 else if n < hi then n - mid else hi - mid)
  }

  /** ... have as many arrays. */
  lemma {:induction false} UsedArrays(bs: seq<Ptr>, live: map<nat, nat>, sh: nat, lo: nat, mid: nat, hi: nat, n: nat)
    returns (arrs: set<nat>)
    requires Layout(bs, live, sh, lo, mid, hi) && FIRST_BLOCK <= n <= |bs|
    ensures arrs <= live.Keys && |arrs| == Used(n, lo, mid, hi) && (sh > 1 ==> bs[1].arr !in arrs)
    ensures forall a :: a in arrs ==> exists b :: FIRST_BLOCK <= b < n && InUse(b, lo, mid, hi) && bs[b] == At(a, 0)
  {
    if n == FIRST_BLOCK {
      arrs := {};
    } else {
      var rest := UsedArrays(bs, live, sh, lo, mid, hi, n - 1);
      arrs := if InUse(n - 1, lo, mid, hi) then rest + {bs[n - 1].arr} else rest;
    }
  }

  /** Every live array is the shared one or that of a big block in use: none is lost. */
  lemma NoOtherArrays(bs: seq<Ptr>, live: map<nat, nat>, sh: nat, lo: nat, mid: nat, hi: nat, a: nat)
    requires Layout(bs, live, sh, lo, mid, hi) && a in live
    ensures (sh > 1 && a == bs[1].arr) ||
            exists b :: FIRST_BLOCK <= b < |bs| && InUse(b, lo, mid, hi) && bs[b] == At(a, 0)
  {
    var arrs := UsedArrays(bs, live, sh, lo, mid, hi, |bs|);
    var all := if sh > 1 then arrs + {bs[1].arr} else arrs;
    assert |live.Keys - all| == |live.Keys| - |all| == 0;
    assert a in all;
  }

  /** One more block with an array of its own. */
  lemma LayoutExtended(bs: seq<Ptr>, live: map<nat, nat>, b: nat, a: nat)
    requires b < |bs| && Layout(bs, live, FIRST_BLOCK, b, b, b) && a !in live
    ensures Layout(bs[b := At(a, 0)], live[a := BlockSize(b)], FIRST_BLOCK, b + 1, b + 1, b + 1)
  {
    assert InUse(b, b + 1, b + 1, b + 1);
    assert forall c :: FIRST_BLOCK <= c < |bs| && InUse(c, b, b, b) ==> InUse(c, b + 1, b + 1, b + 1);
  }

  /** The first of the blocks in b..end given up. */
  lemma LayoutReduced(bs: seq<Ptr>, live: map<nat, nat>, first: nat, b: nat, end: nat)
    requires b < end && Layout(bs, live, FIRST_BLOCK, first, b, end)
    ensures bs[b].At? && bs[b].arr in live && live[bs[b].arr] == BlockSize(b)
    ensures Layout(bs[b := Null], live - {bs[b].arr}, FIRST_BLOCK, first, b + 1, end)
  {
    assert (live - {bs[b].arr}).Keys == live.Keys - {bs[b].arr};
    assert InUse(b, first, b, end);
  }

  lemma LayoutFits()
    ensures NumberOfBlocks() == TABLE_SIZE && SharedSize() == SHARED_SIZE
    ensures forall b :: 1 <= b ==> SegmentBase(b) >= EMBEDDED_BUCKETS
  {
    Powers();
    forall b | 1 <= b ensures SegmentBase(b) >= EMBEDDED_BUCKETS {
      Pow2Grows(1, b);
    }
  }

  lemma NextFirstBlock(n: nat)
    ensures FirstBlockIn(n + 1) == FirstBlockIn(n) + BlocksIn(n) && BlocksIn(n) >= 1
  {
  }

  lemma {:induction false} FirstBlockGrows(m: nat, n: nat)
    requires m <= n
    ensures FirstBlockIn(m) + (n - m) <= FirstBlockIn(n)
    decreases n
  {
    if m < n {
      FirstBlockGrows(m, n - 1);
      NextFirstBlock(n - 1);
    }
  }

  /** segment_blocks: the blocks of a segment, as a range. */
  function SegmentBlocks(seg: nat): (nat, nat)
  {
    (FirstBlockIn(seg), FirstBlockIn(seg) + BlocksIn(seg))
  }

  lemma SegmentBlocksFit(seg: nat)
    requires FIRST_BLOCK <= seg < NUMBER_OF_SEGMENTS
    ensures var (begin, end) := SegmentBlocks(seg);
      FIRST_BLOCK <= begin < end <= TABLE_SIZE && end == FirstBlockIn(seg + 1)
  {
    LayoutFits();
    NextFirstBlock(seg);
    FirstBlockGrows(FIRST_BLOCK, seg);
    FirstBlockGrows(seg + 1, NUMBER_OF_SEGMENTS);
  }

  class SegmentTable {
    var blocks: array<Ptr>
    var pool: Pool

    ghost predicate HasLayout(sh: nat, lo: nat, mid: nat, hi: nat)
      reads this, blocks, pool
    {
      var fits := pool.Valid() && Layout(blocks[..], pool.live, sh, lo, mid, hi);
      fits
    }

    /** Exactly the first n segments are enabled, and every live array belongs to them. */
    ghost predicate Enabled(n: nat)
      reads this, blocks, pool
    {
      Level(n) &&
      if n == 1 then HasLayout(1, FIRST_BLOCK, FIRST_BLOCK, FIRST_BLOCK)
      else HasLayout(FIRST_BLOCK, FirstBlockIn(n), FirstBlockIn(n), FirstBlockIn(n))
    }

    constructor ()
      ensures Enabled(1) && fresh(blocks) && fresh(pool) && pool.live == map[]
    {
      LayoutFits();
      blocks := new Ptr[NumberOfBlocks()](_ => Null);
      pool := new Pool();
      new;
      blocks[0] := At(0, 0);   // the embedded segment, part of the map itself
    }

    /** enable_first_block: one array for segments 1 to 7. */
    method EnableFirst()
      requires HasLayout(1, FIRST_BLOCK, FIRST_BLOCK, FIRST_BLOCK)
      modifies blocks, pool
      ensures HasLayout(FIRST_BLOCK, FIRST_BLOCK, FIRST_BLOCK, FIRST_BLOCK)
      ensures |pool.live| == |old(pool.live)| + 1
    {
      LayoutFits();
      assert pool.live == map[];
      var a := pool.Alloc(SharedSize());
      blocks[1] := At(a, 0);
      var s := 2;
      while s < FIRST_BLOCK
        invariant 2 <= s <= FIRST_BLOCK && pool.Valid() && pool.live == map[a := SHARED_SIZE]
        invariant blocks[0] != Null && blocks[1].At? && blocks[1].arr == a
        invariant forall b :: 1 <= b < s ==> blocks[b] == At(a, SegmentBase(b) - EMBEDDED_BUCKETS)
        invariant forall b :: s <= b < blocks.Length ==> blocks[b] == Null
      {
        blocks[s] := At(blocks[EMBEDDED_SEGMENTS].arr, SegmentBase(s) - SegmentBase(EMBEDDED_SEGMENTS));
        s := s + 1;
      }
    }

    /** enable_big_segment: an array for each block of the segment. */
    method EnableBig(n: nat)
      requires FIRST_BLOCK <= n < NUMBER_OF_SEGMENTS && Enabled(n)
      modifies blocks, pool
      ensures Enabled(n + 1)
    {
      SegmentBlocksFit(n);
      var (begin, end) := SegmentBlocks(n);
      EnableBlocks(begin, end);
    }

    method EnableBlocks(begin: nat, end: nat)
      requires FIRST_BLOCK <= begin <= end <= blocks.Length && HasLayout(FIRST_BLOCK, begin, begin, begin)
      modifies blocks, pool
      ensures HasLayout(FIRST_BLOCK, end, end, end)
    {
      var b := begin;
      while b < end
        invariant begin <= b <= end
        invariant HasLayout(FIRST_BLOCK, b, b, b)
      {
        EnableBlock(b);
        b := b + 1;
      }
    }

    method EnableBlock(b: nat)
      requires FIRST_BLOCK <= b < blocks.Length && HasLayout(FIRST_BLOCK, b, b, b)
      modifies blocks, pool
      ensures HasLayout(FIRST_BLOCK, b + 1, b + 1, b + 1)
    {
      ghost var bs, live := blocks[..], pool.live;
      var a := pool.Alloc(BlockSize(b));
      LayoutExtended(bs, live, b, a);
      blocks[b] := At(a, 0);
      assert blocks[..] == bs[b := At(a, 0)];
    }

    /** segment_facade_impl::is_valid */
    method IsValid(seg: nat, ghost n: nat) returns (valid: bool)
      requires Enabled(n) && seg < NUMBER_OF_SEGMENTS
      ensures valid <==> seg < n
    {
      LayoutFits();
      NextFirstBlock(seg);
      if seg < n {
        FirstBlockGrows(seg + 1, n);
      } else {
        FirstBlockGrows(n, seg);
      }
      FirstBlockGrows(seg + 1, NUMBER_OF_SEGMENTS);
      var b := FirstBlockIn(seg);
      while b < FirstBlockIn(seg) + BlocksIn(seg)
        invariant FirstBlockIn(seg) <= b <= FirstBlockIn(seg + 1)
        invariant b > FirstBlockIn(seg) ==> seg < n
      {
        if blocks[b] == Null {
          return false;
        }
        b := b + 1;
      }
      valid := true;
    }

    /**
      calculate_mask, after a restart. With all 32 segments enabled the loop goes on to
      segment 32 and would read block pointers beyond the table; `ok` says it does not.
     */
    method CalculateMask(ghost n: nat) returns (m: nat, ok: bool)
      requires Enabled(n)
      ensures ok <==> n < NUMBER_OF_SEGMENTS
      ensures ok ==> m == Pow2(n) - 1
    {
      Powers();
      m := EMBEDDED_BUCKETS - 1;
      var seg := EMBEDDED_SEGMENTS;
      while seg < NUMBER_OF_SEGMENTS
        invariant 1 <= seg <= n && m == Pow2(seg) - 1
      {
        var valid := IsValid(seg, n);
        if !valid {
          return m, true;
        }
        m := m + Size(seg);
        seg := seg + 1;
      }
      ok := false;
    }

    /** enable_segment, called with the number of bits of the current mask: returns the new mask. */
    method EnableSegment(k: nat) returns (mask: nat)
      requires Enabled(k) && k < NUMBER_OF_SEGMENTS
      modifies blocks, pool
      ensures Enabled(NextTable(k)) && mask == Pow2(NextTable(k)) - 1
    {
      if k >= FIRST_BLOCK {
        var valid := IsValid(k, k);
        if !valid {
          EnableBig(k);
        }
        mask := 2 * Size(k) - 1;
      } else {
        EnableFirst();
        mask := SegmentSize(FIRST_BLOCK) - 1;
      }
    }

    /** segment_facade_impl::disable for a segment of several blocks. */
    method DisableBig(n: nat)
      requires FIRST_BLOCK <= n < NUMBER_OF_SEGMENTS
      requires HasLayout(FIRST_BLOCK, FirstBlockIn(n + 1), FirstBlockIn(n + 1), FirstBlockIn(n + 1))
      modifies blocks, pool
      ensures HasLayout(FIRST_BLOCK, FirstBlockIn(n), FirstBlockIn(n), FirstBlockIn(n))
    {
      SegmentBlocksFit(n);
      var (begin, end) := SegmentBlocks(n);
      DisableBlocks(begin, end);
    }

    method DisableBlocks(begin: nat, end: nat)
      requires FIRST_BLOCK <= begin <= end <= blocks.Length && HasLayout(FIRST_BLOCK, end, end, end)
      modifies blocks, pool
      ensures HasLayout(FIRST_BLOCK, begin, begin, begin)
    {
      Regroup(end, end, end, begin, begin, end);
      var b := begin;
      while b < end
        invariant begin <= b <= end
        invariant HasLayout(FIRST_BLOCK, begin, b, end)
      {
        DisableBlock(b, begin, end);
        b := b + 1;
      }
      Regroup(begin, end, end, begin, begin, begin);
    }

    /** The same blocks in use, described by other bounds. */
    lemma Regroup(lo: nat, mid: nat, hi: nat, lo': nat, mid': nat, hi': nat)
      requires HasLayout(FIRST_BLOCK, lo, mid, hi)
      requires FIRST_BLOCK <= lo' <= mid' <= hi' <= blocks.Length
      requires forall b :: InUse(b, lo', mid', hi') <==> InUse(b, lo, mid, hi)
      requires lo' + hi' - mid' == lo + hi - mid
      ensures HasLayout(FIRST_BLOCK, lo', mid', hi')
    {
      SameLayout(blocks[..], pool.live, lo, mid, hi, lo', mid', hi');
    }

    method DisableBlock(b: nat, ghost first: nat, ghost end: nat)
      requires HasLayout(FIRST_BLOCK, first, b, end) && b < end
      modifies blocks, pool
      ensures HasLayout(FIRST_BLOCK, first, b + 1, end)
    {
      ghost var bs := blocks[..];
      LayoutReduced(bs, pool.live, first, b, end);
      if blocks[b] != Null {
        pool.Free(blocks[b].arr, BlockSize(b));
        blocks[b] := Null;
        assert blocks[..] == bs[b := Null];
      }
    }

    /** Segments up to s are still enabled. */
    ghost predicate Remaining(s: nat)
      reads this, blocks, pool
    {
      var remaining :=
        if s < FIRST_BLOCK then HasLayout(s + 1, FIRST_BLOCK, FIRST_BLOCK, FIRST_BLOCK)
        else HasLayout(FIRST_BLOCK, FirstBlockIn(s + 1), FirstBlockIn(s + 1), FirstBlockIn(s + 1));
      remaining
    }

    /** segment_facade_impl::disable: of segments 1 to 7, only the first frees their array. */
    method Disable(s: nat)
      requires 1 <= s < NUMBER_OF_SEGMENTS && Remaining(s)
      modifies blocks, pool
      ensures Remaining(s - 1)
    {
      if s < FIRST_BLOCK {
        if s == EMBEDDED_SEGMENTS {
          pool.Free(blocks[s].arr, SegmentSize(FIRST_BLOCK) - EMBEDDED_BUCKETS);
        }
        blocks[s] := Null;
      } else {
        DisableBig(s);
      }
    }

    /**
      The loop of clear over the segments, from the last one down. It frees every array
      that growing has allocated, each once and with the length it was allocated with, and
      leaves the embedded segment.
     */
    method Clear(m: nat, ghost n: nat)
      requires Enabled(n) && m == Pow2(n) - 1
      modifies blocks, pool
      ensures Enabled(1) && pool.live == map[]
    {
      AllRemain(m, n);
      var s := SegmentOf(m);
      while s > 0
        invariant 0 <= s < NUMBER_OF_SEGMENTS && Remaining(s)
      {
        Disable(s);
        s := s - 1;
      }
      NoneRemains();
    }

    lemma AllRemain(m: nat, n: nat)
      requires Enabled(n) && m == Pow2(n) - 1
      ensures SegmentOf(m) < NUMBER_OF_SEGMENTS && Remaining(SegmentOf(m))
    {
      LastSegment(n);
    }

    lemma NoneRemains()
      requires Remaining(0)
      ensures Enabled(1) && pool.live == map[]
    {
      assert |pool.live| == 0;
    }
  }

  /** A new table grown as far as it goes: after that calculate_mask leaves the table. */
  method GrowToLimit() returns (table: SegmentTable, mask: nat, ok: bool)
    ensures fresh(table) && fresh(table.blocks) && fresh(table.pool)
    ensures table.Enabled(NUMBER_OF_SEGMENTS) && mask == Pow2(NUMBER_OF_SEGMENTS) - 1 && !ok
  {
    Powers();
    table := new SegmentTable();
    mask := EMBEDDED_BUCKETS - 1;
    var k := EMBEDDED_SEGMENTS;
    while k < NUMBER_OF_SEGMENTS
      invariant table.Enabled(k) && mask == Pow2(k) - 1 && fresh(table) && fresh(table.blocks) && fresh(table.pool)
    {
      mask := table.EnableSegment(k);
      k := NextTable(k);
    }
    var found: nat;
    found, ok := table.CalculateMask(k);
  }

  /** The mask's topmost index lies in the last enabled segment. */
  lemma LastSegment(n: nat)
    requires Level(n)
    ensures SegmentOf(Pow2(n) - 1) == n - 1
  {
    Powers();
    Pow2Even(n);
    Pow2Grows(n - 1, n);
    Log2Unique(Pow2(n) - 1, n - 1);
  }

  lemma SameLayout(bs: seq<Ptr>, live: map<nat, nat>, lo: nat, mid: nat, hi: nat, lo': nat, mid': nat, hi': nat)
    requires Layout(bs, live, FIRST_BLOCK, lo, mid, hi)
    requires FIRST_BLOCK <= lo' <= mid' <= hi' <= |bs|
    requires forall b :: InUse(b, lo', mid', hi') <==> InUse(b, lo, mid, hi)
    requires lo' + hi' - mid' == lo + hi - mid
    ensures Layout(bs, live, FIRST_BLOCK, lo', mid', hi')
  {
  }

  // ---------- where a bucket lies in memory ----------

  /** The layout of a table with n segments enabled. */
  ghost predicate LevelLayout(bs: seq<Ptr>, live: map<nat, nat>, n: nat)
  {
    8 <= n <= NUMBER_OF_SEGMENTS && Layout(bs, live, FIRST_BLOCK, FirstBlockIn(n), FirstBlockIn(n), FirstBlockIn(n))
  }

  /** &segment[h]: the array and the position in it. */
  function Address(bs: seq<Ptr>, h: nat): Ptr
    requires SegmentBase(SegmentOf(h)) <= h && GetBucket(h).block < |bs|
  {
    var c := GetBucket(h);
    if bs[c.block].At? then At(bs[c.block].arr, bs[c.block].off + c.offset) else Null
  }

  /** Buckets 2 to 255 are the positions 0 to 253 of the array that segments 1 to 7 share. */
  lemma SharedBucket(bs: seq<Ptr>, live: map<nat, nat>, n: nat, h: nat)
    requires LevelLayout(bs, live, n) && 2 <= h < 256
    ensures SegmentBase(SegmentOf(h)) <= h && GetBucket(h).block < FIRST_BLOCK
    ensures Address(bs, h) == At(bs[1].arr, h - 2) && bs[1].arr in live && live[bs[1].arr] == 254
  {
    LayoutFits();
    Powers();
    CellOfIndex(h);
    SmallBucket(h);
    SegmentOfBounds(h);
    if SegmentOf(h) >= FIRST_BLOCK {
      Pow2Grows(FIRST_BLOCK, SegmentOf(h));
    }
  }

  /** Every later bucket lies in the array of its own block. */
  lemma BigAddress(bs: seq<Ptr>, live: map<nat, nat>, n: nat, h: nat)
    requires LevelLayout(bs, live, n) && 256 <= h < Pow2(n)
    ensures h < INDICES && SegmentBase(SegmentOf(h)) <= h
    ensures var c := GetBucket(h);
      && FIRST_BLOCK <= c.block < FirstBlockIn(n) <= |bs|
      && bs[c.block].At? && Address(bs, h) == At(bs[c.block].arr, c.offset)
      && bs[c.block].arr in live && c.offset < live[bs[c.block].arr]
  {
    LayoutFits();
    Powers();
    Pow2Grows(n, NUMBER_OF_SEGMENTS);
    CellOfIndex(h);
    BigBlock(n, h);
    assert InUse(GetBucket(h).block, FirstBlockIn(n), FirstBlockIn(n), FirstBlockIn(n));
  }

  lemma BigBlock(n: nat, h: nat)
    requires 8 <= n <= NUMBER_OF_SEGMENTS && 256 <= h < Pow2(n) && h < INDICES
    ensures SegmentBase(SegmentOf(h)) <= h && FIRST_BLOCK <= GetBucket(h).block < FirstBlockIn(n)
  {
    Powers();
    SegmentOfBounds(h);
    var s := SegmentOf(h);
    if s < FIRST_BLOCK {
      Pow2Grows(s + 1, FIRST_BLOCK);
    }
    if s >= n {
      Pow2Grows(n, s);
    }
    FirstBlockGrows(s + 1, n);
    NextFirstBlock(s);
    if h < BIG_BLOCK_SIZE {
      SmallBucket(h);
      SmallSegment(h);
    } else {
      BigBucket(h);
      BigBlockOfSegment(h);
    }
  }

  lemma BigBlockOfSegment(h: nat)
    requires BIG_BLOCK_SIZE <= h < INDICES
    ensures 26 + h / BIG_BLOCK_SIZE < FirstBlockIn(SegmentOf(h) + 1)
  {
    Powers();
    SegmentOfBounds(h);
    var s := SegmentOf(h);
    if s < FIRST_BIG_BLOCK {
      Pow2Grows(s + 1, FIRST_BIG_BLOCK);
    }
    Pow2Sum(FIRST_BIG_BLOCK, s + 1 - FIRST_BIG_BLOCK);
    assert h < BIG_BLOCK_SIZE * Pow2(s + 1 - FIRST_BIG_BLOCK);
  }

  /** In a table with n segments no two allocated buckets share a position in memory. */
  lemma AddressesDiffer(bs: seq<Ptr>, live: map<nat, nat>, n: nat, g: nat, h: nat)
    requires LevelLayout(bs, live, n) && 2 <= g < h < Pow2(n)
    ensures h < INDICES && SegmentBase(SegmentOf(g)) <= g && SegmentBase(SegmentOf(h)) <= h
    ensures GetBucket(g).block < |bs| && GetBucket(h).block < |bs|
    ensures Address(bs, g) != Address(bs, h)
  {
    if g < 256 {
      SharedBucket(bs, live, n, g);
    } else {
      BigAddress(bs, live, n, g);
    }
    if h < 256 {
      SharedBucket(bs, live, n, h);
      Pow2Grows(n, NUMBER_OF_SEGMENTS);
      Powers();
    } else {
      BigAddress(bs, live, n, h);
      CellsDiffer(g, h);
      var lo := FirstBlockIn(n);
      assert InUse(GetBucket(h).block, lo, lo, lo);
      assert g >= 256 ==> InUse(GetBucket(g).block, lo, lo, lo);
    }
  }
}
