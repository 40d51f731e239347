/**
  The arithmetic behind the bucket index of a hash.

  A mask 2^k - 1 is represented by its number of bits k, so `h & mask` is `Masked(h, k)`.
  A bucket index is a run of low bits of some hash; all the buckets a hash can ever be
  stored in, one per distinct `h & mask`, form its path, ordered by index.
 */
module HashPath {

  function Pow2(k: nat): (p: nat)
    ensures p >= 1
  {
    if k == 0 then 1 else 2 * Pow2(k - 1)
  }

  /** 64-bit numbers are counted modulo this. */
  const WORD: nat := 0x1_0000_0000_0000_0000

  /** The first growth enables segments 1 to 7 together, every later one a single segment. */
  function NextTable(level: nat): nat
  {
    if level == 1 then 8 else level + 1
  }

  /** Position of the highest set bit. */
  function Log2(x: nat): nat
    requires x > 0
  {
    if x < 2 then 0 else 1 + Log2(x / 2)
  }

  /** h & (2^k - 1) */
  function Masked(h: nat, k: nat): nat
  {
    if k == 0 then 0 else h % 2 + 2 * Masked(h / 2, k - 1)
  }

  /** Whether h has bit number j set. */
  predicate Bit(h: nat, j: nat)
  {
    if j == 0 then h % 2 == 1 else Bit(h / 2, j - 1)
  }

  /** The bucket that bucket i takes its nodes from: i without its topmost bit. */
  function Parent(i: nat): (p: nat)
    requires i >= 2
    ensures p < i
  {
    if i < 4 then i % 2 else i % 2 + 2 * Parent(i / 2)
  }

  /** Whether bucket i is one of the buckets that hash c is mapped to by some mask. */
  predicate OnPath(i: nat, c: nat)
  {
    if i < 2 then c % 2 == i else c % 2 == i % 2 && OnPath(i / 2, c / 2)
  }

  lemma {:induction false} Pow2Grows(j: nat, k: nat)
    requires j <= k
    ensures Pow2(j) <= Pow2(k)
    decreases k
  {
    if j < k {
      Pow2Grows(j, k - 1);
    }
  }

  /** h >> k */
  function Shifted(h: nat, k: nat): nat
  {
    if k == 0 then h else Shifted(h / 2, k - 1)
  }

  /** Masked(h, k) is the remainder, Shifted(h, k) the quotient of h by 2^k. */
  lemma {:induction false} MaskedIsRemainder(h: nat, k: nat)
    ensures h == Pow2(k) * Shifted(h, k) + Masked(h, k) && Masked(h, k) < Pow2(k)
  {
    if k > 0 {
      MaskedIsRemainder(h / 2, k - 1);
      assert 2 * (Pow2(k - 1) * Shifted(h, k)) == Pow2(k) * Shifted(h, k);
    }
  }

  lemma {:induction false} ParentStripsTopBit(i: nat)
    requires i >= 2
    ensures Parent(i) == i - Pow2(Log2(i)) == Masked(i, Log2(i))
  {
    if i >= 4 {
      ParentStripsTopBit(i / 2);
    }
  }

  /** `h & mask` lies on the path of h. */
  lemma {:induction false} MaskedOnPath(h: nat, k: nat)
    requires k >= 1
    ensures OnPath(Masked(h, k), h)
  {
    if k > 1 {
      MaskedOnPath(h / 2, k - 1);
      var i := Masked(h / 2, k - 1);
      if i == 0 {
        assert Masked(h, k) == h % 2;
      } else {
        assert Masked(h, k) / 2 == i;
      }
    }
  }

  /** ... and is the deepest bucket on that path within the mask. */
  lemma {:induction false} MaskedDeepest(i: nat, h: nat, k: nat)
    requires k >= 1 && OnPath(i, h) && i < Pow2(k)
    ensures i <= Masked(h, k)
  {
    if i >= 2 && k > 1 {
      MaskedDeepest(i / 2, h / 2, k - 1);
    }
  }

  lemma {:induction false} ParentOnPath(i: nat, c: nat)
    requires i >= 2 && OnPath(i, c)
    ensures OnPath(Parent(i), c)
  {
    if i >= 4 {
      ParentOnPath(i / 2, c / 2);
      var p := Parent(i / 2);
      if p == 0 {
        assert Parent(i) == i % 2;
      } else {
        assert Parent(i) / 2 == p;
      }
    }
  }

  /** No bucket of the path lies strictly between a bucket and its parent. */
  lemma {:induction false} ParentIsNext(i: nat, j: nat, c: nat)
    requires j >= 2 && OnPath(i, c) && OnPath(j, c) && i < j
    ensures i <= Parent(j)
  {
    if j >= 4 && i >= 2 {
      ParentIsNext(i / 2, j / 2, c / 2);
    }
  }

  lemma {:induction false} MaskedMonotone(h: nat, j: nat, k: nat)
    requires j <= k
    ensures Masked(h, j) <= Masked(h, k)
  {
    if j > 0 {
      MaskedMonotone(h / 2, j - 1, k - 1);
    }
  }

  /** One more mask bit changes the bucket exactly when the hash has that bit. */
  lemma {:induction false} MaskedStep(h: nat, k: nat)
    ensures Masked(h, k + 1) == Masked(h, k) + (if Bit(h, k) then Pow2(k) else 0)
  {
    if k > 0 {
      MaskedStep(h / 2, k - 1);
    }
  }

  lemma {:induction false} ParentOfMasked(h: nat, k: nat)
    requires k >= 1 && Bit(h, k)
    ensures Masked(h, k + 1) >= 2 && Parent(Masked(h, k + 1)) == Masked(h, k)
  {
    if k > 1 {
      ParentOfMasked(h / 2, k - 1);
      assert Masked(h, k + 1) / 2 == Masked(h / 2, k) >= 2;
    } else {
      assert Masked(h, 2) == h % 2 + 2 * (h / 2 % 2 + 2 * Masked(h / 2 / 2, 0));
    }
  }

  /**
    The loop of check_rehashing_collision: the first mask after the old one under which
    the hash moves to another bucket. That bucket's parent is the bucket under the old mask.
   */
  method NextMask(h: nat, m0: nat, m1: nat) returns (k: nat)
    requires 1 <= m0 < m1 && Masked(h, m0) != Masked(h, m1)
    ensures m0 < k <= m1
    ensures Masked(h, k) >= 2 && Parent(Masked(h, k)) == Masked(h, m0)
    ensures k == NextLevel(h, m0, m1)
  {
    k := m0;
    while !Bit(h, k)
      invariant m0 <= k < m1
      invariant Masked(h, k) == Masked(h, m0)
      invariant NextLevel(h, k, m1) == NextLevel(h, m0, m1)
      decreases m1 - k
    {
      MaskedStep(h, k);
      k := k + 1;
    }
    ParentOfMasked(h, k);
    k := k + 1;
  }

  /** The least k > m0 such that h & (2^k - 1) differs from h & (2^m0 - 1). */
  function NextLevel(h: nat, m0: nat, m1: nat): nat
    requires m0 < m1
    decreases m1 - m0
  {
    if Bit(h, m0) || m0 + 1 == m1 then m0 + 1 else NextLevel(h, m0 + 1, m1)
  }

  lemma {:induction false} NextLevelParent(h: nat, m0: nat, m1: nat)
    requires 1 <= m0 < m1 && Masked(h, m0) != Masked(h, m1)
    ensures m0 < NextLevel(h, m0, m1) <= m1
    ensures var j := Masked(h, NextLevel(h, m0, m1)); j >= 2 && Parent(j) == Masked(h, m0)
    decreases m1 - m0
  {
    MaskedStep(h, m0);
    if Bit(h, m0) {
      ParentOfMasked(h, m0);
    } else {
      NextLevelParent(h, m0 + 1, m1);
    }
  }

  /** That bucket lies beyond all buckets of the old mask. */
  lemma {:induction false} NextLevelBig(h: nat, m0: nat, m1: nat)
    requires 1 <= m0 < m1 && Masked(h, m0) != Masked(h, m1)
    ensures Masked(h, NextLevel(h, m0, m1)) >= Pow2(m0)
    decreases m1 - m0
  {
    MaskedStep(h, m0);
    if !Bit(h, m0) {
      NextLevelBig(h, m0 + 1, m1);
    }
  }
}
