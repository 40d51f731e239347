/** The rounding up of capacities to a power of two by smearing bits, detail::next_pow_2. */
module NextPow {

  import opened HashPath

  /** a | b */
  function Or(a: nat, b: nat): nat
  {
    if a == 0 && b == 0 then 0
    else 2 * Or(a / 2, b / 2) + (if a % 2 == 1 || b % 2 == 1 then 1 else 0)
  }

  function Spread(v: nat, shift: nat): nat
  {
    Or(v, Shifted(v, shift))
  }

  function Smeared(v: nat): nat
  {
    var v1 := Spread(v, 1);
    var v2 := Spread(v1, 2);
    var v3 := Spread(v2, 4);
    var v4 := Spread(v3, 8);
    var v5 := Spread(v4, 16);
    Spread(v5, 32)
  }

  /** next_pow_2 on n-bit numbers: v-- wraps to all ones at 0, and ++v to 0. */
  function RoundUp(v: nat, n: nat): nat
    requires v < Pow2(n)
  {
    var r := Smeared(if v == 0 then Pow2(n) - 1 else v - 1) + 1;
    if r == Pow2(n) then 1 else r
  }

  function NextPow2(v: nat): nat
    requires v < Pow2(64)
  {
    RoundUp(v, 64)
  }

  // ---------- bits ----------

  lemma {:induction false} ShiftedOr(a: nat, b: nat, n: nat)
    ensures Shifted(Or(a, b), n) == Or(Shifted(a, n), Shifted(b, n))
    decreases n
  {
    if n > 0 {
      ShiftedOr(a / 2, b / 2, n - 1);
      assert Or(a, b) / 2 == Or(a / 2, b / 2);
    }
  }

  lemma {:induction false} ShiftedTwice(v: nat, m: nat, n: nat)
    ensures Shifted(Shifted(v, m), n) == Shifted(v, m + n)
    decreases m
  {
    if m > 0 {
      ShiftedTwice(v / 2, m - 1, n);
    }
  }

  lemma {:induction false} Pow2Add(m: nat, n: nat)
    ensures Pow2(m + n) == Pow2(m) * Pow2(n)
    decreases m
  {
    if m > 0 {
      Pow2Add(m - 1, n);
    }
  }

  lemma {:induction false} ShiftedZero(v: nat, n: nat)
    ensures Shifted(v, n) == 0 <==> v < Pow2(n)
    decreases n
  {
    if n > 0 {
      ShiftedZero(v / 2, n - 1);
    }
  }

  lemma Doubled(p: int, q: int, y: int)
    requires q == 2 * p
    ensures 2 * (p * y + p - 1) + 1 == q * y + q - 1
  {
  }

  lemma Multiplied(p: int, y: int, q: int, r: int)
    requires y == q - 1 && r == p * y + p - 1
    ensures r == p * q - 1
  {
  }

  /** A number with its n low bits set by an or. */
  lemma {:induction false} OrOnes(x: nat, n: nat)
    ensures Or(x, Pow2(n) - 1) == Pow2(n) * Shifted(x, n) + Pow2(n) - 1
    decreases n
  {
    if n == 0 {
      OrZero(x);
    } else {
      OrOnes(x / 2, n - 1);
      assert (Pow2(n) - 1) / 2 == Pow2(n - 1) - 1;
      assert (Pow2(n) - 1) % 2 == 1;
      Doubled(Pow2(n - 1), Pow2(n), Shifted(x, n));
    }
  }

  lemma {:induction false} OrZero(x: nat)
    ensures Or(x, 0) == x
  {
    if x > 0 {
      OrZero(x / 2);
    }
  }

  /** v has n bits, the top m of which (or all) are ones. */
  predicate Top(v: nat, n: nat, m: nat)
  {
    Shifted(v, n) == 0 && (if m <= n then Shifted(v, n - m) == Pow2(m) - 1 else v == Pow2(n) - 1)
  }

  /** One step of the smearing doubles the run of ones. */
  lemma SmearStep(v: nat, n: nat, m: nat)
    requires Top(v, n, m)
    ensures Top(Spread(v, m), n, 2 * m)
  {
    SmearBits(v, n, m);
    if 2 * m <= n {
      SmearHigh(v, n, m);
    } else if m <= n {
      SmearEnd(v, n, m);
    } else {
      ShiftedOut(n, m);
      OrZero(v);
    }
  }

  lemma SmearBits(v: nat, n: nat, m: nat)
    requires Shifted(v, n) == 0
    ensures Shifted(Spread(v, m), n) == 0
  {
    ShiftedOr(v, Shifted(v, m), n);
    ShiftedTwice(v, m, n);
    ShiftedTwice(v, n, m);
    ShiftedZero(0, m);
    Pow2Grows(0, m);
  }

  lemma SmearHigh(v: nat, n: nat, m: nat)
    requires 2 * m <= n && Shifted(v, n - m) == Pow2(m) - 1
    ensures Shifted(Spread(v, m), n - 2 * m) == Pow2(2 * m) - 1
  {
    var k := n - 2 * m;
    var x := Shifted(v, k);
    ShiftedOr(v, Shifted(v, m), k);
    ShiftedTwice(v, m, k);
    ShiftedTwice(v, k, m);
    assert Shifted(x, m) == Pow2(m) - 1;
    assert Shifted(Spread(v, m), k) == Or(x, Shifted(x, m));
    OrOnes(x, m);
    Multiplied(Pow2(m), Pow2(m) - 1, Pow2(m), Or(x, Shifted(x, m)));
    Pow2Add(m, m);
    assert m + m == 2 * m;
  }

  lemma {:induction false} ShiftedOut(n: nat, m: nat)
    requires n <= m
    ensures Shifted(Pow2(n) - 1, m) == 0
  {
    ShiftedZero(Pow2(n) - 1, m);
    Pow2Grows(n, m);
  }

  /** v has n bits and its top m ones reach below the middle. */
  lemma SmearEnd(v: nat, n: nat, m: nat)
    requires m <= n < 2 * m && Shifted(v, n) == 0 && Shifted(v, n - m) == Pow2(m) - 1
    ensures Spread(v, m) == Pow2(n) - 1
  {
    var k := n - m;
    ShiftedTwice(v, k, m - k);
    OnesShifted(m, m - k);
    assert Shifted(v, m) == Pow2(k) - 1;
    OrOnes(v, k);
    Pow2Add(k, m);
    Multiplied(Pow2(k), Pow2(m) - 1, Pow2(m), Spread(v, m));
  }

  lemma {:induction false} OnesShifted(n: nat, m: nat)
    requires m <= n
    ensures Shifted(Pow2(n) - 1, m) == Pow2(n - m) - 1
    decreases m
  {
    if m > 0 {
      OnesShifted(n - 1, m - 1);
      assert (Pow2(n) - 1) / 2 == Pow2(n - 1) - 1;
    }
  }

  /** The number of bits of v. */
  function Bits(v: nat): nat
  {
    if v == 0 then 0 else 1 + Bits(v / 2)
  }

  lemma {:induction false} BitsTop(v: nat)
    requires v > 0
    ensures Top(v, Bits(v), 1) && Pow2(Bits(v) - 1) <= v < Pow2(Bits(v))
  {
    if v > 1 {
      BitsTop(v / 2);
    }
  }

  lemma SmearedOnes(v: nat, n: nat)
    requires n <= 64 && Top(v, n, 1)
    ensures Smeared(v) == Pow2(n) - 1
  {
    var v2 := SmearTwice(v, n, 1);
    var v4 := SmearTwice(v2, n, 4);
    var v6 := SmearTwice(v4, n, 16);
    TopOnes(v6, n, 64);
  }

  lemma SmearTwice(v: nat, n: nat, m: nat) returns (w: nat)
    requires Top(v, n, m)
    ensures w == Spread(Spread(v, m), 2 * m) && Top(w, n, 4 * m)
  {
    w := Spread(Spread(v, m), 2 * m);
    SmearStep(v, n, m);
    SmearStep(Spread(v, m), n, 2 * m);
  }

  lemma TopOnes(v: nat, n: nat, m: nat)
    requires n <= m && Top(v, n, m)
    ensures v == Pow2(n) - 1
  {
    assert m == n ==> Shifted(v, n - m) == v;
  }

  /** The smallest power of two that is not below n. */
  function Ceiling(n: nat): nat
  {
    if n <= 1 then 1 else 2 * Ceiling((n + 1) / 2)
  }

  lemma {:induction false} CeilingSmallest(n: nat) returns (k: nat)
    ensures Ceiling(n) == Pow2(k) && n <= Pow2(k)
    ensures forall j: nat :: n <= Pow2(j) ==> Pow2(k) <= Pow2(j)
  {
    k := CeilingTight(n);
    Least(n, k);
  }

  lemma {:induction false} CeilingTight(n: nat) returns (k: nat)
    ensures Ceiling(n) == Pow2(k) && n <= Pow2(k)
    ensures k == 0 || Pow2(k - 1) < n
  {
    if n <= 1 {
      k := 0;
    } else {
      k := CeilingTight((n + 1) / 2);
      k := k + 1;
    }
  }

  /** The bits of next_pow_2 compute it. */
  lemma NextPow2IsCeiling(v: nat)
    requires v <= Pow2(63)
    ensures v < Pow2(64) && NextPow2(v) == Ceiling(v)
  {
    var k := NextPow2Smallest(v);
    var c := CeilingSmallest(v);
    assert Pow2(k) <= Pow2(c) <= Pow2(k);
  }

  /** next_pow_2: the smallest power of two that is not below v. */
  lemma NextPow2Smallest(v: nat) returns (k: nat)
    requires v <= Pow2(63)
    ensures v < Pow2(64) && NextPow2(v) == Pow2(k) && v <= Pow2(k) && k <= 63
    ensures forall j: nat :: v <= Pow2(j) ==> Pow2(k) <= Pow2(j)
  {
    k := RoundUpSmallest(v, 64);
  }

  lemma RoundUpSmallest(v: nat, n: nat) returns (k: nat)
    requires 0 < n <= 64 && v <= Pow2(n - 1)
    ensures v < Pow2(n) && RoundUp(v, n) == Pow2(k) && v <= Pow2(k) && k < n
    ensures forall j: nat :: v <= Pow2(j) ==> Pow2(k) <= Pow2(j)
  {
    if v == 0 {
      k := 0;
      AllOnes(n);
      SmearedOnes(Pow2(n) - 1, n);
    } else {
      k := RoundUpPositive(v, n);
    }
    Least(v, k);
  }

  lemma RoundUpPositive(v: nat, n: nat) returns (k: nat)
    requires 0 < n <= 64 && 0 < v <= Pow2(n - 1)
    ensures v < Pow2(n) && RoundUp(v, n) == Pow2(k) && v <= Pow2(k) && k < n
    ensures k == 0 || Pow2(k - 1) < v
  {
    k := Bits(v - 1);
    UpperBits(v - 1, n - 1);
    SmearedOnes(v - 1, k);
    Pow2Grows(k, n - 1);
  }

  lemma Least(v: nat, k: nat)
    requires k == 0 || Pow2(k - 1) < v
    ensures forall j: nat :: v <= Pow2(j) ==> Pow2(k) <= Pow2(j)
  {
    forall j: nat | v <= Pow2(j) ensures Pow2(k) <= Pow2(j) {
      if j < k {
        Pow2Grows(j, k - 1);
      } else {
        Pow2Grows(k, j);
      }
    }
  }

  lemma UpperBits(u: nat, top: nat)
    requires u < Pow2(top)
    ensures Top(u, Bits(u), 1) && u < Pow2(Bits(u)) && Bits(u) <= top
    ensures Bits(u) > 0 ==> Pow2(Bits(u) - 1) <= u
  {
    if u > 0 {
      BitsTop(u);
      if Bits(u) > top {
        Pow2Grows(top, Bits(u) - 1);
      }
    }
  }

  lemma AllOnes(n: nat)
    requires n > 0
    ensures Top(Pow2(n) - 1, n, 1)
  {
    ShiftedOut(n, n);
    OnesShifted(n, n - 1);
  }

  /** Beyond 2^63 the smearing fills the word, ++v wraps to 0 and the result is 1. */
  lemma NextPow2Wraps(v: nat)
    requires Pow2(63) < v < Pow2(64)
    ensures NextPow2(v) == 1
  {
    RoundUpWraps(v, 64);
  }

  lemma RoundUpWraps(v: nat, n: nat)
    requires 0 < n <= 64 && Pow2(n - 1) < v < Pow2(n)
    ensures RoundUp(v, n) == 1
  {
    Pow2Grows(0, n - 1);
    BitsTop(v - 1);
    var k := Bits(v - 1);
    if k < n {
      Pow2Grows(k, n - 1);
    } else if k > n {
      Pow2Grows(n, k - 1);
    }
    SmearedOnes(v - 1, n);
  }

  /** next_pow_2 rounds up exactly up to 2^63. */
  lemma NextPow2Exact(v: nat)
    requires v < Pow2(64)
    ensures NextPow2(v) >= v <==> v <= Pow2(63)
    ensures NextPow2(v) == if v <= Pow2(63) then Ceiling(v) else 1
  {
    if v <= Pow2(63) {
      NextPow2IsCeiling(v);
      var k := CeilingSmallest(v);
    } else {
      NextPow2Wraps(v);
      Pow2Grows(0, 63);
    }
  }

  lemma Pow2Of63()
    ensures Pow2(63) == 0x8000_0000_0000_0000
  {
    assert Pow2(7) == 128;
    Pow2Add(7, 7);
    Pow2Add(14, 14);
    Pow2Add(28, 28);
    Pow2Add(56, 7);
  }
}
