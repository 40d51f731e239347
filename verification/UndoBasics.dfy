/** What the persistent vector and string share. */
module UndoBasics {
  import opened NextPow

  datatype Outcome = Pass | Fail {
    predicate IsFailure() { Fail? }
    function PropagateFailure(): Outcome { this }
  }

  function Min(a: nat, b: nat): nat { if a <= b then a else b }

  /** A size that memory can hold. */
  predicate Possible(n: nat)
  {
    n <= 0x8000_0000_0000_0000    // 2^63
  }

  /** The capacity for n elements after some were added. */
  function Grown(capacity: nat, n: nat): nat
  {
    if n <= capacity then capacity else Ceiling(n)
  }

  /** get_recommended_capacity */
  method RecommendedCapacity(n: nat) returns (c: nat)
    requires Possible(n)
    ensures c == Ceiling(n) && n <= c && c > 0
  {
    Pow2Of63();
    NextPow2IsCeiling(n);
    ghost var k := CeilingSmallest(n);
    c := NextPow2(n);
  }

  /** r is c cut or padded with blanks to n elements. */
  ghost predicate Fitted<T>(c: seq<T>, n: nat, blank: T, r: seq<T>)
  {
    |r| == n && forall i :: 0 <= i < n ==> r[i] == if i < |c| then c[i] else blank
  }

  lemma ResizedFits<T>(c: seq<T>, n: nat, blank: T)
    ensures Fitted(c, n, blank, Resized(c, n, blank))
  {
  }

  function Resized<T>(c: seq<T>, n: nat, blank: T): seq<T>
  {
    if n <= |c| then c[..n] else c + seq(n - |c|, _ => blank)
  }

  /** c with a run of cells overwritten. */
  function Overwritten<T>(c: seq<T>, at: nat, items: seq<T>): (r: seq<T>)
    requires at + |items| <= |c|
    ensures |r| == |c|
  {
    c[..at] + items + c[at + |items|..]
  }

  lemma OverwrittenParts<T>(c: seq<T>, at: nat, items: seq<T>)
    requires at + |items| <= |c|
    ensures var r := Overwritten(c, at, items);
            r[..at] == c[..at] && r[at..at + |items|] == items && r[at + |items|..] == c[at + |items|..]
    ensures forall k :: 0 <= k <= at ==> Overwritten(c, at, items)[..k] == c[..k]
  {
  }

  lemma OverwrittenTwice<T>(c: seq<T>, at: nat, items: seq<T>, k: nat)
    requires at + |items| <= |c| && k <= |items|
    ensures Overwritten(Overwritten(c, at, items[..k]), at + k, items[k..]) == Overwritten(c, at, items)
  {
    assert items[..k] + items[k..] == items;
  }

  lemma OverwrittenStep<T>(c: seq<T>, at: nat, items: seq<T>, k: nat)
    requires at + |items| <= |c| && k < |items|
    ensures Overwritten(c, at, items[..k])[at + k := items[k]] == Overwritten(c, at, items[..k + 1])
  {
  }

}
