/** Python's slicing of strings, including the clamping of out-of-range
    bounds and the counting from the end for negative bounds. */
module Slices {

  function Min(a: int, b: int): int { if a <= b then a else b }

  function Max(a: int, b: int): int { if a <= b then b else a }

  /** The position a slice bound `i` denotes in a sequence of length `n`. */
  function Bound(i: int, n: nat): (b: nat)
    ensures b <= n
    ensures 0 <= i ==> b == Min(i, n)
    ensures i < 0 ==> b == Max(0, n + i)
  {
    if i < 0 then (if n + i < 0 then 0 else n + i)
    else if i > n then n
    else i
  }

  /** `s[i:]` */
  function Drop<T>(s: seq<T>, i: int): seq<T>
  {
    s[Bound(i, |s|)..]
  }

  /** `s[:i]` */
  function Take<T>(s: seq<T>, i: int): seq<T>
  {
    s[..Bound(i, |s|)]
  }

  /** `s[lo:hi]` for a non-negative lower bound. */
  function Slice<T>(s: seq<T>, lo: nat, hi: int): (r: seq<T>)
    ensures |r| == Max(0, Bound(hi, |s|) - Min(lo, |s|))
  {
    var a, b := Bound(lo, |s|), Bound(hi, |s|);
    if a <= b then s[a..b] else []
  }

  /** The k-th element of `s[lo:hi]` is the (lo + k)-th of `s`. */
  lemma SliceAt<T>(s: seq<T>, lo: nat, hi: int, k: nat)
    requires k < |Slice(s, lo, hi)|
    ensures lo + k < |s| && Slice(s, lo, hi)[k] == s[lo + k]
  {
  }

  /** `s[::-1]` */
  function Reverse<T>(s: seq<T>): (r: seq<T>)
    ensures |r| == |s|
  {
    seq(|s|, k requires 0 <= k < |s| => s[|s| - 1 - k])
  }

  /** The k-th element of `s[::-1]` is the k-th from the end of `s`. */
  lemma ReverseAt<T>(s: seq<T>, k: nat)
    requires k < |s|
    ensures Reverse(s)[k] == s[|s| - 1 - k]
  {
  }

  /** `s[::-1][i:][::-1]` keeps a prefix of `s`: dropping from the front of
      the reversed sequence drops from the back of `s`. */
  lemma ReverseDropReverse<T>(s: seq<T>, i: int)
    ensures Reverse(Drop(Reverse(s), i)) == s[..|s| - Bound(i, |s|)]
  {
    var d := Drop(Reverse(s), i);
    assert |d| == |s| - Bound(i, |s|);
    forall k | 0 <= k < |d|
      ensures Reverse(d)[k] == s[k]
    {
      ReverseAt(d, k);
      ReverseAt(s, Bound(i, |s|) + |d| - 1 - k);
    }
  }

  /** `a` is a trailing part of `b`. */
  predicate IsSuffix<T(==)>(a: seq<T>, b: seq<T>)
  {
    |a| <= |b| && b[|b| - |a|..] == a
  }
}
