/** Order-preserving sequence selection, the two row-selection primitives the
    dashboard uses on its frames: boolean-mask filtering and `tail(n)`. */
module Seqs {

  /** Keeps, in order, the elements of `s` that satisfy `p` (a boolean mask
      applied to a frame). */
  function Filter<T(!new)>(s: seq<T>, p: T -> bool): (r: seq<T>)
    ensures |r| <= |s|
    ensures forall i :: 0 <= i < |r| ==> p(r[i]) && r[i] in s
  {
    if s == [] then []
    else
      var rest := Filter(s[1..], p);
      if p(s[0]) then [s[0]] + rest else rest
  }

  /** Filtering keeps every element passing `p` with its full multiplicity
      and drops every other element. */
  lemma {:induction false} FilterCount<T(!new)>(s: seq<T>, p: T -> bool)
    ensures forall x :: multiset(Filter(s, p))[x] == if p(x) then multiset(s)[x] else 0
  {
    if s != [] {
      FilterCount(s[1..], p);
      assert s == [s[0]] + s[1..];
    }
  }

  /** Filtering distributes over concatenation: selection keeps the relative
      order of the rows it keeps. */
  lemma {:induction false} FilterAppend<T(!new)>(a: seq<T>, b: seq<T>, p: T -> bool)
    ensures Filter(a + b, p) == Filter(a, p) + Filter(b, p)
  {
    if a == [] {
      assert a + b == b;
    } else {
      assert (a + b)[1..] == a[1..] + b;
      FilterAppend(a[1..], b, p);
    }
  }

  /** Filtering with a mask no element passes gives the empty sequence. */
  lemma FilterNone<T(!new)>(s: seq<T>, p: T -> bool)
    requires forall i :: 0 <= i < |s| ==> !p(s[i])
    ensures Filter(s, p) == []
  {
  }

  /** The first index at or after `from` whose element satisfies `p`, or
      `|s|` when there is none. */
  function FirstFrom<T>(s: seq<T>, p: T -> bool, from: nat): (k: nat)
    requires from <= |s|
    ensures from <= k <= |s|
    ensures forall i :: from <= i < k ==> !p(s[i])
    ensures k < |s| ==> p(s[k])
    decreases |s| - from
  {
    if from == |s| || p(s[from]) then from else FirstFrom(s, p, from + 1)
  }

  lemma FilterSliceStepPass<T(!new)>(s: seq<T>, p: T -> bool, hi: nat)
    requires 0 < hi <= |s| && p(s[0])
    requires Filter(s[1..], p) == s[1..][..hi - 1]
    ensures Filter(s, p) == s[..hi]
  {
    assert s[..hi] == [s[0]] + s[1..][..hi - 1];
  }

  lemma FilterSliceStepFail<T(!new)>(s: seq<T>, p: T -> bool, lo: nat, hi: nat)
    requires 0 < lo <= hi <= |s| && !p(s[0])
    requires Filter(s[1..], p) == s[1..][lo - 1..hi - 1]
    ensures Filter(s, p) == s[lo..hi]
  {
    assert s[lo..hi] == s[1..][lo - 1..hi - 1];
  }

  /** When exactly the positions `lo..hi` pass `p`, filtering is that slice. */
  lemma {:induction false} FilterSlice<T(!new)>(s: seq<T>, p: T -> bool, lo: nat, hi: nat)
    requires lo <= hi <= |s|
    requires forall i :: 0 <= i < lo ==> !p(s[i])
    requires forall i :: lo <= i < hi ==> p(s[i])
    requires forall i :: hi <= i < |s| ==> !p(s[i])
    ensures Filter(s, p) == s[lo..hi]
  {
    if hi == 0 {
      FilterNone(s, p);
    } else {
      var t := s[1..];
      forall i | 0 <= i < lo - 1 ensures !p(t[i]) { assert t[i] == s[i + 1]; }
      forall i | lo - 1 <= i < hi - 1 && 0 <= i ensures p(t[i]) { assert t[i] == s[i + 1]; }
      forall i | hi - 1 <= i < |t| ensures !p(t[i]) { assert t[i] == s[i + 1]; }
      if lo == 0 {
        FilterSlice(t, p, 0, hi - 1);
        FilterSliceStepPass(s, p, hi);
      } else {
        FilterSlice(t, p, lo - 1, hi - 1);
        FilterSliceStepFail(s, p, lo, hi);
      }
    }
  }

  /** The first index at or after `from` whose element fails `p`, or `|s|`
      when there is none. */
  function FirstFailFrom<T>(s: seq<T>, p: T -> bool, from: nat): (k: nat)
    requires from <= |s|
    ensures from <= k <= |s|
    ensures forall i :: from <= i < k ==> p(s[i])
    ensures k < |s| ==> !p(s[k])
    decreases |s| - from
  {
    if from == |s| || !p(s[from]) then from else FirstFailFrom(s, p, from + 1)
  }

  /** When the elements passing `p` sit at contiguous positions, filtering
      by `p` is a slice. */
  lemma FilterConvex<T(!new)>(s: seq<T>, p: T -> bool)
    requires forall i, j, k :: 0 <= i < j < k < |s| && p(s[i]) && p(s[k]) ==> p(s[j])
    ensures exists lo, hi :: 0 <= lo <= hi <= |s| && Filter(s, p) == s[lo..hi]
  {
    var lo := FirstFrom(s, p, 0);
    var hi := FirstFailFrom(s, p, lo);
    FilterSlice(s, p, lo, hi);
  }

  /** The last `n` elements of `s`, or all of `s` when it is shorter. */
  function Tail<T>(s: seq<T>, n: nat): (r: seq<T>)
    ensures |r| == if |s| < n then |s| else n
    ensures s == s[..|s| - |r|] + r
  {
    if |s| <= n then s else s[|s| - n..]
  }

  /** Elements in front of a sequence with at least `n` elements do not
      reach its last `n`. */
  lemma TailAppend<T>(x: seq<T>, y: seq<T>, n: nat)
    requires |y| >= n
    ensures Tail(x + y, n) == Tail(y, n)
  {
    var t := Tail(x + y, n);
    assert forall i :: 0 <= i < n ==> t[i] == (x + y)[|x| + |y| - n + i];
  }

  /** The first `n` elements of `s`, or all of `s` when it is shorter
      (positional slicing `[:n]`, which never fails on an out-of-range end). */
  function Take<T>(s: seq<T>, n: nat): (r: seq<T>)
    ensures |r| == if |s| < n then |s| else n
    ensures r == s[..|r|]
  {
    if |s| <= n then s else s[..n]
  }
}
