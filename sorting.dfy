/** Ascending sorts used by the model: numpy's in-place `sort()` on a longitude
    array, and xarray's `sortby`, which reorders data slices by their coordinate. */
module Sorting {

  predicate Sorted(s: seq<real>)
  {
    forall i, j :: 0 <= i < j < |s| ==> s[i] <= s[j]
  }

  /** `x` placed before the first element of `s` that is not smaller. */
  function Insert(x: real, s: seq<real>): seq<real>
  {
    if s == [] || x <= s[0] then [x] + s else [s[0]] + Insert(x, s[1..])
  }

  /** The ascending rearrangement of `s` (insertion sort). */
  function SortSeq(s: seq<real>): seq<real>
  {
    if s == [] then [] else Insert(s[0], SortSeq(s[1..]))
  }

  lemma {:induction false} InsertProps(x: real, s: seq<real>)
    requires Sorted(s)
    ensures Sorted(Insert(x, s))
    ensures multiset(Insert(x, s)) == multiset{x} + multiset(s)
    ensures |Insert(x, s)| == |s| + 1
  {
    if s == [] || x <= s[0] {
    } else {
      var tail := s[1..];
      SortedTail(s);
      InsertProps(x, tail);
      assert s == [s[0]] + tail;
      var t := Insert(x, tail);
      assert Insert(x, s) == [s[0]] + t;
      InsertedLowerBound(s, x, t);
      ConsSorted(s[0], t);
    }
  }

  /** An element of `s` or `x`, when `x` is above `s`'s head, is at least the head. */
  lemma InsertedLowerBound(s: seq<real>, x: real, t: seq<real>)
    requires Sorted(s) && s != [] && s[0] < x
    requires multiset(t) == multiset{x} + multiset(s[1..])
    ensures forall k :: 0 <= k < |t| ==> s[0] <= t[k]
  {
    forall k | 0 <= k < |t| ensures s[0] <= t[k] {
      assert t[k] in multiset(t);
      if t[k] != x {
        assert t[k] in multiset(s[1..]);
        var m :| 0 <= m < |s[1..]| && s[1..][m] == t[k];
        assert s[1..][m] == s[m + 1];
      }
    }
  }

  /** A lower bound put in front of an ascending sequence keeps it ascending. */
  lemma ConsSorted(h: real, t: seq<real>)
    requires Sorted(t) && forall k :: 0 <= k < |t| ==> h <= t[k]
    ensures Sorted([h] + t)
  {
    var u := [h] + t;
    forall i, j | 0 <= i < j < |u| ensures u[i] <= u[j] {
      assert u[j] == t[j - 1];
      if i > 0 {
        assert u[i] == t[i - 1];
      }
    }
  }

  /** SortSeq returns an ascending permutation of its input. */
  lemma {:induction false} SortSeqProps(s: seq<real>)
    ensures Sorted(SortSeq(s))
    ensures multiset(SortSeq(s)) == multiset(s)
    ensures |SortSeq(s)| == |s|
  {
    if s != [] {
      SortSeqProps(s[1..]);
      InsertProps(s[0], SortSeq(s[1..]));
      assert s == [s[0]] + s[1..];
    }
  }

  lemma SortedTail(s: seq<real>)
    requires Sorted(s) && s != []
    ensures Sorted(s[1..])
  {
    forall i, j | 0 <= i < j < |s| - 1 ensures s[1..][i] <= s[1..][j] {
      assert s[1..][i] == s[i + 1] && s[1..][j] == s[j + 1];
    }
  }

  /** The smallest element of a sorted sequence stands first. */
  lemma SortedHeadIsMin(s: seq<real>, x: real)
    requires Sorted(s) && x in multiset(s)
    ensures s[0] <= x
  {
    var m :| 0 <= m < |s| && s[m] == x;
  }

  /** A sorted sequence is determined by its multiset of elements. */
  lemma {:induction false} SortedUnique(a: seq<real>, b: seq<real>)
    requires Sorted(a) && Sorted(b)
    requires multiset(a) == multiset(b)
    ensures a == b
  {
    if a != [] {
      assert |b| == |a| by { assert |multiset(a)| == |multiset(b)|; }
      assert a[0] in multiset(b) && b[0] in multiset(a) by {
        assert a[0] in multiset(a);
        assert b[0] in multiset(b);
      }
      SortedHeadIsMin(b, a[0]);
      SortedHeadIsMin(a, b[0]);
      assert a[0] == b[0];
      assert a == [a[0]] + a[1..];
      assert b == [b[0]] + b[1..];
      assert multiset(a[1..]) == multiset(a) - multiset{a[0]};
      assert multiset(b[1..]) == multiset(b) - multiset{b[0]};
      SortedTail(a);
      SortedTail(b);
      SortedUnique(a[1..], b[1..]);
    } else {
      assert |multiset(b)| == 0;
    }
  }

  /** Sorting depends only on the multiset of the input. */
  lemma SortSeqByMultiset(a: seq<real>, b: seq<real>)
    requires multiset(a) == multiset(b)
    ensures SortSeq(a) == SortSeq(b)
  {
    SortSeqProps(a);
    SortSeqProps(b);
    SortedUnique(SortSeq(a), SortSeq(b));
  }

  /** Any ascending permutation of `s` is SortSeq(s). */
  lemma SortedPermIsSortSeq(s: seq<real>, t: seq<real>)
    requires Sorted(t) && multiset(t) == multiset(s)
    ensures t == SortSeq(s)
  {
    SortSeqProps(s);
    SortedUnique(t, SortSeq(s));
  }

  method Swap(a: array<real>, i: nat, j: nat)
    requires i < a.Length && j < a.Length
    modifies a
    ensures a[..] == old(a[..])[i := old(a[j])][j := old(a[i])]
    ensures multiset(a[..]) == multiset(old(a[..]))
  {
    a[i], a[j] := a[j], a[i];
  }

  /** numpy's in-place `ndarray.sort()`, as an insertion sort by adjacent swaps. */
  method SortInPlace(a: array<real>)
    modifies a
    ensures Sorted(a[..])
    ensures multiset(a[..]) == multiset(old(a[..]))
    ensures a[..] == SortSeq(old(a[..]))
  {
    var i := 0;
    while i < a.Length
      invariant 0 <= i <= a.Length
      invariant forall p, q :: 0 <= p < q < i ==> a[p] <= a[q]
      invariant multiset(a[..]) == multiset(old(a[..]))
    {
      var j := i;
      while j > 0 && a[j - 1] > a[j]
        invariant 0 <= j <= i
        invariant forall p, q :: 0 <= p < q <= i && p != j && q != j ==> a[p] <= a[q]
        invariant forall q :: j < q <= i ==> a[j] <= a[q]
        invariant multiset(a[..]) == multiset(old(a[..]))
      {
        Swap(a, j - 1, j);
        j := j - 1;
      }
      i := i + 1;
    }
    SortedPermIsSortSeq(old(a[..]), a[..]);
  }

  // ---- sorting (key, slice) pairs by key: xarray's sortby ----

  function Keys<C>(ps: seq<(real, C)>): (ks: seq<real>)
    ensures |ks| == |ps|
    ensures forall i :: 0 <= i < |ps| ==> ks[i] == ps[i].0
  {
    if ps == [] then [] else [ps[0].0] + Keys(ps[1..])
  }

  function InsertByKey<C>(p: (real, C), s: seq<(real, C)>): seq<(real, C)>
  {
    if s == [] || p.0 <= s[0].0 then [p] + s else [s[0]] + InsertByKey(p, s[1..])
  }

  /** Stable ascending sort of pairs by their key. */
  function SortByKey<C>(ps: seq<(real, C)>): seq<(real, C)>
  {
    if ps == [] then [] else InsertByKey(ps[0], SortByKey(ps[1..]))
  }

  lemma {:induction false} InsertByKeyProps<C>(p: (real, C), s: seq<(real, C)>)
    ensures Keys(InsertByKey(p, s)) == Insert(p.0, Keys(s))
    ensures multiset(InsertByKey(p, s)) == multiset{p} + multiset(s)
  {
    if s == [] || p.0 <= s[0].0 {
      assert Keys([p] + s) == [p.0] + Keys(s);
    } else {
      InsertByKeyProps(p, s[1..]);
      assert s == [s[0]] + s[1..];
      assert Keys(s)[1..] == Keys(s[1..]);
      assert Keys([s[0]] + InsertByKey(p, s[1..])) == [s[0].0] + Keys(InsertByKey(p, s[1..]));
    }
  }

  /** Sorting pairs by key sorts their keys exactly as SortSeq does, and moves
      every pair as a whole: no slice is separated from its coordinate. */
  lemma {:induction false} SortByKeyProps<C>(ps: seq<(real, C)>)
    ensures Keys(SortByKey(ps)) == SortSeq(Keys(ps))
    ensures multiset(SortByKey(ps)) == multiset(ps)
    ensures |SortByKey(ps)| == |ps|
  {
    if ps != [] {
      SortByKeyProps(ps[1..]);
      InsertByKeyProps(ps[0], SortByKey(ps[1..]));
      assert ps == [ps[0]] + ps[1..];
      assert Keys(ps)[1..] == Keys(ps[1..]);
      assert |multiset(SortByKey(ps))| == |multiset(ps)|;
    }
  }
}
