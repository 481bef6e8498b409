/**
 * The orders the solver sorts weights into. The C code calls `qsort` with
 * the comparators `cmp` (ascending) and `cmp_inv` (descending); since a
 * sorted permutation of a sequence is unique (SortedUnique below), the
 * result of any correct sort is described by the insertion sorts here.
 */
module Sorting {

  predicate SortedAsc(s: seq<int>)
  {
    forall i, j :: 0 <= i < j < |s| ==> s[i] <= s[j]
  }

  predicate SortedDesc(s: seq<int>)
  {
    forall i, j :: 0 <= i < j < |s| ==> s[i] >= s[j]
  }

  function Insert(x: int, s: seq<int>): (r: seq<int>)
    requires SortedAsc(s)
    ensures SortedAsc(r) && multiset(r) == multiset(s) + multiset{x}
  {
    if s == [] then [x]
    else if x <= s[0] then [x] + s
    else
      var t := Insert(x, s[1..]);
      ConsSorted(s, x, t);
      [s[0]] + t
  }

  /** The head of a sorted s, below x, goes in front of x inserted into the rest. */
  lemma ConsSorted(s: seq<int>, x: int, t: seq<int>)
    requires SortedAsc(s) && s != [] && s[0] < x
    requires SortedAsc(t) && multiset(t) == multiset(s[1..]) + multiset{x}
    ensures SortedAsc([s[0]] + t) && multiset([s[0]] + t) == multiset(s) + multiset{x}
  {
    assert s == [s[0]] + s[1..];
    forall k | 0 <= k < |t|
      ensures s[0] <= t[k]
    {
      assert t[k] in multiset(t);
      if t[k] != x {
        assert t[k] in multiset(s[1..]);
        var j :| 0 <= j < |s[1..]| && s[1..][j] == t[k];
        assert s[j + 1] == t[k];
      }
    }
  }

  /** `s` in ascending order (the effect of `qsort(.., cmp)`). */
  function SortAsc(s: seq<int>): (r: seq<int>)
    ensures SortedAsc(r) && multiset(r) == multiset(s) && |r| == |s|
  {
    if s == [] then []
    else
      assert s == [s[0]] + s[1..];
      Insert(s[0], SortAsc(s[1..]))
  }

  function Reverse(s: seq<int>): (r: seq<int>)
    ensures |r| == |s| && forall k :: 0 <= k < |s| ==> r[k] == s[|s| - 1 - k]
  {
    if s == [] then [] else Reverse(s[1..]) + [s[0]]
  }

  lemma ReverseMultiset(s: seq<int>)
    ensures multiset(Reverse(s)) == multiset(s)
  {
    if s != [] {
      ReverseMultiset(s[1..]);
      assert s == [s[0]] + s[1..];
    }
  }

  /** `s` in descending order (the effect of `qsort(.., cmp_inv)`). */
  function SortDesc(s: seq<int>): (r: seq<int>)
    ensures SortedDesc(r) && multiset(r) == multiset(s) && |r| == |s|
  {
    ReverseMultiset(SortAsc(s));
    Reverse(SortAsc(s))
  }

  /** Only one ascending arrangement has a given multiset of elements. */
  lemma {:induction false} SortedUnique(a: seq<int>, b: seq<int>)
    requires SortedAsc(a) && SortedAsc(b) && multiset(a) == multiset(b)
    ensures a == b
  {
    if a == [] {
      assert |b| == |multiset(b)| == 0;
    } else {
      assert |b| == |multiset(b)| == |a|;
      var x, y := a[0], b[0];
      assert x >= y by {
        assert x in multiset(b);
        var i :| 0 <= i < |b| && b[i] == x;
      }
      assert y >= x by {
        assert y in multiset(a);
        var j :| 0 <= j < |a| && a[j] == y;
      }
      HeadTail(a);
      HeadTail(b);
      SortedUnique(a[1..], b[1..]);
    }
  }

  lemma HeadTail(s: seq<int>)
    requires |s| > 0
    ensures s == [s[0]] + s[1..] && multiset(s[1..]) == multiset(s) - multiset{s[0]}
  {
    assert s == [s[0]] + s[1..];
  }

  /** Any ascending sort of `s` (so the result of qsort with `cmp`) equals SortAsc(s). */
  lemma SortAscUnique(s: seq<int>, r: seq<int>)
    requires SortedAsc(r) && multiset(r) == multiset(s)
    ensures r == SortAsc(s)
  {
    SortedUnique(r, SortAsc(s));
  }

  /** Two sequences sort to the same thing exactly when they hold the same elements. */
  lemma SortAscSame(a: seq<int>, b: seq<int>)
    ensures SortAsc(a) == SortAsc(b) <==> multiset(a) == multiset(b)
  {
    if multiset(a) == multiset(b) {
      SortedUnique(SortAsc(a), SortAsc(b));
    }
  }

  lemma SortDescAsReverse(s: seq<int>, r: seq<int>)
    requires SortedDesc(r) && multiset(r) == multiset(s)
    ensures r == SortDesc(s)
  {
    ReverseMultiset(r);
    SortedUnique(Reverse(r), SortAsc(s));
    assert Reverse(Reverse(r)) == r;
  }

  /** `qsort(tab, size, sizeof(int), cmp)`: an ascending arrangement of the same entries. */
  method Qsort(s: seq<int>) returns (r: seq<int>)
    ensures SortedAsc(r) && multiset(r) == multiset(s)
  {
    r := SortAsc(s);
  }

  /** `qsort` with `cmp_inv`: a descending arrangement of the same entries. */
  method QsortDesc(s: seq<int>) returns (r: seq<int>)
    ensures SortedDesc(r) && multiset(r) == multiset(s)
  {
    r := SortDesc(s);
  }
}
