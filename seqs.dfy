/**
 * Sequence vocabulary shared by the whole model: an option type, swapping
 * two positions, sums, the label range 1..n, and the facts about them that
 * the labeling proofs rely on.
 */
module Seqs {

  datatype Option<T> = None | Some(value: T)

  /** The sequence with positions `i` and `j` exchanged (the effect of a label swap). */
  function Swap<T>(s: seq<T>, i: nat, j: nat): (r: seq<T>)
    requires i < |s| && j < |s|
    ensures |r| == |s| && r[i] == s[j] && r[j] == s[i]
    ensures forall k :: 0 <= k < |s| && k != i && k != j ==> r[k] == s[k]
  {
    s[i := s[j]][j := s[i]]
  }

  /** Swapping the same two positions twice gives back the original sequence. */
  lemma SwapTwice<T>(s: seq<T>, i: nat, j: nat)
    requires i < |s| && j < |s|
    ensures Swap(Swap(s, i, j), i, j) == s
  {
    var t := Swap(Swap(s, i, j), i, j);
    assert forall k :: 0 <= k < |s| ==> t[k] == s[k];
  }

  /** A swap only reorders: the multiset of elements is unchanged. */
  lemma SwapMultiset<T>(s: seq<T>, i: nat, j: nat)
    requires i < |s| && j < |s|
    ensures multiset(Swap(s, i, j)) == multiset(s)
  {
    if i != j {
      var s1 := s[i := s[j]];
      assert multiset(s1) == multiset(s) - multiset{s[i]} + multiset{s[j]};
      assert Swap(s, i, j) == s1[j := s[i]];
      assert s1[j] == s[j];
    }
  }

  /** The sum of a sequence, peeling the last element so that loops can use it. */
  function Sum(s: seq<int>): int
  {
    if s == [] then 0 else Sum(s[..|s| - 1]) + s[|s| - 1]
  }

  lemma {:induction false} SumAppend(a: seq<int>, b: seq<int>)
    ensures Sum(a + b) == Sum(a) + Sum(b)
  {
    if b == [] {
      assert a + b == a;
    } else {
      assert (a + b)[..|a + b| - 1] == a + b[..|b| - 1];
      SumAppend(a, b[..|b| - 1]);
    }
  }

  /** Removing position `p` takes exactly `s[p]` off the sum. */
  lemma SumRemove(s: seq<int>, p: nat)
    requires p < |s|
    ensures Sum(RemoveAt(s, p)) + s[p] == Sum(s)
  {
    var a, b := s[..p], s[p + 1..];
    AroundSplit(s, p);
    SumAppend(a + [s[p]], b);
    SumAppend(a, [s[p]]);
    SumSingle(s[p]);
    SumAppend(a, b);
  }

  /** s is what comes before position p, s[p], and what comes after. */
  lemma AroundSplit<T>(s: seq<T>, p: nat)
    requires p < |s|
    ensures s == (s[..p] + [s[p]]) + s[p + 1..]
  {
  }

  lemma SumSingle(x: int)
    ensures Sum([x]) == x
  {
    assert [x][..0] == [];
  }

  /** Two sequences with the same elements have the same sum. */
  lemma {:induction false} SumPermutation(a: seq<int>, b: seq<int>)
    requires multiset(a) == multiset(b)
    ensures Sum(a) == Sum(b)
  {
    if a == [] {
      assert |b| == |multiset(b)| == 0;
    } else {
      var x := a[|a| - 1];
      var a' := a[..|a| - 1];
      assert a == a' + [x];
      assert multiset(a) == multiset(a') + multiset{x};
      assert x in multiset(b);
      assert x in b;
      var j :| 0 <= j < |b| && b[j] == x;
      var b' := RemoveAt(b, j);
      RemoveAtMultiset(b, j);
      SumPermutation(a', b');
      SumRemove(b, j);
    }
  }

  /** `s` without position `p`. */
  function RemoveAt<T>(s: seq<T>, p: nat): (r: seq<T>)
    requires p < |s|
    ensures |r| == |s| - 1
    ensures forall k :: 0 <= k < |r| ==> r[k] == if k < p then s[k] else s[k + 1]
  {
    s[..p] + s[p + 1..]
  }

  lemma RemoveAtMultiset<T>(s: seq<T>, p: nat)
    requires p < |s|
    ensures multiset(RemoveAt(s, p)) == multiset(s) - multiset{s[p]}
  {
    assert s == s[..p] + [s[p]] + s[p + 1..];
    assert multiset(s) == multiset(s[..p]) + multiset{s[p]} + multiset(s[p + 1..]);
  }

  lemma DistinctRemoveAt<T>(s: seq<T>, p: nat)
    requires p < |s| && Distinct(s)
    ensures Distinct(RemoveAt(s, p))
  {
    var r := RemoveAt(s, p);
    forall i, j | 0 <= i < j < |r| ensures r[i] != r[j] {
      var i' := if i < p then i else i + 1;
      var j' := if j < p then j else j + 1;
      assert r[i] == s[i'] && r[j] == s[j'] && i' < j';
    }
  }

  /** The labels 1, 2, ..., n in increasing order. */
  function OneTo(n: nat): (r: seq<int>)
    ensures |r| == n && forall k :: 0 <= k < n ==> r[k] == k + 1
  {
    if n == 0 then [] else OneTo(n - 1) + [n]
  }

  /** Consecutive labels lo, lo+1, ..., lo+n-1. */
  function Consecutive(lo: int, n: nat): (r: seq<int>)
    ensures |r| == n && forall k :: 0 <= k < n ==> r[k] == lo + k
  {
    if n == 0 then [] else Consecutive(lo, n - 1) + [lo + n - 1]
  }

  /** 1..|l| followed by the next |r| numbers is 1..c, c being the total length. */
  lemma OneToJoin(l: seq<int>, r: seq<int>, c: nat)
    requires c == |l| + |r| && l == OneTo(|l|)
    requires forall k :: 0 <= k < |r| ==> r[k] == |l| + k + 1
    ensures l + r == OneTo(c)
  {
    forall k | 0 <= k < c
      ensures (l + r)[k] == OneTo(c)[k]
    {
      if k >= |l| {
        assert (l + r)[k] == r[k - |l|];
      }
    }
  }

  /** Gauss: 1 + 2 + ... + n == n(n+1)/2. */
  lemma {:induction false} SumOneTo(n: nat)
    ensures 2 * Sum(OneTo(n)) == n * (n + 1)
  {
    if n > 0 {
      SumOneTo(n - 1);
      assert OneTo(n)[..n - 1] == OneTo(n - 1);
    }
  }

  predicate Distinct<T(==)>(s: seq<T>)
  {
    forall i, j :: 0 <= i < j < |s| ==> s[i] != s[j]
  }

  /** No value occurs twice exactly when every count is at most one. */
  lemma {:induction false} DistinctCounts(s: seq<int>)
    ensures Distinct(s) <==> forall x :: multiset(s)[x] <= 1
  {
    if s != [] {
      var s' := s[..|s| - 1];
      var y := s[|s| - 1];
      assert s == s' + [y];
      DistinctCounts(s');
      if Distinct(s) {
        DistinctPrefix(s);
        assert y !in s' by {
          assert forall k :: 0 <= k < |s'| ==> s'[k] == s[k];
        }
        forall x ensures multiset(s)[x] <= 1 {
          assert multiset(s)[x] == multiset(s')[x] + multiset([y])[x];
        }
      } else {
        var i, j :| 0 <= i < j < |s| && s[i] == s[j];
        TwiceCounted(s, i, j);
      }
    }
  }

  lemma DistinctPrefix(s: seq<int>)
    requires |s| > 0 && Distinct(s)
    ensures Distinct(s[..|s| - 1])
  {
    var s' := s[..|s| - 1];
    forall i, j | 0 <= i < j < |s'| ensures s'[i] != s'[j] { assert s'[i] == s[i] && s'[j] == s[j]; }
  }

  /** A permutation of 1..n has distinct elements, all between 1 and n. */
  lemma PermutationOfOneTo(s: seq<int>, n: nat)
    requires multiset(s) == multiset(OneTo(n))
    ensures Distinct(s)
    ensures forall k :: 0 <= k < |s| ==> 1 <= s[k] <= n
  {
    forall k | 0 <= k < |s| ensures 1 <= s[k] <= n {
      assert s[k] in multiset(s);
      InOneTo(n, s[k]);
    }
    forall i, j | 0 <= i < j < |s| ensures s[i] != s[j] {
      if s[i] == s[j] {
        TwiceCounted(s, i, j);
        OneToOnce(n, s[i]);
        assert false;
      }
    }
  }

  /** The values of 1..n lie between 1 and n. */
  lemma InOneTo(n: nat, x: int)
    requires x in multiset(OneTo(n))
    ensures 1 <= x <= n
  {
    var t :| 0 <= t < n && OneTo(n)[t] == x;
  }

  /** Two positions holding the same value count it twice. */
  lemma TwiceCounted<T>(s: seq<T>, a: nat, b: nat)
    requires a < b < |s| && s[a] == s[b]
    ensures multiset(s)[s[a]] >= 2
  {
    assert s == s[..a] + [s[a]] + s[a + 1..b] + [s[b]] + s[b + 1..];
  }

  lemma {:induction false} OneToOnce(n: nat, x: int)
    ensures multiset(OneTo(n))[x] <= 1
  {
    if n > 0 {
      var p := OneTo(n - 1);
      OneToOnce(n - 1, x);
      assert OneTo(n) == p + [n];
      CountAppend(p, n, x);
      if x == n {
        AboveOneTo(n - 1, x);
      }
    }
  }

  /** Appending y adds one occurrence of y and of nothing else. */
  lemma CountAppend<T>(p: seq<T>, y: T, x: T)
    ensures multiset(p + [y])[x] == multiset(p)[x] + (if x == y then 1 else 0)
  {
    assert multiset(p + [y]) == multiset(p) + multiset{y};
  }

  /** A value above m is not among 1..m. */
  lemma AboveOneTo(m: nat, x: int)
    requires x > m
    ensures multiset(OneTo(m))[x] == 0
  {
    if x in multiset(OneTo(m)) {
      InOneTo(m, x);
    }
  }

  /** n values that cover 1..n are a permutation of 1..n. */
  lemma CoverOneTo(s: seq<int>, n: nat)
    requires |s| == n
    requires forall v :: 1 <= v <= n ==> v in s
    ensures multiset(s) == multiset(OneTo(n))
  {
    var A, B := multiset(OneTo(n)), multiset(s);
    forall x ensures A[x] <= B[x] {
      OneToOnce(n, x);
      if x in A {
        var t :| 0 <= t < n && OneTo(n)[t] == x;
        assert x in s;
      }
    }
    assert |B - A| == 0 by {
      assert B == A + (B - A);
    }
    assert B == A + (B - A);
  }

  /** Pigeonhole: m distinct values taken from 1..x need m <= x. */
  lemma {:induction false} DistinctBounded(s: seq<int>, x: int)
    requires x >= 0 && Distinct(s)
    requires forall k :: 0 <= k < |s| ==> 1 <= s[k] <= x
    ensures |s| <= x
    decreases |s|
  {
    if |s| > 0 {
      var last := s[|s| - 1];
      var s' := s[..|s| - 1];
      // rename the value x (if s' holds it) to `last`, which s' does not hold
      var t := seq(|s'|, k requires 0 <= k < |s'| => if s'[k] == x then last else s'[k]);
      forall i, j | 0 <= i < j < |t| ensures t[i] != t[j] {
        assert s'[i] == s[i] && s'[j] == s[j] && s[i] != s[j];
        assert s[i] != last && s[j] != last;
      }
      forall k | 0 <= k < |t| ensures 1 <= t[k] <= x - 1 {
        assert s'[k] == s[k] && s[k] != last;
      }
      DistinctBounded(t, x - 1);
    }
  }

  lemma {:induction false} MaxIndex(s: seq<int>) returns (p: nat)
    requires |s| > 0
    ensures p < |s| && forall k :: 0 <= k < |s| ==> s[k] <= s[p]
  {
    if |s| == 1 {
      p := 0;
    } else {
      var q := MaxIndex(s[..|s| - 1]);
      assert forall k :: 0 <= k < |s| - 1 ==> s[..|s| - 1][k] == s[k];
      p := if s[|s| - 1] > s[q] then |s| - 1 else q;
    }
  }

  /** m distinct positive integers add up to at least 1 + 2 + ... + m. */
  lemma {:induction false} DistinctPositiveSum(s: seq<int>)
    requires Distinct(s)
    requires forall k :: 0 <= k < |s| ==> s[k] >= 1
    ensures 2 * Sum(s) >= |s| * (|s| + 1)
    decreases |s|
  {
    if |s| > 0 {
      var p := MaxIndex(s);
      DistinctBounded(s, s[p]);
      var s' := RemoveAt(s, p);
      DistinctRemoveAt(s, p);
      assert forall k :: 0 <= k < |s'| ==> s'[k] >= 1;
      DistinctPositiveSum(s');
      SumRemove(s, p);
      TriangleStep(|s|, Sum(s'), s[p]);
    }
  }

  /** 1 + ... + (m - 1) plus a value of at least m reaches 1 + ... + m. */
  lemma TriangleStep(m: int, a: int, b: int)
    requires 2 * a >= (m - 1) * m && b >= m
    ensures 2 * (a + b) >= m * (m + 1)
  {
    assert m * (m + 1) == (m - 1) * m + 2 * m;
  }

  /**
   * Drawing position `curr` from the pool s[..len] and swapping it to the
   * end leaves the drawn value outside a pool one shorter, and nothing lost.
   */
  lemma PoolStep(s: seq<int>, curr: nat, len: nat)
    requires curr < len <= |s|
    ensures multiset(Swap(s, curr, len - 1)[..len - 1]) + multiset{s[curr]} == multiset(s[..len])
  {
    var t := Swap(s, curr, len - 1);
    assert t[..len] == Swap(s[..len], curr, len - 1);
    SwapMultiset(s[..len], curr, len - 1);
    assert t[..len] == t[..len - 1] + [s[curr]];
  }
}
