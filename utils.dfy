/**
 * The small helpers of Utils.c that the solver and the graph code use:
 * the qsort comparators, swapping two entries of an int table, the maximum
 * of a table, powers of ten, factorial and binomial coefficients, table
 * equality and the membership test used for taboo lists.
 *
 * A C table `int* tab` read together with its length `size` is the
 * sequence `tab` read on positions 0 .. size-1.
 */
module Utils {
  import opened Seqs

  /** `cmp`: the ascending qsort comparator, negative, zero or positive as a < b, a == b, a > b. */
  function Cmp(a: int, b: int): (r: int)
    ensures r < 0 <==> a < b
    ensures r == 0 <==> a == b
    ensures r > 0 <==> a > b
  {
    a - b
  }

  /** `cmp_inv`: the descending comparator, the reverse of `cmp`. */
  function CmpInv(a: int, b: int): (r: int)
    ensures r < 0 <==> a > b
    ensures r == 0 <==> a == b
    ensures r > 0 <==> a < b
    ensures r == Cmp(b, a) && r == -Cmp(a, b)
  {
    b - a
  }

  /** `permuteTab`: exchanges `tab[i]` and `tab[j]`, nothing else changes. */
  method PermuteTab(tab: array<int>, i: nat, j: nat)
    requires i < tab.Length && j < tab.Length
    modifies tab
    ensures tab[..] == Swap(old(tab[..]), i, j)
  {
    var temp := tab[i];
    tab[i] := tab[j];
    tab[j] := temp;
  }

  /** Swapping twice with the same indices is the identity. */
  lemma PermuteTabTwice(s: seq<int>, i: nat, j: nat)
    requires i < |s| && j < |s|
    ensures Swap(Swap(s, i, j), i, j) == s && multiset(Swap(s, i, j)) == multiset(s)
  {
    SwapTwice(s, i, j);
    SwapMultiset(s, i, j);
  }

  /** `maxInTab`: one more than the largest of 0 and the entries of tab[0..size). */
  method MaxInTab(tab: seq<int>, size: int) returns (r: int)
    requires size <= |tab|
    ensures r >= 1
    ensures forall k :: 0 <= k < size ==> tab[k] < r
    ensures r == 1 || exists k :: 0 <= k < size && tab[k] == r - 1
  {
    var res := 0;
    var i := 0;
    while i < size
      invariant 0 <= i <= if size < 0 then 0 else size
      invariant res >= 0
      invariant forall k :: 0 <= k < i ==> tab[k] <= res
      invariant res == 0 || exists k :: 0 <= k < i && tab[k] == res
    {
      if tab[i] > res {
        res := tab[i];
      }
      i := i + 1;
    }
    r := res + 1;
  }

  function Pow10(n: nat): nat
  {
    if n == 0 then 1 else 10 * Pow10(n - 1)
  }

  /** `e10`: ten to the power `e`; 1 when `e` is not positive (the loop does not run). */
  method E10(e: int) returns (r: int)
    ensures e <= 0 ==> r == 1
    ensures e >= 0 ==> r == Pow10(e)
  {
    var res := 1;
    var i := 0;
    while i < e
      invariant 0 <= i <= if e < 0 then 0 else e
      invariant res == Pow10(i)
    {
      res := res * 10;
      i := i + 1;
    }
    r := res;
  }

  /** n! for n >= 1, and 1 for every n <= 1 (the product over 2..n is empty). */
  function Factorial(n: int): (r: nat)
    ensures r >= 1
    decreases if n < 0 then 0 else n
  {
    if n <= 1 then 1 else n * Factorial(n - 1)
  }

  /** The product lo * (lo+1) * ... * hi, 1 when the range is empty. */
  function RangeProduct(lo: int, hi: int): int
    decreases hi - lo + 1
  {
    if hi < lo then 1 else RangeProduct(lo, hi - 1) * hi
  }

  /** `fact`: the product 2 * 3 * ... * n, computed in a double (exact here). */
  method Fact(n: int) returns (r: real)
    ensures r == Factorial(n) as real
  {
    var res := 1.0;
    var i := 2;
    while i <= n
      invariant 2 <= i <= if n < 2 then 2 else n + 1
      invariant res == Factorial(i - 1) as real
    {
      res := res * i as real;
      i := i + 1;
    }
    r := res;
  }

  /** `binom`: (n-k+1) * ... * n divided by k!. */
  method Binom(n: int, k: int) returns (r: real)
    ensures r == RangeProduct(n - k + 1, n) as real / Factorial(k) as real
    ensures k == 2 ==> r == (n * (n - 1) / 2) as real
  {
    var res := 1.0;
    var i := n - k + 1;
    while i <= n
      invariant n - k + 1 <= i <= if k < 0 then n - k + 1 else n + 1
      invariant res == RangeProduct(n - k + 1, i - 1) as real
    {
      res := res * i as real;
      i := i + 1;
    }
    var f := Fact(k);
    r := res / f;
    if k == 2 {
      BinomTwo(n);
    }
  }

  /** binom(n, 2) is the integer n(n-1)/2. */
  lemma BinomTwo(n: int)
    ensures RangeProduct(n - 1, n) as real / Factorial(2) as real == (n * (n - 1) / 2) as real
  {
    assert RangeProduct(n - 1, n) == (n - 1) * n by {
      assert RangeProduct(n - 1, n - 2) == 1;
    }
    assert Factorial(2) == 2;
    var h := n * (n - 1) / 2;
    HalfOfConsecutive(n);
    assert (n - 1) * n == 2 * h;
    assert ((n - 1) * n) as real == 2.0 * h as real;
  }

  /** One of two consecutive integers is even. */
  lemma HalfOfConsecutive(n: int)
    ensures n * (n - 1) == 2 * (n * (n - 1) / 2)
  {
    var x;
    if n % 2 == 0 {
      var q := n / 2;
      assert n == 2 * q;
      x := q * (n - 1);
      assert n * (n - 1) == 2 * q * (n - 1);
    } else {
      var q := (n - 1) / 2;
      assert n - 1 == 2 * q;
      x := n * q;
      assert n * (n - 1) == n * (2 * q);
    }
    assert n * (n - 1) == 2 * x;
    assert (2 * x) / 2 == x;
  }

  /** `tabEquals`: false when the sizes differ, else whether the first t1 entries agree. */
  method TabEquals(l1: seq<int>, l2: seq<int>, t1: int, t2: int) returns (r: bool)
    requires t1 == t2 ==> t1 <= |l1| && t1 <= |l2|
    ensures r <==> t1 == t2 && forall i :: 0 <= i < t1 ==> l1[i] == l2[i]
  {
    if t1 != t2 {
      return false;
    }
    var i := 0;
    while i < t1
      invariant 0 <= i <= if t1 < 0 then 0 else t1
      invariant forall k :: 0 <= k < i ==> l1[k] == l2[k]
    {
      if l1[i] != l2[i] {
        return false;
      }
      i := i + 1;
    }
    return true;
  }

  /** `elem` is one of tab[0..size); never for size <= 0. */
  predicate Occurs(elem: int, tab: seq<int>, size: int)
    requires size <= |tab|
  {
    exists i :: 0 <= i < size && tab[i] == elem
  }

  /** `inTab`: whether `elem` occurs among tab[0..size). */
  method InTab(elem: int, tab: seq<int>, size: int) returns (r: bool)
    requires size <= |tab|
    ensures r <==> Occurs(elem, tab, size)
    ensures size <= 0 ==> !r
  {
    var i := 0;
    while i < size
      invariant 0 <= i <= if size < 0 then 0 else size
      invariant forall k :: 0 <= k < i ==> tab[k] != elem
    {
      if tab[i] == elem {
        return true;
      }
      i := i + 1;
    }
    return false;
  }

  /** C's `/` on int for a positive divisor: the quotient truncated toward zero. */
  function CDiv(a: int, b: int): (r: int)
    requires b > 0
    ensures a >= 0 ==> 0 <= a - r * b < b
    ensures a < 0 ==> -b < a - r * b <= 0
  {
    if a >= 0 then a / b else -((-a) / b)
  }
}
