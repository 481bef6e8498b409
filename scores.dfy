/**
 * The objective functions and magic/antimagic tests of Solver.c, as pure
 * functions of the vertex weights. The weight of a vertex is its label plus
 * the labels of the edges incident to it; the Solver class computes these
 * values with the source's loops and is proved equal to them.
 *
 * All scores are non-negative integers. The C code keeps some of them in a
 * `float`; the values involved are integers, except for the variance of
 * `magicFormulaUnknownConst`, which is modelled scaled by n*n (see
 * VarianceScaled) so that it stays an integer with the same order.
 */
module Scores {
  import opened Seqs
  import opened Sorting
  import Utils

  /** The vertex labels and the edge labels of a graph, in array order. */
  datatype Labeling = Labeling(v: seq<int>, e: seq<int>)

  /** Incidence lists: one list per vertex, each naming edges of `L`. */
  predicate Fits(adj: seq<seq<nat>>, L: Labeling)
  {
    |adj| == |L.v| &&
    forall i, k :: 0 <= i < |adj| && 0 <= k < |adj[i]| ==> adj[i][k] < |L.e|
  }

  /** The sum of the labels of edges `idx`. */
  function EdgeSum(e: seq<int>, idx: seq<nat>): int
    requires forall k :: 0 <= k < |idx| ==> idx[k] < |e|
  {
    if idx == [] then 0 else EdgeSum(e, idx[..|idx| - 1]) + e[idx[|idx| - 1]]
  }

  /** Vertex weights: label plus incident edge labels. */
  function Weights(L: Labeling, adj: seq<seq<nat>>): (w: seq<int>)
    requires Fits(adj, L)
    ensures |w| == |L.v|
  {
    seq(|adj|, i requires 0 <= i < |adj| => L.v[i] + EdgeSum(L.e, adj[i]))
  }

  /** Incident edge labels only (the rectangle score leaves the vertex label out). */
  function EdgeWeights(L: Labeling, adj: seq<seq<nat>>): (w: seq<int>)
    requires Fits(adj, L)
    ensures |w| == |L.v|
  {
    seq(|adj|, i requires 0 <= i < |adj| => EdgeSum(L.e, adj[i]))
  }

  function Abs(x: int): nat { if x < 0 then -x else x }

  function Sq(x: int): nat { x * x }

  /** The order a formula reads the weights in: descending for a negative step, ascending for a positive one, vertex order for 0. */
  function Ordered(w: seq<int>, d: int): (r: seq<int>)
    ensures |r| == |w| && multiset(r) == multiset(w)
  {
    if d < 0 then SortDesc(w) else if d > 0 then SortAsc(w) else w
  }

  // ---------------------------------------------------------------- magic

  /** The sum over i of |s[i] - k - i*d|. */
  function AbsDeviation(s: seq<int>, k: int, d: int): nat
  {
    if s == [] then 0
    else AbsDeviation(s[..|s| - 1], k, d) + Abs(s[|s| - 1] - k - (|s| - 1) * d)
  }

  /** `magicFormula(s, k, k_d)`. */
  function MagicFormula(w: seq<int>, k: int, kd: int): nat
  {
    AbsDeviation(Ordered(w, kd), k, kd)
  }

  predicate IsMagic(w: seq<int>, k: int)
  {
    forall i :: 0 <= i < |w| ==> w[i] == k
  }

  predicate IsMagicUnknownConst(w: seq<int>)
  {
    forall i :: 0 <= i < |w| ==> w[i] == w[0]
  }

  lemma {:induction false} AbsDeviationZero(s: seq<int>, k: int, d: int)
    ensures AbsDeviation(s, k, d) == 0 <==> forall i :: 0 <= i < |s| ==> s[i] == k + i * d
  {
    if s != [] {
      var s' := s[..|s| - 1];
      AbsDeviationZero(s', k, d);
      assert forall i :: 0 <= i < |s'| ==> s'[i] == s[i];
    }
  }

  /** The magic formula is 0 exactly when the ordered weights are k, k+d, k+2d, ... */
  lemma MagicFormulaZero(w: seq<int>, k: int, kd: int)
    ensures MagicFormula(w, k, kd) == 0 <==>
            forall i :: 0 <= i < |w| ==> Ordered(w, kd)[i] == k + i * kd
  {
    AbsDeviationZero(Ordered(w, kd), k, kd);
  }

  /** With step 0 the magic formula vanishes exactly on k-magic weights (what `isMagic` tests). */
  lemma MagicFormulaDetectsMagic(w: seq<int>, k: int)
    ensures MagicFormula(w, k, 0) == 0 <==> IsMagic(w, k)
  {
    AbsDeviationZero(w, k, 0);
  }

  // ---------------------------------------------------------------- antimagic

  /** Every consecutive gap of `s` equals `d`. */
  predicate Gaps(s: seq<int>, d: int)
  {
    forall i :: 0 <= i < |s| - 1 ==> s[i + 1] - s[i] == d
  }

  /** `IsAntimagic(s, a, d)`: the ascending weights start at `a` and go up by `d`. */
  predicate IsAntimagic(w: seq<int>, a: int, d: int)
    requires |w| >= 1
  {
    SortAsc(w)[0] == a && Gaps(SortAsc(w), d)
  }

  /** `IsAntimagicStep(s, d)`: the smallest weight when every gap is `d`, else 0. */
  function AntimagicStep(w: seq<int>, d: int): int
    requires |w| >= 1
  {
    if Gaps(SortAsc(w), d) then SortAsc(w)[0] else 0
  }

  /** `getAntimagicConst`: (smallest weight, first gap) when all gaps agree, else (0, 0). */
  function AntimagicConst(w: seq<int>): (int, int)
    requires |w| >= 2
  {
    ProgressionConst(SortAsc(w))
  }

  /** On an ascending sequence: its start and first gap when every gap is that one, else (0, 0). */
  function ProgressionConst(s: seq<int>): (int, int)
    requires |s| >= 2
  {
    if Gaps(s, s[1] - s[0]) then (s[0], s[1] - s[0]) else (0, 0)
  }

  /** An arithmetic progression, stated by its terms or by its start and gaps. */
  lemma ProgressionTerms(s: seq<int>, a: int, d: int)
    ensures (forall i :: 0 <= i < |s| ==> s[i] == a + i * d) <==> (|s| == 0 || s[0] == a) && Gaps(s, d)
  {
    if forall i :: 0 <= i < |s| ==> s[i] == a + i * d {
      forall i | 0 <= i < |s| - 1
        ensures s[i + 1] - s[i] == d
      {
        NextTerm(a, d, i);
      }
    }
    if (|s| == 0 || s[0] == a) && Gaps(s, d) {
      GapsToTerms(s, a, d);
    }
  }

  lemma NextTerm(a: int, d: int, i: int)
    ensures a + (i + 1) * d - (a + i * d) == d
  {
  }

  lemma {:induction false} GapsToTerms(s: seq<int>, a: int, d: int)
    requires (|s| == 0 || s[0] == a) && Gaps(s, d)
    ensures forall i :: 0 <= i < |s| ==> s[i] == a + i * d
  {
    if |s| > 1 {
      var s' := s[..|s| - 1];
      assert Gaps(s', d);
      GapsToTerms(s', a, d);
      assert s[|s| - 2] == a + (|s| - 2) * d;
      NextTerm(a, d, |s| - 2);
    }
  }

  /** With a positive step the magic formula vanishes exactly on (a, d)-antimagic weights. */
  lemma MagicFormulaDetectsAntimagic(w: seq<int>, a: int, d: int)
    requires |w| >= 1 && d > 0
    ensures MagicFormula(w, a, d) == 0 <==> IsAntimagic(w, a, d)
  {
    AbsDeviationZero(SortAsc(w), a, d);
    ProgressionTerms(SortAsc(w), a, d);
  }

  /** The sum over consecutive pairs of (s[i+1] - s[i] - d)^2. */
  function GapDeviation(s: seq<int>, d: int): nat
  {
    if |s| < 2 then 0
    else GapDeviation(s[..|s| - 1], d) + Sq(s[|s| - 1] - s[|s| - 2] - d)
  }

  lemma {:induction false} GapDeviationZero(s: seq<int>, d: int)
    ensures GapDeviation(s, d) == 0 <==> Gaps(s, d)
  {
    if |s| >= 2 {
      var s' := s[..|s| - 1];
      GapDeviationZero(s', d);
      assert forall i :: 0 <= i < |s'| ==> s'[i] == s[i];
      assert Sq(s[|s| - 1] - s[|s| - 2] - d) == 0 <==> s[|s| - 1] - s[|s| - 2] == d;
    }
  }

  /** `antimagicFormulaKnownStep(s, d)`. */
  function AntimagicFormulaKnownStep(w: seq<int>, d: int): nat
  {
    GapDeviation(Ordered(w, d), d)
  }

  /** The known-step formula vanishes exactly when the ordered weights go up by `d`. */
  lemma KnownStepZero(w: seq<int>, d: int)
    ensures AntimagicFormulaKnownStep(w, d) == 0 <==> Gaps(Ordered(w, d), d)
    ensures |w| >= 1 && d > 0 ==>
              (AntimagicFormulaKnownStep(w, d) == 0 <==> IsAntimagic(w, SortAsc(w)[0], d))
  {
    GapDeviationZero(Ordered(w, d), d);
  }

  /**
   * The mean gap `(int)(sum of gaps / (nb - 1))`: the gaps of a sequence add
   * up to last - first, and the float is truncated toward zero.
   */
  function MeanGap(s: seq<int>): int
  {
    if |s| < 2 then 0 else Utils.CDiv(s[|s| - 1] - s[0], |s| - 1)
  }

  /**
   * `antimagicFormulaUnknownConst`. With one vertex the source divides 0 by 0,
   * but there is no gap, so the mean is never read.
   */
  function AntimagicFormulaUnknownConst(w: seq<int>): nat
  {
    GapDeviation(SortAsc(w), MeanGap(SortAsc(w)))
  }

  /** The gaps of a progression with step d add up to (n - 1) * d. */
  lemma {:induction false} GapsSpan(s: seq<int>, d: int)
    requires |s| >= 1 && Gaps(s, d)
    ensures s[|s| - 1] - s[0] == (|s| - 1) * d
  {
    if |s| > 1 {
      var s' := s[..|s| - 1];
      assert Gaps(s', d) && s'[0] == s[0] && s'[|s'| - 1] == s[|s| - 2];
      GapsSpan(s', d);
    }
  }

  lemma MeanGapOfProgression(s: seq<int>, d: int)
    requires |s| >= 2 && Gaps(s, d)
    ensures MeanGap(s) == d
  {
    GapsSpan(s, d);
    var n := |s| - 1;
    var r := MeanGap(s);
    assert r == Utils.CDiv(n * d, n);
    assert -n < n * d - r * n < n;
    assert n * d - r * n == n * (d - r);
    QuotientUnique(n, d - r);
  }

  /** The only multiple of a positive n strictly between -n and n is 0. */
  lemma QuotientUnique(n: int, q: int)
    requires n > 0 && -n < n * q < n
    ensures q == 0
  {
  }

  /** The sorted weights go up by a common step (the first gap). */
  predicate IsProgression(w: seq<int>)
    requires |w| >= 2
  {
    var s := SortAsc(w);
    Gaps(s, s[1] - s[0])
  }

  /** The unknown-constant formula vanishes exactly when the sorted weights form an arithmetic progression. */
  lemma UnknownConstZero(w: seq<int>)
    requires |w| >= 2
    ensures AntimagicFormulaUnknownConst(w) == 0 <==> IsProgression(w)
  {
    MeanGapDeviationZero(w, SortAsc(w));
  }

  lemma MeanGapDeviationZero(w: seq<int>, s: seq<int>)
    requires |w| >= 2 && s == SortAsc(w)
    ensures GapDeviation(s, MeanGap(s)) == 0 <==> Gaps(s, s[1] - s[0])
  {
    var m := MeanGap(s);
    GapDeviationZero(s, m);
    var d := s[1] - s[0];
    if Gaps(s, d) {
      MeanGapOfProgression(s, d);
    }
    if Gaps(s, m) {
      assert s[1] - s[0] == m;
    }
  }

  /** The sum over i of (s[i] - (a + i*d))^2. */
  function ProgDeviation(s: seq<int>, a: int, d: int): nat
  {
    if s == [] then 0
    else ProgDeviation(s[..|s| - 1], a, d) + Sq(s[|s| - 1] - (a + (|s| - 1) * d))
  }

  lemma {:induction false} ProgDeviationZero(s: seq<int>, a: int, d: int)
    ensures ProgDeviation(s, a, d) == 0 <==> forall i :: 0 <= i < |s| ==> s[i] == a + i * d
  {
    if s != [] {
      var s' := s[..|s| - 1];
      ProgDeviationZero(s', a, d);
      assert forall i :: 0 <= i < |s'| ==> s'[i] == s[i];
      var x := s[|s| - 1] - (a + (|s| - 1) * d);
      assert Sq(x) == 0 <==> x == 0;
    }
  }

  /**
   * `antimagicFormulaKnownConst(s, a)`. With one vertex the source divides
   * 0 by 0, but the mean is multiplied by the index 0, so it does not matter.
   */
  function AntimagicFormulaKnownConst(w: seq<int>, a: int): nat
  {
    ProgDeviation(SortAsc(w), a, MeanGap(SortAsc(w)))
  }

  /** The known-constant formula vanishes exactly when the weights are (a, d)-antimagic for some d (namely the mean gap). */
  lemma KnownConstZero(w: seq<int>, a: int)
    requires |w| >= 2
    ensures AntimagicFormulaKnownConst(w, a) == 0 <==> IsAntimagic(w, a, MeanGap(SortAsc(w)))
    ensures forall d :: IsAntimagic(w, a, d) ==> d == MeanGap(SortAsc(w))
  {
    var s := SortAsc(w);
    ProgDeviationZero(s, a, MeanGap(s));
    ProgressionTerms(s, a, MeanGap(s));
    forall d | IsAntimagic(w, a, d) ensures d == MeanGap(s) {
      MeanGapOfProgression(s, d);
    }
  }

  /** The number of i with s[i+1] == s[i]. */
  function AdjacentEqual(s: seq<int>): nat
  {
    if |s| < 2 then 0
    else AdjacentEqual(s[..|s| - 1]) + (if s[|s| - 1] == s[|s| - 2] then 1 else 0)
  }

  /** `allDifferentFormula`. */
  function AllDifferentFormula(w: seq<int>): nat
  {
    AdjacentEqual(SortAsc(w))
  }

  lemma {:induction false} AdjacentEqualZero(s: seq<int>)
    requires SortedAsc(s)
    ensures AdjacentEqual(s) == 0 <==> Distinct(s)
  {
    if |s| >= 2 {
      var s' := s[..|s| - 1];
      assert forall i :: 0 <= i < |s'| ==> s'[i] == s[i];
      AdjacentEqualZero(s');
      if AdjacentEqual(s) == 0 {
        forall i, j | 0 <= i < j < |s| ensures s[i] != s[j] {
          if j < |s| - 1 {
            assert s'[i] != s'[j];
          } else {
            assert s[i] <= s[|s| - 2] < s[|s| - 1];
          }
        }
      }
    }
  }

  /** The all-different formula vanishes exactly when all weights are distinct. */
  lemma AllDifferentZero(w: seq<int>)
    ensures AllDifferentFormula(w) == 0 <==> Distinct(w)
  {
    AdjacentEqualZero(SortAsc(w));
    DistinctCounts(w);
    DistinctCounts(SortAsc(w));
  }

  /** What `getAntimagicConst` reports is correct, and it recognises every antimagic labeling but (0, 0). */
  lemma AntimagicConstCorrect(w: seq<int>, a: int, d: int)
    requires |w| >= 2
    ensures AntimagicConst(w) == (a, d) && (a, d) != (0, 0) ==> IsAntimagic(w, a, d)
    ensures IsAntimagic(w, a, d) ==> AntimagicConst(w) == (a, d)
  {
  }

  /** `IsAntimagicStep` returns the constant of every (a, d)-antimagic labeling, and a non-zero result is one. */
  lemma AntimagicStepCorrect(w: seq<int>, a: int, d: int)
    requires |w| >= 1
    ensures IsAntimagic(w, a, d) ==> AntimagicStep(w, d) == a
    ensures AntimagicStep(w, d) != 0 ==> IsAntimagic(w, AntimagicStep(w, d), d)
  {
  }

  // ---------------------------------------------------------------- variance

  /** The sum over i of (n * s[i] - total)^2. */
  function ScaledSquares(s: seq<int>, n: int, total: int): nat
  {
    if s == [] then 0
    else ScaledSquares(s[..|s| - 1], n, total) + Sq(n * s[|s| - 1] - total)
  }

  /**
   * `magicFormulaUnknownConst` times n*n: the sum of (n * w[i] - S)^2 where
   * S is the sum of the weights, which is n*n times the sum of squared
   * deviations from the average S / n that the source computes.
   */
  function VarianceScaled(w: seq<int>): nat
  {
    ScaledSquares(w, |w|, Sum(w))
  }

  lemma {:induction false} ScaledSquaresZero(s: seq<int>, n: int, total: int)
    ensures ScaledSquares(s, n, total) == 0 <==> forall i :: 0 <= i < |s| ==> n * s[i] == total
  {
    if s != [] {
      var s' := s[..|s| - 1];
      ScaledSquaresZero(s', n, total);
      assert forall i :: 0 <= i < |s'| ==> s'[i] == s[i];
      var x := n * s[|s| - 1] - total;
      assert Sq(x) == 0 <==> x == 0;
    }
  }

  lemma {:induction false} SumConstant(s: seq<int>, c: int)
    requires forall i :: 0 <= i < |s| ==> s[i] == c
    ensures Sum(s) == |s| * c
  {
    if s != [] {
      var s' := s[..|s| - 1];
      assert forall i :: 0 <= i < |s'| ==> s'[i] == c;
      SumConstant(s', c);
    }
  }

  /** The (scaled) variance vanishes exactly when all weights are equal. */
  lemma VarianceZero(w: seq<int>)
    ensures VarianceScaled(w) == 0 <==> IsMagicUnknownConst(w)
  {
    ScaledSquaresZero(w, |w|, Sum(w));
    if IsMagicUnknownConst(w) && |w| > 0 {
      SumConstant(w, w[0]);
    }
    if VarianceScaled(w) == 0 && |w| > 0 {
      forall i | 0 <= i < |w| ensures w[i] == w[0] {
        assert |w| * w[i] == |w| * w[0];
        MultCancel(|w|, w[i], w[0]);
      }
    }
  }

  lemma MultCancel(n: int, a: int, b: int)
    requires n > 0 && n * a == n * b
    ensures a == b
  {
  }

  // ---------------------------------------------------------------- rectangle

  /** Which side a rectangle vertex is on, from the second character of its name: 0 ("v0,i" rows), 1 ("v1,j" columns), 2 neither. */
  function Side(name: string): int
  {
    if |name| >= 2 && name[1] == '0' then 0
    else if |name| >= 2 && name[1] == '1' then 1
    else 2
  }

  /** The values of the vertices on `side`, in vertex order. */
  function OfSide(w: seq<int>, names: seq<string>, side: int): seq<int>
    requires |names| == |w|
  {
    if w == [] then []
    else OfSide(w[..|w| - 1], names[..|w| - 1], side) + (if Side(names[|w| - 1]) == side then [w[|w| - 1]] else [])
  }

  lemma {:induction false} OfSideAllEqual(w: seq<int>, names: seq<string>, side: int, c: int)
    requires |names| == |w|
    ensures (forall t :: 0 <= t < |OfSide(w, names, side)| ==> OfSide(w, names, side)[t] == c) <==>
            (forall i :: 0 <= i < |w| && Side(names[i]) == side ==> w[i] == c)
  {
    if w != [] {
      var w', n' := w[..|w| - 1], names[..|w| - 1];
      OfSideAllEqual(w', n', side, c);
      assert forall i :: 0 <= i < |w'| ==> w'[i] == w[i] && n'[i] == names[i];
      var o := OfSide(w', n', side);
      var last := |w| - 1;
      var extra := if Side(names[last]) == side then [w[last]] else [];
      var r := OfSide(w, names, side);
      assert r == o + extra;
      assert forall t :: 0 <= t < |o| ==> r[t] == o[t];
      assert forall t :: 0 <= t < |extra| ==> r[|o| + t] == extra[t];
      if forall t :: 0 <= t < |r| ==> r[t] == c {
        assert forall t :: 0 <= t < |o| ==> o[t] == c;
        forall i | 0 <= i < |w| && Side(names[i]) == side ensures w[i] == c {
          if i == last {
            assert r[|o|] == w[i];
          } else {
            assert w'[i] == w[i] && n'[i] == names[i];
          }
        }
      }
      if forall i :: 0 <= i < |w| && Side(names[i]) == side ==> w[i] == c {
        assert forall i :: 0 <= i < |w'| && Side(n'[i]) == side ==> w'[i] == c;
        forall t | 0 <= t < |r| ensures r[t] == c {
          if t >= |o| {
            assert r[t] == extra[t - |o|];
          }
        }
      }
    }
  }

  /** `magicFormulaRectangle(s, u, v, d_u, d_v)`, applied to the edge-only weights. */
  function MagicFormulaRectangle(ew: seq<int>, names: seq<string>, u: int, v: int, du: int, dv: int): nat
    requires |names| == |ew|
  {
    AbsDeviation(Ordered(OfSide(ew, names, 0), du), u, du) +
    AbsDeviation(Ordered(OfSide(ew, names, 1), dv), v, dv)
  }

  /** `isMagic_Rect(s, u, v)`: every '0' vertex weighs `u` and every '1' vertex weighs `v`. */
  predicate IsMagicRect(w: seq<int>, names: seq<string>, u: int, v: int)
    requires |names| == |w|
  {
    forall i :: 0 <= i < |w| ==> (Side(names[i]) == 0 ==> w[i] == u) && (Side(names[i]) == 1 ==> w[i] == v)
  }

  /** With zero steps the rectangle formula vanishes exactly when rows sum to `u` and columns to `v`. */
  lemma RectangleFormulaZero(ew: seq<int>, names: seq<string>, u: int, v: int)
    requires |names| == |ew|
    ensures MagicFormulaRectangle(ew, names, u, v, 0, 0) == 0 <==> IsMagicRect(ew, names, u, v)
  {
    AbsDeviationZero(OfSide(ew, names, 0), u, 0);
    AbsDeviationZero(OfSide(ew, names, 1), v, 0);
    OfSideAllEqual(ew, names, 0, u);
    OfSideAllEqual(ew, names, 1, v);
  }

  // ---------------------------------------------------------------- objectives

  /** The `method` codes 0..6 of the search, with the parameters each one reads. */
  datatype Objective =
    | Magic(k: int, kd: int)                         // 0: magicFormula(k, d_k)
    | MagicRect(u: int, v: int, du: int, dv: int)    // 1: magicFormulaRectangle(k, l, d_k, d_l)
    | MagicUnknownConst                              // 2: magicFormulaUnknownConst
    | AntimagicKnownStep(d: int)                     // 3: antimagicFormulaKnownStep(d_k)
    | AntimagicUnknownConst                          // 4: antimagicFormulaUnknownConst
    | AntimagicKnownConst(a: int)                    // 5: antimagicFormulaKnownConst(k)
    | AllDifferent                                   // 6: allDifferentFormula

  /** What a score depends on besides the labels: the objective, the incidence lists and the vertex names. */
  datatype Problem = Problem(obj: Objective, adj: seq<seq<nat>>, names: seq<string>)

  predicate Defined(P: Problem, L: Labeling)
  {
    Fits(P.adj, L) && |P.names| == |L.v|
  }

  /** The value the chosen formula gives the labeling. */
  function Score(P: Problem, L: Labeling): nat
    requires Defined(P, L)
  {
    var w := Weights(L, P.adj);
    match P.obj
    case Magic(k, kd) => MagicFormula(w, k, kd)
    case MagicRect(u, v, du, dv) => MagicFormulaRectangle(EdgeWeights(L, P.adj), P.names, u, v, du, dv)
    case MagicUnknownConst => VarianceScaled(w)
    case AntimagicKnownStep(d) => AntimagicFormulaKnownStep(w, d)
    case AntimagicUnknownConst => AntimagicFormulaUnknownConst(w)
    case AntimagicKnownConst(a) => AntimagicFormulaKnownConst(w, a)
    case AllDifferent => AllDifferentFormula(w)
  }

  /** The bound `precision` on the scale of Score (the variance is scaled by n*n). */
  function Threshold(obj: Objective, n: nat, precision: int): int
  {
    if obj.MagicUnknownConst? then n * n * precision else precision
  }
}
