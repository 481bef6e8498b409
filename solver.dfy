/**
 * The solver of Solver.c: a graph with the incident-edge list of every
 * vertex (`createSolver`), the score functions and predicates computed from
 * the current labels, and the neighbourhood operators that swap labels in
 * place, try a candidate and undo it.
 *
 * Every score method is proved equal to the function of the same name in
 * Scores applied to the current labels; every operator is proved to leave
 * the labels as the corresponding function of Moves says.
 */
module Solving {
  import opened Seqs
  import opened Sorting
  import opened Scores
  import opened Graphs
  import opened Labelings
  import opened Moves
  import opened Perturb
  import Utils

  /** t holds the incident edges of the first i vertices, in order. */
  predicate IncidenceUpTo(t: seq<seq<nat>>, es: seq<Edge>, i: nat)
  {
    |t| == i && forall k :: 0 <= k < i ==> t[k] == Incident(es, k)
  }

  lemma IncidenceStep(t: seq<seq<nat>>, es: seq<Edge>, i: nat, r: seq<nat>)
    requires IncidenceUpTo(t, es, i) && r == Incident(es, i)
    ensures IncidenceUpTo(t + [r], es, i + 1)
  {
    assert forall k :: 0 <= k < i ==> (t + [r])[k] == t[k];
  }

  /** Incidence lists only name edges that exist. */
  lemma IncidenceBounded(t: seq<seq<nat>>, es: seq<Edge>, n: nat)
    requires IncidenceUpTo(t, es, n)
    ensures forall i :: 0 <= i < n ==> t[i] == Incident(es, i)
    ensures forall i, k :: 0 <= i < |t| && 0 <= k < |t[i]| ==> t[i][k] < |es|
  {
  }

  // ---------------------------------------------------------------- label swaps

  /** Vertices i and j exchange labels (the three-line `temp` swap). */
  method SwapVertexLabels(g: Graph, i: nat, j: nat)
    requires g.Valid() && i < g.nbv && j < g.nbv
    modifies g.vertices
    ensures g.Labels() == old(g.Labels()).(v := Swap(old(g.Labels()).v, i, j))
    ensures OnlyLabelsChanged(g)
  {
    var temp := g.vertices[i].lab;
    g.vertices[i] := g.vertices[i].(lab := g.vertices[j].lab);
    g.vertices[j] := g.vertices[j].(lab := temp);
    assert VLabels(g.Vertices()) == Swap(old(VLabels(g.Vertices())), i, j);
    RelabeledOwn(g.edges[..], g.nbe);
    assert g.edges[..][..g.nbe] == g.Edges();
  }

  /** Edges i and j exchange labels. */
  method SwapEdgeLabels(g: Graph, i: nat, j: nat)
    requires g.Valid() && i < g.nbe && j < g.nbe
    modifies g.edges
    ensures g.Labels() == old(g.Labels()).(e := Swap(old(g.Labels()).e, i, j))
    ensures OnlyLabelsChanged(g)
  {
    var temp := g.edges[i].lab;
    g.edges[i] := g.edges[i].(lab := g.edges[j].lab);
    g.edges[j] := g.edges[j].(lab := temp);
    assert ELabels(g.Edges()) == Swap(old(ELabels(g.Edges())), i, j);
    VRelabeledOwn(g.vertices[..], g.nbv);
    assert g.vertices[..][..g.nbv] == g.Vertices();
  }

  /** Vertex i and edge j exchange labels. */
  method SwapVertexEdgeLabels(g: Graph, i: nat, j: nat)
    requires g.Valid() && i < g.nbv && j < g.nbe
    modifies g.vertices, g.edges
    ensures g.Labels() == SwapVE(old(g.Labels()), i, j)
    ensures OnlyLabelsChanged(g)
  {
    var temp := g.vertices[i].lab;
    g.vertices[i] := g.vertices[i].(lab := g.edges[j].lab);
    g.edges[j] := g.edges[j].(lab := temp);
    assert VLabels(g.Vertices()) == old(VLabels(g.Vertices()))[i := old(ELabels(g.Edges()))[j]];
    assert ELabels(g.Edges()) == old(ELabels(g.Edges()))[j := old(VLabels(g.Vertices()))[i]];
  }

  // ---------------------------------------------------------------- checksum

  /**
   * `checksumLabel`: the labels of the n vertices and m edges add up to
   * 1 + 2 + ... + (n + m). The source prints the graph when they do not.
   */
  method ChecksumLabel(g: Graph) returns (ok: bool)
    requires g.Valid()
    ensures ok <==> 2 * Sum(AllLabels(g)) == (g.nbv + g.nbe) * (g.nbv + g.nbe + 1)
  {
    var n, m := g.nbv, g.nbe;
    var goal := (n + m) * (n + m + 1) / 2;
    var res := SumVertexLabels(g);
    var res2 := SumEdgeLabels(g);
    res := res + res2;
    SumAppend(VLabels(g.Vertices()), ELabels(g.Edges()));
    HalfProduct(n + m);
    assert 2 * goal == (n + m) * (n + m + 1);
    ok := res == goal;
    assert ok <==> 2 * res == 2 * goal;
  }

  /** The first loop of `checksumLabel`. */
  method SumVertexLabels(g: Graph) returns (res: int)
    requires g.Valid()
    ensures res == Sum(VLabels(g.Vertices()))
  {
    ghost var s := VLabels(g.Vertices());
    res := 0;
    var i := 0;
    while i < g.nbv
      invariant 0 <= i <= g.nbv && res == Sum(s[..i])
    {
      assert g.vertices[i].lab == s[i];
      assert s[..i + 1] == s[..i] + [s[i]];
      SumAppend(s[..i], [s[i]]);
      res := res + g.vertices[i].lab;
      i := i + 1;
    }
    assert s[..i] == s;
  }

  /** The second loop of `checksumLabel`. */
  method SumEdgeLabels(g: Graph) returns (res: int)
    requires g.Valid()
    ensures res == Sum(ELabels(g.Edges()))
  {
    ghost var s := ELabels(g.Edges());
    res := 0;
    var i := 0;
    while i < g.nbe
      invariant 0 <= i <= g.nbe && res == Sum(s[..i])
    {
      assert g.edges[i].lab == s[i];
      assert s[..i + 1] == s[..i] + [s[i]];
      SumAppend(s[..i], [s[i]]);
      res := res + g.edges[i].lab;
      i := i + 1;
    }
    assert s[..i] == s;
  }

  /** n(n+1) is even, so `goal` is exact. */
  lemma HalfProduct(n: int)
    ensures 2 * (n * (n + 1) / 2) == n * (n + 1)
  {
    Utils.HalfOfConsecutive(n + 1);
    assert n * (n + 1) == (n + 1) * n;
  }

  /** The labels 1..n+m in any order pass the checksum. */
  lemma ChecksumOfPermutation(s: seq<int>)
    requires multiset(s) == multiset(OneTo(|s|))
    ensures 2 * Sum(s) == |s| * (|s| + 1)
  {
    SumPermutation(s, OneTo(|s|));
    SumOneTo(|s|);
  }

  /** The checksum alone does not make a labeling a permutation: 2, 2, 2 passes it. */
  lemma ChecksumNotSufficient()
    ensures var s := [2, 2, 2]; 2 * Sum(s) == |s| * (|s| + 1) && multiset(s) != multiset(OneTo(|s|))
  {
    var s := [2, 2, 2];
    assert s[..2][..1] == [2] && s[..2] == [2, 2];
    assert Sum([2]) == 2 by { assert [2][..0] == []; }
    assert 1 in multiset(OneTo(3)) by { assert OneTo(3)[0] == 1; }
  }

  // ---------------------------------------------------------------- sorting and folds

  /** The `qsort` calls of the formulas: `cmp_inv` for a negative step, `cmp` for a positive one. */
  method Arrange(w: seq<int>, d: int) returns (r: seq<int>)
    ensures r == Ordered(w, d)
  {
    r := w;
    if d < 0 {
      r := QsortDesc(w);
      SortDescAsReverse(w, r);
    }
    if d > 0 {
      r := Qsort(w);
      SortAscUnique(w, r);
    }
  }

  /** `qsort(weights, nb, sizeof(int), cmp)`. */
  method SortUp(w: seq<int>) returns (r: seq<int>)
    ensures r == SortAsc(w)
  {
    r := Qsort(w);
    SortAscUnique(w, r);
  }

  /** The loop `res += abs(w[i] - k - i * d)`. */
  method AbsDeviations(w: seq<int>, k: int, d: int) returns (res: nat)
    ensures res == AbsDeviation(w, k, d)
  {
    res := 0;
    var i := 0;
    while i < |w|
      invariant 0 <= i <= |w|
      invariant res == AbsDeviation(w[..i], k, d)
    {
      assert w[..i + 1][..i] == w[..i];
      res := res + Abs(w[i] - k - i * d);
      i := i + 1;
    }
    assert w[..i] == w;
  }

  /** The loop `for (i = 0; i < nb - 1; i++) res += (w[i+1] - w[i] - d)^2`. */
  method GapSquares(w: seq<int>, d: int) returns (res: nat)
    ensures res == GapDeviation(w, d)
  {
    res := 0;
    var i := 0;
    while i < |w| - 1
      invariant |w| == 0 ==> i == 0 && res == 0
      invariant |w| > 0 ==> 0 <= i <= |w| - 1 && res == GapDeviation(w[..i + 1], d)
    {
      assert w[..i + 2][..i + 1] == w[..i + 1];
      res := res + Sq(w[i + 1] - w[i] - d);
      i := i + 1;
    }
    if |w| > 0 {
      assert w[..i + 1] == w;
    }
  }

  /**
   * The gap-sum loop and `moyenne = res / (nb - 1)`: the gaps of the sorted
   * weights add up to last - first, and the float quotient is truncated
   * toward zero. With no vertex the quotient is 0 / -1 = 0. With one vertex
   * it is 0 / 0, a NaN whose conversion to int C leaves undefined: any value.
   */
  method MeanOfGaps(w: seq<int>) returns (moyenne: int)
    ensures |w| != 1 ==> moyenne == MeanGap(w)
  {
    var res := 0;
    var i := 0;
    while i < |w| - 1
      invariant |w| == 0 ==> i == 0 && res == 0
      invariant |w| > 0 ==> 0 <= i <= |w| - 1 && res == w[i] - w[0]
    {
      res := res + (w[i + 1] - w[i]);
      i := i + 1;
    }
    if |w| == 0 {
      moyenne := 0;
    } else if |w| == 1 {
      moyenne :| true;
    } else {
      moyenne := Utils.CDiv(res, |w| - 1);
    }
  }

  /** The loop `res += (w[i] - (a + i * d))^2`. */
  method ProgSquares(w: seq<int>, a: int, d: int) returns (res: nat)
    ensures res == ProgDeviation(w, a, d)
  {
    res := 0;
    var i := 0;
    while i < |w|
      invariant 0 <= i <= |w|
      invariant res == ProgDeviation(w[..i], a, d)
    {
      assert w[..i + 1][..i] == w[..i];
      res := res + Sq(w[i] - (a + i * d));
      i := i + 1;
    }
    assert w[..i] == w;
  }

  /** The loop `res += (w[i+1] == w[i])`. */
  method CountAdjacentEqual(w: seq<int>) returns (res: nat)
    ensures res == AdjacentEqual(w)
  {
    res := 0;
    var i := 0;
    while i < |w| - 1
      invariant |w| == 0 ==> i == 0 && res == 0
      invariant |w| > 0 ==> 0 <= i <= |w| - 1 && res == AdjacentEqual(w[..i + 1])
    {
      assert w[..i + 2][..i + 1] == w[..i + 1];
      res := res + (if w[i + 1] == w[i] then 1 else 0);
      i := i + 1;
    }
    if |w| > 0 {
      assert w[..i + 1] == w;
    }
  }

  /** The loop of `magicFormulaUnknownConst` on the scale n*n: the sum of (n * w[i] - total)^2. */
  method ScaledSquareSum(w: seq<int>, total: int) returns (res: nat)
    ensures res == ScaledSquares(w, |w|, total)
  {
    res := 0;
    var i := 0;
    while i < |w|
      invariant 0 <= i <= |w|
      invariant res == ScaledSquares(w[..i], |w|, total)
    {
      assert w[..i + 1][..i] == w[..i];
      res := res + Sq(|w| * w[i] - total);
      i := i + 1;
    }
    assert w[..i] == w;
  }

  /** The running sum of the weights. */
  method Total(w: seq<int>) returns (res: int)
    ensures res == Sum(w)
  {
    res := 0;
    var i := 0;
    while i < |w|
      invariant 0 <= i <= |w|
      invariant res == Sum(w[..i])
    {
      assert w[..i + 1] == w[..i] + [w[i]];
      SumAppend(w[..i], [w[i]]);
      res := res + w[i];
      i := i + 1;
    }
    assert w[..i] == w;
  }

  /** The rectangle split: `name[1] == '0'` goes to the first list, `'1'` to the second. */
  method SplitSides(w: seq<int>, names: seq<string>) returns (col: seq<int>, lign: seq<int>)
    requires |names| == |w|
    ensures col == OfSide(w, names, 0) && lign == OfSide(w, names, 1)
  {
    col, lign := [], [];
    var i := 0;
    while i < |w|
      invariant 0 <= i <= |w|
      invariant col == OfSide(w[..i], names[..i], 0) && lign == OfSide(w[..i], names[..i], 1)
    {
      assert w[..i + 1][..i] == w[..i] && names[..i + 1][..i] == names[..i];
      if Side(names[i]) == 0 {
        col := col + [w[i]];
      } else if Side(names[i]) == 1 {
        lign := lign + [w[i]];
      }
      i := i + 1;
    }
    assert w[..i] == w && names[..i] == names;
  }

  /** The gap test shared by the antimagic predicates: stops at the first i with w[i+1] - w[i] != d. */
  method AllGaps(w: seq<int>, d: int) returns (ok: bool)
    ensures ok <==> Gaps(w, d)
  {
    var i := 0;
    while i < |w| - 1
      invariant |w| == 0 ==> i == 0
      invariant |w| > 0 ==> 0 <= i <= |w| - 1
      invariant forall t :: 0 <= t < i ==> w[t + 1] - w[t] == d
    {
      if w[i + 1] - w[i] != d {
        return false;
      }
      i := i + 1;
    }
    return true;
  }

  lemma GapsExtend(w: seq<int>, i: nat, d: int)
    requires i + 1 < |w|
    ensures Gaps(w[..i + 2], d) <==> Gaps(w[..i + 1], d) && w[i + 1] - w[i] == d
  {
    assert forall t :: 0 <= t < i + 1 ==> w[..i + 2][t] == w[..i + 1][t] == w[t];
    assert w[..i + 2][i + 1] == w[i + 1];
  }

  /**
   * The loop of `getAntimagicConst` on the sorted weights: d is the first
   * gap; once a later gap differs, weights[0] and d are both set to 0 (and
   * the remaining gaps are compared with 0).
   */
  method ConstAndStep(w: seq<int>) returns (k: int, dk: int)
    requires |w| >= 2
    ensures (k, dk) == ProgressionConst(w)
  {
    ghost var d0 := w[1] - w[0];
    ghost var ok := true;
    k, dk := w[0], w[1] - w[0];
    var i := 1;
    assert Gaps(w[..2], d0);
    while i < |w| - 1
      invariant 1 <= i <= |w| - 1
      invariant ok <==> Gaps(w[..i + 1], d0)
      invariant (k, dk) == if ok then (w[0], d0) else (0, 0)
    {
      GapsExtend(w, i, d0);
      ok := ok && w[i + 1] - w[i] == d0;
      if w[i + 1] - w[i] != dk {
        k := 0;
        dk := 0;
      }
      i := i + 1;
    }
    assert w[..i + 1] == w;
  }

  // ---------------------------------------------------------------- the solver

  class Solver {
    const g: Graph
    /** tab[i]: the indices of the edges incident to vertex i, in edge order. */
    const tab: seq<seq<nat>>
    /** The vertex names, read by the rectangle score. */
    const names: seq<string>

    predicate Valid()
      reads this, g
    {
      g.Valid() && |tab| == g.nbv && |names| == g.nbv &&
      forall i, k :: 0 <= i < |tab| && 0 <= k < |tab[i]| ==> tab[i][k] < g.nbe
    }

    function Labels(): Labeling
      reads this, g, g.vertices, g.edges
      requires Valid()
    {
      g.Labels()
    }

    /** What the score of `obj` depends on besides the labels. */
    function Prob(obj: Objective): Problem
    {
      Problem(obj, tab, names)
    }

    lemma Sizes()
      requires Valid()
      ensures |Labels().v| == g.nbv && |Labels().e| == g.nbe
    {
    }

    lemma Fitting()
      requires Valid()
      ensures Fits(tab, Labels()) && |names| == |Labels().v|
    {
    }

    /** `createSolver`: tab[i] is `getIssuedEdges` of vertex i. */
    constructor (g: Graph)
      requires g.Valid()
      ensures this.g == g && Valid()
      ensures forall i :: 0 <= i < g.nbv ==> tab[i] == Incident(g.Edges(), i)
      ensures names == Names(g.Vertices())
    {
      ghost var es := g.Edges();
      var t: seq<seq<nat>> := [];
      var i := 0;
      while i < g.nbv
        invariant 0 <= i <= g.nbv && IncidenceUpTo(t, es, i)
      {
        var r := g.GetIssuedEdges(i);
        IncidenceStep(t, es, i, r);
        t := t + [r];
        i := i + 1;
      }
      IncidenceBounded(t, es, i);
      this.g := g;
      tab := t;
      names := Names(g.Vertices());
    }

    /** The inner loop of every weight: the labels of the edges incident to vertex i. */
    method IncidentSum(i: nat) returns (s: int)
      requires Valid() && i < g.nbv
      ensures s == EdgeSum(Labels().e, tab[i])
    {
      s := 0;
      var j := 0;
      while j < |tab[i]|
        invariant 0 <= j <= |tab[i]|
        invariant s == EdgeSum(Labels().e, tab[i][..j])
      {
        assert tab[i][..j + 1][..j] == tab[i][..j];
        s := s + g.edges[tab[i][j]].lab;
        j := j + 1;
      }
      assert tab[i][..j] == tab[i];
    }

    /** The weight loop of the formulas: `weights[i]` is vertex i's label plus its edge labels. */
    method ComputeWeights() returns (w: seq<int>)
      requires Valid()
      ensures w == Weights(Labels(), tab)
    {
      w := [];
      var i := 0;
      while i < g.nbv
        invariant 0 <= i <= g.nbv
        invariant w == Weights(Labels(), tab)[..i]
      {
        var s := IncidentSum(i);
        w := w + [g.vertices[i].lab + s];
        i := i + 1;
      }
    }

    /** The weight loop of `magicFormulaRectangle`: `temp` starts at 0, so only edge labels count. */
    method ComputeEdgeWeights() returns (w: seq<int>)
      requires Valid()
      ensures w == EdgeWeights(Labels(), tab)
    {
      w := [];
      var i := 0;
      while i < g.nbv
        invariant 0 <= i <= g.nbv
        invariant w == EdgeWeights(Labels(), tab)[..i]
      {
        var s := IncidentSum(i);
        w := w + [s];
        i := i + 1;
      }
    }

    /** `magicFormula(s, k, k_d)`. */
    method MagicFormula(k: int, kd: int) returns (r: nat)
      requires Valid()
      ensures r == Scores.MagicFormula(Weights(Labels(), tab), k, kd)
    {
      var w := ComputeWeights();
      w := Arrange(w, kd);
      r := AbsDeviations(w, k, kd);
    }

    /** `magicFormulaUnknownConst`, scaled by nb * nb so that it stays an integer. */
    method MagicFormulaUnknownConst() returns (r: nat)
      requires Valid()
      ensures r == VarianceScaled(Weights(Labels(), tab))
    {
      var w := ComputeWeights();
      var total := Total(w);
      r := ScaledSquareSum(w, total);
    }

    /** `antimagicFormulaKnownStep(s, d)`. */
    method AntimagicFormulaKnownStep(d: int) returns (r: nat)
      requires Valid()
      ensures r == Scores.AntimagicFormulaKnownStep(Weights(Labels(), tab), d)
    {
      var w := ComputeWeights();
      w := Arrange(w, d);
      r := GapSquares(w, d);
    }

    /** `antimagicFormulaUnknownConst`; with one vertex the undefined mean is never read. */
    method AntimagicFormulaUnknownConst() returns (r: nat)
      requires Valid()
      ensures r == Scores.AntimagicFormulaUnknownConst(Weights(Labels(), tab))
    {
      var w := ComputeWeights();
      w := SortUp(w);
      var moyenne := MeanOfGaps(w);
      r := GapSquares(w, moyenne);
    }

    /** `antimagicFormulaKnownConst(s, a)`; with one vertex the undefined mean is multiplied by 0. */
    method AntimagicFormulaKnownConst(a: int) returns (r: nat)
      requires Valid()
      ensures r == Scores.AntimagicFormulaKnownConst(Weights(Labels(), tab), a)
    {
      var w := ComputeWeights();
      w := SortUp(w);
      var moyenne := MeanOfGaps(w);
      r := ProgSquares(w, a, moyenne);
      if |w| == 1 {
        assert w[..0] == [];
        assert r == Sq(w[0] - a) == ProgDeviation(w, a, MeanGap(w));
      }
    }

    /** `allDifferentFormula`. */
    method AllDifferentFormula() returns (r: nat)
      requires Valid()
      ensures r == Scores.AllDifferentFormula(Weights(Labels(), tab))
    {
      var w := ComputeWeights();
      w := SortUp(w);
      r := CountAdjacentEqual(w);
    }

    /** `magicFormulaRectangle(s, u, v, d_u, d_v)`. */
    method MagicFormulaRectangle(u: int, v: int, du: int, dv: int) returns (r: nat)
      requires Valid()
      ensures r == Scores.MagicFormulaRectangle(EdgeWeights(Labels(), tab), names, u, v, du, dv)
    {
      var w := ComputeEdgeWeights();
      var col, lign := SplitSides(w, names);
      col := Arrange(col, du);
      lign := Arrange(lign, dv);
      var r1 := AbsDeviations(col, u, du);
      var r2 := AbsDeviations(lign, v, dv);
      r := r1 + r2;
    }

    /** The formula of `obj` on the current labels (the `if (method == ...)` chains). */
    method Evaluate(obj: Objective) returns (r: nat)
      requires Valid() && Defined(Prob(obj), Labels())
      ensures r == Score(Prob(obj), Labels())
    {
      match obj
      case Magic(k, kd) => r := MagicFormula(k, kd);
      case MagicRect(u, v, du, dv) => r := MagicFormulaRectangle(u, v, du, dv);
      case MagicUnknownConst => r := MagicFormulaUnknownConst();
      case AntimagicKnownStep(d) => r := AntimagicFormulaKnownStep(d);
      case AntimagicUnknownConst => r := AntimagicFormulaUnknownConst();
      case AntimagicKnownConst(a) => r := AntimagicFormulaKnownConst(a);
      case AllDifferent => r := AllDifferentFormula();
    }

    // ---------------------------------------------------------------- predicates

    /** `isMagic(s, k)`: stops at the first vertex whose weight is not k. */
    method IsMagic(k: int) returns (r: bool)
      requires Valid()
      ensures r <==> Scores.IsMagic(Weights(Labels(), tab), k)
    {
      ghost var w := Weights(Labels(), tab);
      var i := 0;
      while i < g.nbv
        invariant 0 <= i <= g.nbv
        invariant forall t :: 0 <= t < i ==> w[t] == k
      {
        var s := IncidentSum(i);
        assert w[i] == g.vertices[i].lab + s;
        if g.vertices[i].lab + s != k {
          return false;
        }
        i := i + 1;
      }
      return true;
    }

    /** `isMagicUnknwonConst`: every weight equals the first one. */
    method IsMagicUnknownConst() returns (r: bool)
      requires Valid()
      ensures r <==> Scores.IsMagicUnknownConst(Weights(Labels(), tab))
    {
      ghost var w := Weights(Labels(), tab);
      var k := 0;
      var i := 0;
      while i < g.nbv
        invariant 0 <= i <= g.nbv
        invariant i > 0 ==> k == w[0]
        invariant forall t :: 0 <= t < i ==> w[t] == k
      {
        var s := IncidentSum(i);
        var res := g.vertices[i].lab + s;
        assert w[i] == res;
        if i == 0 {
          k := res;
        }
        if res != k {
          return false;
        }
        i := i + 1;
      }
      return true;
    }

    /** `isMagic_Rect(s, u, v)`: the full weights, '0' vertices against u and '1' vertices against v. */
    method IsMagicRect(u: int, v: int) returns (r: bool)
      requires Valid()
      ensures r <==> Scores.IsMagicRect(Weights(Labels(), tab), names, u, v)
    {
      ghost var w := Weights(Labels(), tab);
      var i := 0;
      while i < g.nbv
        invariant 0 <= i <= g.nbv
        invariant forall t :: 0 <= t < i ==>
                    (Side(names[t]) == 0 ==> w[t] == u) && (Side(names[t]) == 1 ==> w[t] == v)
      {
        var s := IncidentSum(i);
        var res := g.vertices[i].lab + s;
        assert w[i] == res;
        if Side(names[i]) == 0 && res != u {
          return false;
        }
        if Side(names[i]) == 1 && res != v {
          return false;
        }
        i := i + 1;
      }
      return true;
    }

    /** `IsAntimagic(s, a, d)`. */
    method IsAntimagic(a: int, d: int) returns (r: bool)
      requires Valid() && g.nbv >= 1
      ensures r <==> Scores.IsAntimagic(Weights(Labels(), tab), a, d)
    {
      var w := ComputeWeights();
      w := SortUp(w);
      if w[0] != a {
        return false;
      }
      r := AllGaps(w, d);
    }

    /** `IsAntimagicStep(s, d)`: the smallest weight when every gap is d, else 0. */
    method IsAntimagicStep(d: int) returns (r: int)
      requires Valid() && g.nbv >= 1
      ensures r == AntimagicStep(Weights(Labels(), tab), d)
    {
      var w := ComputeWeights();
      w := SortUp(w);
      var ok := AllGaps(w, d);
      if !ok {
        return 0;
      }
      return w[0];
    }

    /** `getAntimagicConst(s, &k, &d_k)`. */
    method GetAntimagicConst() returns (k: int, dk: int)
      requires Valid() && g.nbv >= 2
      ensures (k, dk) == AntimagicConst(Weights(Labels(), tab))
    {
      ghost var v := Weights(Labels(), tab);
      var w := ComputeWeights();
      w := SortUp(w);
      assert |w| == |v| >= 2;
      k, dk := ConstAndStep(w);
    }

    // ---------------------------------------------------------------- moves

    /** `permuteIssuedEdges(s, x, a, b)`. */
    method PermuteIssuedEdges(x: nat, a: nat, b: nat)
      requires Valid() && x < g.nbv && a <= |tab[x]| && b <= |tab[x]|
      modifies g.vertices, g.edges
      ensures Labels() == PermuteIssued(old(Labels()), tab[x], x, a, b)
      ensures OnlyLabelsChanged(g)
    {
      if a == b {
        NothingChanged(g);
        return;
      }
      if a == 0 {
        SwapVertexEdgeLabels(g, x, tab[x][b - 1]);
        return;
      }
      if b == 0 {
        SwapVertexEdgeLabels(g, x, tab[x][a - 1]);
        return;
      }
      SwapEdgeLabels(g, tab[x][b - 1], tab[x][a - 1]);
    }

    /** Candidate c of operator K, applied in place. */
    method Move(K: Kind, c: Key)
      requires Valid() && ValidKey(K, Labels(), tab, c)
      modifies g.vertices, g.edges
      ensures Fits(tab, old(Labels())) && Labels() == Apply(K, old(Labels()), tab, c)
      ensures OnlyLabelsChanged(g)
    {
      Fitting();
      match K
      case ByVertex => SwapVertexLabels(g, c.0, c.1);
      case ByEdges => SwapEdgeLabels(g, c.0, c.1);
      case ByVerticesAndEdges => SwapVertexEdgeLabels(g, c.0, c.1);
      case ByIssuedEdges(x) => PermuteIssuedEdges(x, c.0, c.1);
    }

    /** A trial of the scans: candidate c is applied, the score taken, and the move undone. */
    method Try(obj: Objective, K: Kind, c: Key) returns (v: nat)
      requires Valid() && Defined(Prob(obj), Labels()) && ValidKey(K, Labels(), tab, c)
      modifies g.vertices, g.edges
      ensures v == Attempt(Prob(obj), K, old(Labels()), c)
      ensures g.vertices[..] == old(g.vertices[..]) && g.edges[..] == old(g.edges[..])
    {
      ghost var L := Labels();
      ghost var v0, e0 := g.vertices[..], g.edges[..];
      Move(K, c);
      ghost var v1, e1 := g.vertices[..], g.edges[..];
      ghost var L1 := Labels();
      assert v1 == VRelabeled(v0, L1.v) && e1 == Relabeled(e0, L1.e);
      v := Evaluate(obj);
      Move(K, c);
      ApplyTwice(K, L, tab, c);
      assert Labels() == L;
      VRelabeledTwice(v0, L1.v, L.v);
      RelabeledTwice(e0, L1.e, L.e);
      assert g.Vertices() == g.vertices[..][..g.nbv];
      assert L.v == VLabels(v0[..g.nbv]) && L.e == ELabels(e0[..g.nbe]);
      VRelabeledOwn(v0, g.nbv);
      RelabeledOwn(e0, g.nbe);
    }

    /** The labels in the order vertices first, then edges. */
    method LabelAt(p: nat) returns (x: int)
      requires Valid() && p < g.nbv + g.nbe
      ensures x == Joined(Labels())[p]
    {
      if p < g.nbv {
        x := g.vertices[p].lab;
      } else {
        x := g.edges[p - g.nbv].lab;
      }
    }

    /** The `inTab` tests of the scans: candidate c would move a taboo label. */
    method IsTaboo(K: Kind, c: Key, taboo: seq<int>, size: int) returns (b: bool)
      requires Valid() && ValidKey(K, Labels(), tab, c) && size <= |taboo|
      ensures Fits(tab, Labels()) && b == Taboo(K, Labels(), tab, c, taboo, size)
    {
      Fitting();
      var p := Positions(K, Labels(), tab, c);
      var x := LabelAt(p.0);
      var y := LabelAt(p.1);
      var t1 := Utils.InTab(x, taboo, size);
      var t2 := Utils.InTab(y, taboo, size);
      b := t1 || t2;
    }

    // ---------------------------------------------------------------- scans

    /** The two arrays hold vs and es. */
    ghost predicate Holds(vs: seq<Vertex>, es: seq<Edge>)
      reads g, g.vertices, g.edges
    {
      g.vertices[..] == vs && g.edges[..] == es
    }

    /** One candidate of a scan: tried unless taboo, kept when strictly lower than the best so far. */
    method ScanStep(obj: Objective, K: Kind, c: Key, taboo: seq<int>, size: int, ghost vs: seq<Vertex>,
                    ghost es: seq<Edge>, ghost score: Key -> nat, ghost skip: Key -> bool,
                    ghost init: nat, ghost ks: seq<Key>, best0: nat, bi0: nat, bj0: nat)
      returns (best: nat, bi: nat, bj: nat)
      requires Valid() && Holds(vs, es) && Defined(Prob(obj), Labels()) && size <= |taboo|
      requires ValidKey(K, Labels(), tab, c) && ScanFns(score, skip, Prob(obj), K, Labels(), taboo, size)
      requires (best0, (bi0, bj0)) == Scan(init, ks, score, skip)
      modifies g.vertices, g.edges
      ensures Holds(vs, es)
      ensures (best, (bi, bj)) == Scan(init, ks + [c], score, skip)
    {
      ScanAppend(init, ks, c, score, skip);
      best, bi, bj := best0, bi0, bj0;
      var t := IsTaboo(K, c, taboo, size);
      assert t == Banned(K, Labels(), tab, taboo, size, c);
      if !t {
        var v := Try(obj, K, c);
        if v < best {
          best, bi, bj := v, c.0, c.1;
        }
      }
    }

    /**
     * One run of an inner loop: the candidates (0, j), ..., (m - 1, j), each
     * tried unless taboo, a trial replacing the best only when strictly lower.
     */
    method ScanColumn(obj: Objective, K: Kind, m: nat, j: nat, taboo: seq<int>, size: int, ghost L: Labeling,
                      ghost vs: seq<Vertex>, ghost es: seq<Edge>, ghost score: Key -> nat, ghost skip: Key -> bool,
                      ghost init: nat, ghost before: seq<Key>, best0: nat, bi0: nat, bj0: nat)
      returns (best: nat, bi: nat, bj: nat)
      requires Valid() && Holds(vs, es) && g.nbv <= |vs| && g.nbe <= |es| && L == ArrayLabels(vs, es, g.nbv, g.nbe)
      requires Defined(Prob(obj), L) && size <= |taboo| && ScanFns(score, skip, Prob(obj), K, L, taboo, size)
      requires forall i :: 0 <= i < m ==> ValidKey(K, L, tab, (i, j))
      requires (best0, (bi0, bj0)) == Scan(init, before, score, skip)
      modifies g.vertices, g.edges
      ensures Holds(vs, es)
      ensures (best, (bi, bj)) == Scan(init, before + Column(m, j), score, skip)
    {
      best, bi, bj := best0, bi0, bj0;
      var i := 0;
      assert before + Column(m, j)[..0] == before;
      while i < m
        invariant 0 <= i <= m && Holds(vs, es)
        invariant (best, (bi, bj)) == Scan(init, before + Column(m, j)[..i], score, skip)
      {
        ColumnPrefix(before, m, j, i);
        g.LabelsOfArrays();
        ghost var ks := before + Column(m, j)[..i];
        best, bi, bj := ScanStep(obj, K, (i, j), taboo, size, vs, es, score, skip, init, ks, best, bi, bj);
        i := i + 1;
      }
      assert Column(m, j)[..m] == Column(m, j);
    }

    /** One column of the triangular scan: the pairs (i, j) with i < j. */
    method TriColumn(obj: Objective, K: Kind, n: nat, j: nat, taboo: seq<int>, size: int, ghost L: Labeling,
                     ghost vs: seq<Vertex>, ghost es: seq<Edge>, ghost nv0: nat, ghost ne0: nat, ghost score: Key -> nat, ghost skip: Key -> bool,
                     ghost init: nat, ghost before: seq<Key>, best0: nat, bi0: nat, bj0: nat)
      returns (best: nat, bi: nat, bj: nat)
      requires Valid() && Holds(vs, es) && nv0 == g.nbv && ne0 == g.nbe && nv0 <= |vs| && ne0 <= |es| && L == ArrayLabels(vs, es, nv0, ne0)
      requires Defined(Prob(obj), L) && size <= |taboo| && ScanFns(score, skip, Prob(obj), K, L, taboo, size)
      requires j < n && forall a: nat, b: nat :: a < b < n ==> ValidKey(K, L, tab, (a, b))
      requires (best0, (bi0, bj0)) == Scan(init, before, score, skip)
      modifies g.vertices, g.edges
      ensures Holds(vs, es)
      ensures (best, (bi, bj)) == Scan(init, before + Column(j, j), score, skip)
    {
      best, bi, bj := ScanColumn(obj, K, j, j, taboo, size, L, vs, es, score, skip, init, before, best0, bi0, bj0);
    }

    /** The loops `for (j = 1; j < n; j++) for (i = 0; i < j; i++)`, from the score `init`. */
    method TriLoop(obj: Objective, K: Kind, n: nat, taboo: seq<int>, size: int, ghost L: Labeling,
                   ghost vs: seq<Vertex>, ghost es: seq<Edge>, ghost nv0: nat, ghost ne0: nat, ghost score: Key -> nat, ghost skip: Key -> bool, init: nat)
      returns (best: nat, bi: nat, bj: nat)
      requires Valid() && Holds(vs, es) && nv0 == g.nbv && ne0 == g.nbe && nv0 <= |vs| && ne0 <= |es| && L == ArrayLabels(vs, es, nv0, ne0)
      requires Defined(Prob(obj), L) && size <= |taboo| && ScanFns(score, skip, Prob(obj), K, L, taboo, size)
      requires forall a: nat, b: nat :: a < b < n ==> ValidKey(K, L, tab, (a, b))
      modifies g.vertices, g.edges
      ensures Holds(vs, es)
      ensures (best, (bi, bj)) == Scan(init, TriKeys(n), score, skip)
    {
      best, bi, bj := init, 0, 0;
      TriKeysStart(n);
      var j := 1;
      ghost var keys: seq<Key> := [];
      while j < n
        invariant 1 <= j && (j <= n || j == 1) && keys == TriKeys(j) && Holds(vs, es)
        invariant (best, (bi, bj)) == Scan(init, keys, score, skip)
      {
        best, bi, bj := TriColumn(obj, K, n, j, taboo, size, L, vs, es, nv0, ne0, score, skip, init, keys, best, bi, bj);
        TriKeysStep(j);
        keys, j := keys + Column(j, j), j + 1;
      }
      assert TriKeys(j) == TriKeys(n);
    }

    /** The scans of the vertex, edge and incident-edge operators, from the current score. */
    method ScanTri(obj: Objective, K: Kind, n: nat, taboo: seq<int>, size: int)
      returns (init: nat, best: nat, bi: nat, bj: nat)
      requires Valid() && Defined(Prob(obj), Labels()) && size <= |taboo| && KindFits(K, tab)
      requires Keys(K, Labels(), tab) == TriKeys(n)
      requires forall a: nat, b: nat :: a < b < n ==> ValidKey(K, Labels(), tab, (a, b))
      modifies g.vertices, g.edges
      ensures g.vertices[..] == old(g.vertices[..]) && g.edges[..] == old(g.edges[..])
      ensures init == Score(Prob(obj), old(Labels()))
      ensures (best, (bi, bj)) == Best(Prob(obj), K, old(Labels()), taboo, size)
    {
      ghost var L, vs, es := Labels(), g.vertices[..], g.edges[..];
      g.LabelsOfArrays();
      TrialScanFns(Prob(obj), K, L, taboo, size);
      init := Evaluate(obj);
      best, bi, bj := TriLoop(obj, K, n, taboo, size, L, vs, es, g.nbv, g.nbe, Trial(Prob(obj), K, L), Skip(K, L, tab, taboo, size), init);
    }

    /** One column of a rectangular scan: the pairs (i, j) with i < nv. */
    method RectColumn(obj: Objective, K: Kind, nv: nat, ne: nat, j: nat, taboo: seq<int>, size: int, ghost L: Labeling,
                      ghost vs: seq<Vertex>, ghost es: seq<Edge>, ghost score: Key -> nat, ghost skip: Key -> bool,
                      ghost init: nat, ghost before: seq<Key>, best0: nat, bi0: nat, bj0: nat)
      returns (best: nat, bi: nat, bj: nat)
      requires Valid() && Holds(vs, es) && g.nbv <= |vs| && g.nbe <= |es| && L == ArrayLabels(vs, es, g.nbv, g.nbe)
      requires Defined(Prob(obj), L) && size <= |taboo| && ScanFns(score, skip, Prob(obj), K, L, taboo, size)
      requires j < ne && forall a: nat, b: nat :: a < nv && b < ne ==> ValidKey(K, L, tab, (a, b))
      requires (best0, (bi0, bj0)) == Scan(init, before, score, skip)
      modifies g.vertices, g.edges
      ensures Holds(vs, es)
      ensures (best, (bi, bj)) == Scan(init, before + Column(nv, j), score, skip)
    {
      best, bi, bj := ScanColumn(obj, K, nv, j, taboo, size, L, vs, es, score, skip, init, before, best0, bi0, bj0);
    }

    /** The loops `for (j = 0; j < ne; j++) for (i = 0; i < nv; i++)`, from the score `init`. */
    method RectLoop(obj: Objective, K: Kind, nv: nat, ne: nat, taboo: seq<int>, size: int, ghost L: Labeling,
                    ghost vs: seq<Vertex>, ghost es: seq<Edge>, ghost score: Key -> nat, ghost skip: Key -> bool, init: nat)
      returns (best: nat, bi: nat, bj: nat)
      requires Valid() && Holds(vs, es) && g.nbv <= |vs| && g.nbe <= |es| && L == ArrayLabels(vs, es, g.nbv, g.nbe)
      requires Defined(Prob(obj), L) && size <= |taboo| && ScanFns(score, skip, Prob(obj), K, L, taboo, size)
      requires forall a: nat, b: nat :: a < nv && b < ne ==> ValidKey(K, L, tab, (a, b))
      modifies g.vertices, g.edges
      ensures Holds(vs, es)
      ensures (best, (bi, bj)) == Scan(init, RectKeys(nv, ne), score, skip)
    {
      best, bi, bj := init, 0, 0;
      var j := 0;
      ghost var keys: seq<Key> := [];
      assert RectKeys(nv, 0) == [];
      while j < ne
        invariant 0 <= j <= ne && keys == RectKeys(nv, j) && Holds(vs, es)
        invariant (best, (bi, bj)) == Scan(init, keys, score, skip)
      {
        best, bi, bj := RectColumn(obj, K, nv, ne, j, taboo, size, L, vs, es, score, skip, init, keys, best, bi, bj);
        RectKeysStep(nv, j);
        keys, j := keys + Column(nv, j), j + 1;
      }
    }

    /** The scan of the vertex-edge operator, from the current score. */
    method ScanRect(obj: Objective, taboo: seq<int>, size: int) returns (init: nat, best: nat, bi: nat, bj: nat)
      requires Valid() && Defined(Prob(obj), Labels()) && size <= |taboo|
      modifies g.vertices, g.edges
      ensures g.vertices[..] == old(g.vertices[..]) && g.edges[..] == old(g.edges[..])
      ensures Valid() && Labels() == old(Labels())
      ensures init == Score(Prob(obj), old(Labels()))
      ensures (best, (bi, bj)) == Best(Prob(obj), ByVerticesAndEdges, old(Labels()), taboo, size)
    {
      ghost var L, vs, es := Labels(), g.vertices[..], g.edges[..];
      Sizes();
      var nv, ne := g.nbv, g.nbe;
      assert |L.v| == nv && |L.e| == ne;
      forall a: nat, b: nat | a < nv && b < ne ensures ValidKey(ByVerticesAndEdges, L, tab, (a, b)) {
      }
      g.LabelsOfArrays();
      TrialScanFns(Prob(obj), ByVerticesAndEdges, L, taboo, size);
      init := Evaluate(obj);
      best, bi, bj := RectLoop(obj, ByVerticesAndEdges, nv, ne, taboo, size, L, vs, es,
                               Trial(Prob(obj), ByVerticesAndEdges, L), Skip(ByVerticesAndEdges, L, tab, taboo, size), init);
      assert Keys(ByVerticesAndEdges, L, tab) == RectKeys(nv, ne);
      g.LabelsOfArrays();
    }

    // ---------------------------------------------------------------- operators

    /** `bestGraphByVertex`: the best exchange of two vertex labels, applied unless it is (0, 0). */
    method BestGraphByVertex(obj: Objective, taboo: seq<int>, size: int) returns (found: bool)
      requires Valid() && Defined(Prob(obj), Labels()) && size <= |taboo|
      modifies g.vertices, g.edges
      ensures (found, Labels()) == Step(Prob(obj), ByVertex, old(Labels()), taboo, size)
      ensures OnlyLabelsChanged(g) && SkeletonOf(g) == old(SkeletonOf(g))
    {
      var init, best, bi, bj := ScanTri(obj, ByVertex, g.nbv, taboo, size);
      if bi == 0 && bj == 0 {
        NothingChanged(g);
        SkeletonKept(g);
        return false;
      }
      SwapVertexLabels(g, bi, bj);
      SkeletonKept(g);
      return true;
    }

    /** `bestGraphByEdges`: the best exchange of two edge labels, applied unless it is (0, 0). */
    method BestGraphByEdges(obj: Objective, taboo: seq<int>, size: int) returns (found: bool)
      requires Valid() && Defined(Prob(obj), Labels()) && size <= |taboo|
      modifies g.vertices, g.edges
      ensures (found, Labels()) == Step(Prob(obj), ByEdges, old(Labels()), taboo, size)
      ensures OnlyLabelsChanged(g) && SkeletonOf(g) == old(SkeletonOf(g))
    {
      var init, best, bi, bj := ScanTri(obj, ByEdges, g.nbe, taboo, size);
      if bi == 0 && bj == 0 {
        NothingChanged(g);
        SkeletonKept(g);
        return false;
      }
      SwapEdgeLabels(g, bi, bj);
      SkeletonKept(g);
      return true;
    }

    /**
     * `bestGraphByVertexAndIssuedEdges(..., x, ...)`: the best exchange among
     * vertex x and its incident edges, applied unless it is (0, 0).
     */
    method BestGraphByVertexAndIssuedEdges(obj: Objective, x: nat, taboo: seq<int>, size: int) returns (found: bool)
      requires Valid() && Defined(Prob(obj), Labels()) && size <= |taboo| && x < g.nbv
      modifies g.vertices, g.edges
      ensures (found, Labels()) == Step(Prob(obj), ByIssuedEdges(x), old(Labels()), taboo, size)
      ensures OnlyLabelsChanged(g) && SkeletonOf(g) == old(SkeletonOf(g))
    {
      var init, best, bi, bj := ScanTri(obj, ByIssuedEdges(x), |tab[x]| + 1, taboo, size);
      if bi == 0 && bj == 0 {
        NothingChanged(g);
        SkeletonKept(g);
        return false;
      }
      PermuteIssuedEdges(x, bi, bj);
      SkeletonKept(g);
      return true;
    }

    /**
     * `bestGraphByVerticesAndEdges` as written: the best exchange of a vertex
     * label with an edge label, applied unless it is (0, 0), which is also a
     * candidate (vertex 0 with edge 0).
     */
    method BestGraphByVerticesAndEdges(obj: Objective, taboo: seq<int>, size: int) returns (found: bool)
      requires Valid() && Defined(Prob(obj), Labels()) && size <= |taboo|
      modifies g.vertices, g.edges
      ensures (found, Labels()) == Step(Prob(obj), ByVerticesAndEdges, old(Labels()), taboo, size)
      ensures OnlyLabelsChanged(g) && SkeletonOf(g) == old(SkeletonOf(g))
    {
      ghost var P, L := Prob(obj), Labels();
      var init, best, bi, bj := ScanRect(obj, taboo, size);
      StepVertexEdge(P, L, taboo, size, (best, (bi, bj)));
      if bi == 0 && bj == 0 {
        NothingChanged(g);
        SkeletonKept(g);
        return false;
      }
      SwapVertexEdgeLabels(g, bi, bj);
      SkeletonKept(g);
      return true;
    }

    /** `bestGraphByVerticesAndEdges` with "nothing found" decided by the score, not by the indices. */
    method BestGraphByVerticesAndEdgesFixed(obj: Objective, taboo: seq<int>, size: int) returns (found: bool)
      requires Valid() && Defined(Prob(obj), Labels()) && size <= |taboo|
      modifies g.vertices, g.edges
      ensures (found, Labels()) == StepFixed(Prob(obj), ByVerticesAndEdges, old(Labels()), taboo, size)
      ensures OnlyLabelsChanged(g) && SkeletonOf(g) == old(SkeletonOf(g))
    {
      ghost var P, L := Prob(obj), Labels();
      var init, best, bi, bj := ScanRect(obj, taboo, size);
      StepVertexEdge(P, L, taboo, size, (best, (bi, bj)));
      if !(best < init) {
        NothingChanged(g);
        SkeletonKept(g);
        return false;
      }
      SwapVertexEdgeLabels(g, bi, bj);
      SkeletonKept(g);
      return true;
    }

    // ---------------------------------------------------------------- random perturbations

    /**
     * `newCloseGraph`: two distinct indices of the edges-first numbering, whose
     * labels are not taboo, exchange labels. The source draws each index with
     * `rand()` until it qualifies; the model chooses among the qualifying ones,
     * and requires that two exist (otherwise the source never returns).
     */
    method NewCloseGraph(taboo: seq<int>, size: int) returns (ghost p: nat, ghost q: nat)
      requires Valid() && size <= |taboo|
      requires exists a, b :: 0 <= a < b < |EdgesFirst(Labels())| &&
                 !Utils.Occurs(EdgesFirst(Labels())[a], taboo, size) && !Utils.Occurs(EdgesFirst(Labels())[b], taboo, size)
      modifies g.vertices, g.edges
      ensures p != q && p < |EdgesFirst(old(Labels()))| && q < |EdgesFirst(old(Labels()))|
      ensures !Utils.Occurs(EdgesFirst(old(Labels()))[p], taboo, size)
      ensures !Utils.Occurs(EdgesFirst(old(Labels()))[q], taboo, size)
      ensures Labels() == CloseSwap(old(Labels()), p, q)
      ensures OnlyLabelsChanged(g) && SkeletonOf(g) == old(SkeletonOf(g))
    {
      Sizes();
      var nbv, nbe := g.nbv, g.nbe;
      ghost var a, b :| 0 <= a < b < |EdgesFirst(Labels())| &&
        !Utils.Occurs(EdgesFirst(Labels())[a], taboo, size) && !Utils.Occurs(EdgesFirst(Labels())[b], taboo, size);
      var numv1: nat :| numv1 < nbe + nbv && !Utils.Occurs(EdgesFirst(Labels())[numv1], taboo, size);
      var numv2: nat :| numv2 < nbe + nbv && numv1 != numv2 && !Utils.Occurs(EdgesFirst(Labels())[numv2], taboo, size) by {
        if a == numv1 {
          assert b < nbe + nbv && numv1 != b && !Utils.Occurs(EdgesFirst(Labels())[b], taboo, size);
        } else {
          assert a < nbe + nbv && numv1 != a && !Utils.Occurs(EdgesFirst(Labels())[a], taboo, size);
        }
      }
      p, q := numv1, numv2;
      CloseExchange(numv1, numv2);
      SkeletonKept(g);
    }

    /** The exchange at the end of `newCloseGraph`, in its four cases. */
    method CloseExchange(numv1: nat, numv2: nat)
      requires Valid() && numv1 < g.nbe + g.nbv && numv2 < g.nbe + g.nbv
      modifies g.vertices, g.edges
      ensures Labels() == CloseSwap(old(Labels()), numv1, numv2)
      ensures OnlyLabelsChanged(g)
    {
      Sizes();
      ghost var L0 := Labels();
      var nbe := g.nbe;
      if numv1 < nbe {
        if numv2 < nbe {
          assert CloseSwap(L0, numv1, numv2) == L0.(e := Swap(L0.e, numv1, numv2));
          SwapEdgeLabels(g, numv1, numv2);
          return;
        }
        assert CloseSwap(L0, numv1, numv2) == SwapVE(L0, numv2 - nbe, numv1);
        SwapVertexEdgeLabels(g, numv2 - nbe, numv1);
        return;
      }
      if numv2 < nbe {
        assert CloseSwap(L0, numv1, numv2) == SwapVE(L0, numv1 - nbe, numv2);
        SwapVertexEdgeLabels(g, numv1 - nbe, numv2);
        return;
      }
      assert CloseSwap(L0, numv1, numv2) == L0.(v := Swap(L0.v, numv1 - nbe, numv2 - nbe));
      SwapVertexLabels(g, numv1 - nbe, numv2 - nbe);
    }

    /** The vertex loop of the enabled branch: the first vertex label at distance one from x. */
    method FindNearVertex(x: int) returns (r: Option<nat>)
      requires Valid()
      ensures r == FirstNear(Labels().v, x)
    {
      Sizes();
      ghost var S := Labels().v;
      var i := 0;
      while i < g.nbv
        invariant 0 <= i <= g.nbv
        invariant forall k :: 0 <= k < i ==> Abs(S[k] - x) != 1
      {
        var y := LabelAt(i);
        assert y == S[i];
        if Abs(y - x) == 1 {
          FirstNearIs(S, x, Some(i));
          return Some(i);
        }
        i := i + 1;
      }
      FirstNearIs(S, x, None);
      return None;
    }

    /** The edge loop of the enabled branch: the first edge label at distance one from x. */
    method FindNearEdge(x: int) returns (r: Option<nat>)
      requires Valid()
      ensures r == FirstNear(Labels().e, x)
    {
      Sizes();
      ghost var S := Labels().e;
      var i := 0;
      while i < g.nbe
        invariant 0 <= i <= g.nbe
        invariant forall k :: 0 <= k < i ==> Abs(S[k] - x) != 1
      {
        var y := LabelAt(g.nbv + i);
        assert y == S[i];
        if Abs(y - x) == 1 {
          FirstNearIs(S, x, Some(i));
          return Some(i);
        }
        i := i + 1;
      }
      FirstNearIs(S, x, None);
      return None;
    }

    /**
     * The two searches of the enabled branch: the label `chosen` of vertex
     * `indice` or edge `indice` trades places with the first vertex label at
     * distance one from it, or else with the first such edge label.
     */
    method SwapWithNear(fromVertex: bool, indice: nat, chosen: int) returns (ok: bool)
      requires Valid() && (if fromVertex then indice < g.nbv else indice < g.nbe)
      requires chosen == (if fromVertex then Labels().v[indice] else Labels().e[indice])
      modifies g.vertices, g.edges
      ensures (ok, Labels()) == VeryClose(old(Labels()), fromVertex, indice)
      ensures OnlyLabelsChanged(g)
    {
      Sizes();
      var iv := FindNearVertex(chosen);
      if iv.Some? {
        if fromVertex {
          SwapVertexLabels(g, indice, iv.value);
        } else {
          SwapVertexEdgeLabels(g, iv.value, indice);
        }
        return true;
      }
      var ie := FindNearEdge(chosen);
      if ie.Some? {
        if fromVertex {
          SwapVertexEdgeLabels(g, indice, ie.value);
        } else {
          SwapEdgeLabels(g, indice, ie.value);
        }
        return true;
      }
      NothingChanged(g);
      return false;
    }

    /** The inner loop of the disabled branch: the first edge j < i whose label is at distance one from edge i's. */
    method FindNearBelow(i: nat) returns (r: Option<nat>)
      requires Valid() && i < g.nbe
      ensures r == FirstNear(Labels().e[..i], Labels().e[i])
    {
      Sizes();
      ghost var S := Labels().e[..i];
      var lab := LabelAt(g.nbv + i);
      assert lab == Labels().e[i];
      var j := 0;
      while j < i
        invariant 0 <= j <= i
        invariant forall k :: 0 <= k < j ==> Abs(S[k] - lab) != 1
      {
        var x := LabelAt(g.nbv + j);
        assert x == S[j];
        if Abs(x - lab) == 1 {
          FirstNearIs(S, lab, Some(j));
          return Some(j);
        }
        j := j + 1;
      }
      FirstNearIs(S, lab, None);
      return None;
    }

    /**
     * The loops of the disabled branch: the first edge pair (j, i), j < i, in
     * the order i = 1, 2, ... outer and j = 0, ..., i - 1 inner, whose labels
     * are at distance one.
     */
    method FindNearEdges() returns (r: Option<Key>)
      requires Valid()
      ensures r.Some? ==> r.value.0 < r.value.1 < |Labels().e| && Near(Labels().e, r.value.0, r.value.1) &&
                          forall a: nat, b: nat :: a < b < |Labels().e| && Earlier((a, b), r.value.0, r.value.1) ==>
                            !Near(Labels().e, a, b)
      ensures r.None? ==> forall a: nat, b: nat :: a < b < |Labels().e| ==> !Near(Labels().e, a, b)
    {
      Sizes();
      ghost var E := Labels().e;
      var nbe := g.nbe;
      var i := 1;
      while i < nbe
        invariant 1 <= i && (nbe > 0 ==> i <= nbe)
        invariant NoNearBelow(E, i)
      {
        var f := FindNearBelow(i);
        if f.Some? {
          NearBelowFound(E, i, f.value);
          return Some((f.value, i));
        }
        NearBelowStep(E, i);
        i := i + 1;
      }
      return None;
    }

    /** The disabled branch: the pair found exchanges its labels. */
    method SwapNearEdges() returns (ok: bool, ghost j: nat, ghost i: nat)
      requires Valid()
      modifies g.vertices, g.edges
      ensures ok ==> j < i < |old(Labels()).e| && Near(old(Labels()).e, j, i) &&
                     (forall a: nat, b: nat :: a < b < |old(Labels()).e| && Earlier((a, b), j, i) ==> !Near(old(Labels()).e, a, b)) &&
                     Labels() == old(Labels()).(e := Swap(old(Labels()).e, i, j))
      ensures !ok ==> Labels() == old(Labels()) &&
                      forall a: nat, b: nat :: a < b < |old(Labels()).e| ==> !Near(old(Labels()).e, a, b)
      ensures OnlyLabelsChanged(g)
    {
      Sizes();
      var r := FindNearEdges();
      if r.Some? {
        SwapEdgeLabels(g, r.value.1, r.value.0);
        return true, r.value.0, r.value.1;
      }
      NothingChanged(g);
      return false, 0, 0;
    }

    /**
     * `newVeryCloseGraph`: with vertex permutations enabled, a label chosen at
     * random (a vertex when a draw below nbv + nbe falls below nbv, then an index)
     * trades places with a label at distance one; otherwise the first edge pair
     * at distance one is exchanged. The draws are choices of the model.
     */
    method NewVeryCloseGraph(enable: bool) returns (ok: bool, ghost fromVertex: bool, ghost indice: nat, ghost j: nat, ghost i: nat)
      requires Valid() && (enable ==> g.nbe + g.nbv > 0)
      modifies g.vertices, g.edges
      ensures enable ==> (if fromVertex then indice < |old(Labels()).v| else indice < |old(Labels()).e|) &&
                         (ok, Labels()) == VeryClose(old(Labels()), fromVertex, indice)
      ensures !enable && ok ==>
                j < i < |old(Labels()).e| && Near(old(Labels()).e, j, i) &&
                (forall a: nat, b: nat :: a < b < |old(Labels()).e| && Earlier((a, b), j, i) ==> !Near(old(Labels()).e, a, b)) &&
                Labels() == old(Labels()).(e := Swap(old(Labels()).e, i, j))
      ensures !enable && !ok ==>
                Labels() == old(Labels()) &&
                forall a: nat, b: nat :: a < b < |old(Labels()).e| ==> !Near(old(Labels()).e, a, b)
      ensures OnlyLabelsChanged(g)
    {
      fromVertex, indice, j, i := false, 0, 0, 0;
      if enable {
        ok, fromVertex, indice := SwapDrawnNear();
      } else {
        ok, j, i := SwapNearEdges();
      }
    }

    /**
     * The enabled branch: draw a vertex or an edge (`eouv`), then one of
     * them (`indice`), and exchange its label with the first at distance one.
     */
    method SwapDrawnNear() returns (ok: bool, ghost fromVertex: bool, ghost indice: nat)
      requires Valid() && g.nbe + g.nbv > 0
      modifies g.vertices, g.edges
      ensures if fromVertex then indice < |old(Labels()).v| else indice < |old(Labels()).e|
      ensures (ok, Labels()) == VeryClose(old(Labels()), fromVertex, indice)
      ensures OnlyLabelsChanged(g)
    {
      Sizes();
      var nbv, nbe := g.nbv, g.nbe;
      var eouv: nat :| eouv < nbe + nbv;
      var ind: nat;
      var chosen: int;
      var vertex := eouv < nbv;
      if vertex {
        ind :| ind < nbv;
        chosen := LabelAt(ind);
      } else {
        ind :| ind < nbe;
        chosen := LabelAt(nbv + ind);
      }
      fromVertex, indice := vertex, ind;
      ok := SwapWithNear(vertex, ind, chosen);
    }
  }
}
