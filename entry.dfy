/**
 * The public entry points of Solver.c. Each one picks an objective, runs
 * `attemptSolveWithThreshold` on the graph with precision 0, and returns
 * the graph (or the rectangle) when the search reached a score of 0.
 * `solveVmtWithConst` first rejects a constant outside the bounds every
 * vertex-magic labeling obeys, and `solveVatWithConstAndStep` a start below
 * the smallest weight an antimagic labeling can have or a step above the
 * bound `getAntiMagicMinConstAndMaxStep` computes.
 */
module Entry {
  import opened Seqs
  import opened Sorting
  import opened Scores
  import opened Moves
  import opened Graphs
  import opened Labelings
  import opened Perturb
  import opened Solving
  import opened Driver
  import opened Bounds
  import opened Rectangles
  import opened Antiprisms
  import Utils
  import Decimal

  /** The vertex weights of g: label plus incident edge labels. */
  function GraphWeights(g: Graph): (w: seq<int>)
    reads g, g.vertices, g.edges
    requires g.Valid()
    ensures |w| == g.nbv
  {
    Weights(g.Labels(), IncidenceOf(g.Edges(), g.nbv))
  }

  /** The weights of g counting only the incident edges (what the rectangle score reads). */
  function GraphEdgeWeights(g: Graph): (w: seq<int>)
    reads g, g.vertices, g.edges
    requires g.Valid()
    ensures |w| == g.nbv
  {
    EdgeWeights(g.Labels(), IncidenceOf(g.Edges(), g.nbv))
  }

  /** The problem `createSolver` reads off g is its incidence lists and vertex names. */
  lemma ProblemOf(obj: Objective, g: Graph)
    requires g.Valid()
    ensures GraphProblem(obj, g) == Problem(obj, IncidenceOf(g.Edges(), g.nbv), Names(g.Vertices()))
  {
  }

  /** Two labels and no taboo list: a random exchange is always possible. */
  lemma TwoFreeWithoutTaboo(L: Labeling)
    requires |L.v| + |L.e| >= 2
    ensures TwoFree(L, [], 0)
  {
    var s := EdgesFirst(L);
    assert !Utils.Occurs(s[0], [], 0) && !Utils.Occurs(s[1], [], 0);
  }

  /** Graphs with the same skeleton have the same incidence lists and vertex names. */
  lemma SameSkeleton(es0: seq<Edge>, es1: seq<Edge>, vs0: seq<Vertex>, vs1: seq<Vertex>, n: nat)
    requires EBlank(es0) == EBlank(es1) && VBlank(vs0) == VBlank(vs1)
    ensures IncidenceOf(es0, n) == IncidenceOf(es1, n) && Names(vs0) == Names(vs1)
  {
    forall x | 0 <= x < n
      ensures Incident(es0, x) == Incident(es1, x)
    {
      IncidentBlank(es0, x);
      IncidentBlank(es1, x);
    }
    NamesBlank(vs0);
    NamesBlank(vs1);
  }

  /**
   * `attemptSolveWithThreshold(method, g, ..., 0, ...)` as the entry points
   * call it, with precision 0: the skeleton is kept, the labels are only
   * rearranged with the taboo ones in place, and the search succeeds
   * exactly when the score of g ends at 0. Unless the score is 0 from the
   * start, the random exchange needs two labels outside the taboo list and
   * the descent a vertex.
   */
  method Search(obj: Objective, g: Graph, taboo: seq<int>, size: int) returns (solved: bool)
    requires g.Valid() && size <= |taboo|
    requires (Defined(GraphProblem(obj, g), g.Labels()) && Score(GraphProblem(obj, g), g.Labels()) == 0) ||
             (g.nbv > 0 && TwoFree(g.Labels(), taboo, size))
    modifies g.vertices, g.edges
    ensures g.Valid() && SkeletonOf(g) == old(SkeletonOf(g))
    ensures Rearranged(old(g.Labels()), g.Labels(), taboo, size)
    ensures Defined(GraphProblem(obj, g), g.Labels())
    ensures solved <==> Score(GraphProblem(obj, g), g.Labels()) == 0
  {
    ghost var es0, vs0, P0, L0 := g.Edges(), g.Vertices(), GraphProblem(obj, g), g.Labels();
    ProblemOf(obj, g);
    ThresholdZero(obj, g.nbv);
    var r := AttemptSolveWithThreshold(obj, g, 0, taboo, size);
    ghost var es1, vs1, L1 := g.Edges(), g.Vertices(), g.Labels();
    assert g.Valid() && EBlank(es0) == EBlank(es1) && VBlank(vs0) == VBlank(vs1);
    assert Defined(P0, L1) && Rearranged(L0, L1, taboo, size);
    assert r.Some? ==> Score(P0, L1) <= 0;
    assert r.None? ==> Score(P0, L1) > 0;
    SameSkeleton(es0, es1, vs0, vs1, g.nbv);
    ProblemOf(obj, g);
    assert GraphProblem(obj, g) == P0;
    solved := r.Some?;
  }

  lemma ThresholdZero(obj: Objective, n: nat)
    ensures Threshold(obj, n, 0) == 0
  {
  }

  /** The weights the score of GraphProblem(obj, g) reads are those of g. */
  lemma WeightsOf(obj: Objective, g: Graph)
    requires g.Valid()
    ensures Fits(GraphProblem(obj, g).adj, g.Labels())
    ensures Weights(g.Labels(), GraphProblem(obj, g).adj) == GraphWeights(g)
    ensures EdgeWeights(g.Labels(), GraphProblem(obj, g).adj) == GraphEdgeWeights(g)
    ensures GraphProblem(obj, g).names == Names(g.Vertices())
  {
    ProblemOf(obj, g);
  }

  // What a score of 0 means, objective by objective.

  lemma MagicSolved(P: Problem, L: Labeling, k: int)
    requires P.obj == Magic(k, 0) && Defined(P, L)
    ensures Score(P, L) == 0 <==> IsMagic(Weights(L, P.adj), k)
  {
    MagicFormulaDetectsMagic(Weights(L, P.adj), k);
  }

  lemma MagicStepSolved(P: Problem, L: Labeling, a: int, step: int)
    requires P.obj == Magic(a, step) && Defined(P, L)
    ensures Score(P, L) == 0 <==> forall i :: 0 <= i < |L.v| ==> Ordered(Weights(L, P.adj), step)[i] == a + i * step
    ensures |L.v| >= 1 && step > 0 ==> (Score(P, L) == 0 <==> IsAntimagic(Weights(L, P.adj), a, step))
  {
    MagicFormulaZero(Weights(L, P.adj), a, step);
    if |L.v| >= 1 && step > 0 {
      MagicFormulaDetectsAntimagic(Weights(L, P.adj), a, step);
    }
  }

  lemma UnknownConstSolved(P: Problem, L: Labeling)
    requires P.obj == MagicUnknownConst && Defined(P, L)
    ensures Score(P, L) == 0 <==> IsMagicUnknownConst(Weights(L, P.adj))
  {
    VarianceZero(Weights(L, P.adj));
  }

  lemma KnownStepSolved(P: Problem, L: Labeling, d: int)
    requires P.obj == AntimagicKnownStep(d) && Defined(P, L)
    ensures Score(P, L) == 0 <==> Gaps(Ordered(Weights(L, P.adj), d), d)
    ensures |L.v| >= 1 && d > 0 ==> (Score(P, L) == 0 <==> IsAntimagic(Weights(L, P.adj), SortAsc(Weights(L, P.adj))[0], d))
  {
    KnownStepZero(Weights(L, P.adj), d);
  }

  /** With fewer than two vertices there is no gap, and the score is 0. */
  lemma ProgressionSolved(P: Problem, L: Labeling)
    requires P.obj == AntimagicUnknownConst && Defined(P, L)
    ensures |L.v| >= 2 ==> (Score(P, L) == 0 <==> IsProgression(Weights(L, P.adj)))
    ensures |L.v| < 2 ==> Score(P, L) == 0
  {
    if |L.v| >= 2 {
      UnknownConstZero(Weights(L, P.adj));
    }
  }

  lemma RectSolved(P: Problem, L: Labeling, u: int, v: int, du: int, dv: int)
    requires P.obj == MagicRect(u, v, du, dv) && Defined(P, L)
    ensures Score(P, L) == 0 <==> (RowsFrom(EdgeWeights(L, P.adj), P.names, 0, u, du) &&
                                   RowsFrom(EdgeWeights(L, P.adj), P.names, 1, v, dv))
    ensures du == 0 && dv == 0 ==> (Score(P, L) == 0 <==> IsMagicRect(EdgeWeights(L, P.adj), P.names, u, v))
  {
    var ew := EdgeWeights(L, P.adj);
    AbsDeviationZero(Ordered(OfSide(ew, P.names, 0), du), u, du);
    AbsDeviationZero(Ordered(OfSide(ew, P.names, 1), dv), v, dv);
    if du == 0 && dv == 0 {
      RectangleFormulaZero(ew, P.names, u, v);
    }
  }

  /**
   * `solveVmtWithConst(g, k)`: no search, and the labels untouched, when k
   * lies outside [getMinMagicConst(g), getMaxMagicConst(g)]; otherwise the
   * graph is returned exactly when the search ends with a vertex-magic
   * labeling of constant k. A graph with fewer than two labels can only be
   * searched when it is already magic.
   */
  method SolveVmtWithConst(g: Graph, k: int) returns (r: Option<Graph>)
    requires g.Valid() && g.nbv > 0
    requires g.nbv + g.nbe >= 2 || IsMagic(GraphWeights(g), k) ||
             !(MinMagicConst(g.nbv, g.nbe) <= k <= MaxMagicConst(g.nbv, g.nbe))
    modifies g.vertices, g.edges
    ensures g.Valid() && SkeletonOf(g) == old(SkeletonOf(g))
    ensures Rearranged(old(g.Labels()), g.Labels(), [], 0)
    ensures !(MinMagicConst(g.nbv, g.nbe) <= k <= MaxMagicConst(g.nbv, g.nbe)) ==>
              r.None? && g.Labels() == old(g.Labels())
    ensures r.Some? ==> r.value == g && IsMagic(GraphWeights(g), k)
    ensures r.None? && MinMagicConst(g.nbv, g.nbe) <= k <= MaxMagicConst(g.nbv, g.nbe) ==> !IsMagic(GraphWeights(g), k)
  {
    var min := GetMinMagicConst(g);
    var max := GetMaxMagicConst(g);
    if k < min || k > max {
      RearrangedRefl(g.Labels(), [], 0);
      return None;
    }
    MagicStart(g, k, [], 0);
    var solved := Search(Magic(k, 0), g, [], 0);
    MagicSolved(GraphProblem(Magic(k, 0), g), g.Labels(), k);
    WeightsOf(Magic(k, 0), g);
    if !solved {
      return None;
    }
    return Some(g);
  }

  /**
   * The search for a k-magic labeling can start: the graph is k-magic
   * already (score 0), or it has two labels outside the taboo list.
   */
  lemma MagicStart(g: Graph, k: int, taboo: seq<int>, size: int)
    requires g.Valid() && g.nbv > 0 && size <= |taboo|
    requires (size == 0 && g.nbv + g.nbe >= 2) || TwoFree(g.Labels(), taboo, size) || IsMagic(GraphWeights(g), k)
    ensures (Defined(GraphProblem(Magic(k, 0), g), g.Labels()) && Score(GraphProblem(Magic(k, 0), g), g.Labels()) == 0) ||
            TwoFree(g.Labels(), taboo, size)
  {
    WeightsOf(Magic(k, 0), g);
    if size == 0 && g.nbv + g.nbe >= 2 {
      TwoFreeSizeZero(g.Labels(), taboo);
    } else if !TwoFree(g.Labels(), taboo, size) {
      MagicFormulaDetectsMagic(GraphWeights(g), k);
    }
  }

  /**
   * `solveVmtWithConstTabu(g, k, ignoredLabels)` as written: the tabu list
   * is handed to the search with size 0, so no label is protected.
   */
  method SolveVmtWithConstTabuAsWritten(g: Graph, k: int, ignored: seq<int>) returns (r: Option<Graph>)
    requires g.Valid() && g.nbv > 0
    requires g.nbv + g.nbe >= 2 || IsMagic(GraphWeights(g), k) ||
             !(MinMagicConst(g.nbv, g.nbe) <= k <= MaxMagicConst(g.nbv, g.nbe))
    modifies g.vertices, g.edges
    ensures g.Valid() && SkeletonOf(g) == old(SkeletonOf(g))
    ensures Rearranged(old(g.Labels()), g.Labels(), ignored, 0)
    ensures !(MinMagicConst(g.nbv, g.nbe) <= k <= MaxMagicConst(g.nbv, g.nbe)) ==>
              r.None? && g.Labels() == old(g.Labels())
    ensures r.Some? ==> r.value == g && IsMagic(GraphWeights(g), k)
    ensures r.None? && MinMagicConst(g.nbv, g.nbe) <= k <= MaxMagicConst(g.nbv, g.nbe) ==> !IsMagic(GraphWeights(g), k)
  {
    var min := GetMinMagicConst(g);
    var max := GetMaxMagicConst(g);
    if k < min || k > max {
      RearrangedRefl(g.Labels(), ignored, 0);
      return None;
    }
    MagicStart(g, k, ignored, 0);
    var solved := Search(Magic(k, 0), g, ignored, 0);
    MagicSolved(GraphProblem(Magic(k, 0), g), g.Labels(), k);
    WeightsOf(Magic(k, 0), g);
    if !solved {
      return None;
    }
    return Some(g);
  }

  lemma TwoFreeSizeZero(L: Labeling, ignored: seq<int>)
    requires |L.v| + |L.e| >= 2
    ensures TwoFree(L, ignored, 0)
  {
    var s := EdgesFirst(L);
    assert !Utils.Occurs(s[0], ignored, 0) && !Utils.Occurs(s[1], ignored, 0);
  }

  /**
   * With size 0 the taboo list protects nothing: a labeling whose only
   * labels are exchanged, the ignored label 1 included, still counts as
   * keeping the taboo labels.
   */
  lemma TabooSizeZeroKeepsNothing()
    ensures Rearranged(Labeling([1], [2]), Labeling([2], [1]), [1], 0)
    ensures !Rearranged(Labeling([1], [2]), Labeling([2], [1]), [1], 1)
  {
    var L0, L1 := Labeling([1], [2]), Labeling([2], [1]);
    assert Utils.Occurs(L0.v[0], [1], 1);
    assert Joined(L1) == [2] + [1];
    assert Joined(L0) == [1] + [2];
    assert multiset(Joined(L1)) == multiset{1, 2} == multiset(Joined(L0));
    assert KeepsTaboo(L0, L1, [1], 0) by {
      assert forall t :: !Utils.Occurs(t, [1], 0);
    }
  }

  /**
   * `solveVmtWithConstTabu(g, k, ignoredLabels)` with the list's length
   * passed on: the ignored labels stay where they are. Unless the graph is
   * already magic, the random exchange needs two labels outside the list.
   */
  method SolveVmtWithConstTabu(g: Graph, k: int, ignored: seq<int>) returns (r: Option<Graph>)
    requires g.Valid() && g.nbv > 0
    requires TwoFree(g.Labels(), ignored, |ignored|) || IsMagic(GraphWeights(g), k) ||
             !(MinMagicConst(g.nbv, g.nbe) <= k <= MaxMagicConst(g.nbv, g.nbe))
    modifies g.vertices, g.edges
    ensures g.Valid() && SkeletonOf(g) == old(SkeletonOf(g))
    ensures Rearranged(old(g.Labels()), g.Labels(), ignored, |ignored|)
    ensures !(MinMagicConst(g.nbv, g.nbe) <= k <= MaxMagicConst(g.nbv, g.nbe)) ==>
              r.None? && g.Labels() == old(g.Labels())
    ensures r.Some? ==> r.value == g && IsMagic(GraphWeights(g), k)
    ensures r.None? && MinMagicConst(g.nbv, g.nbe) <= k <= MaxMagicConst(g.nbv, g.nbe) ==> !IsMagic(GraphWeights(g), k)
  {
    var min := GetMinMagicConst(g);
    var max := GetMaxMagicConst(g);
    if k < min || k > max {
      RearrangedRefl(g.Labels(), ignored, |ignored|);
      return None;
    }
    MagicStart(g, k, ignored, |ignored|);
    var solved := Search(Magic(k, 0), g, ignored, |ignored|);
    MagicSolved(GraphProblem(Magic(k, 0), g), g.Labels(), k);
    WeightsOf(Magic(k, 0), g);
    if !solved {
      return None;
    }
    return Some(g);
  }

  /**
   * `solveVmt(g)`: the graph is returned exactly when the search ends with
   * all weights equal. A graph with fewer than two labels has at most one
   * weight, so it is returned at once.
   */
  method SolveVmt(g: Graph) returns (r: Option<Graph>)
    requires g.Valid()
    modifies g.vertices, g.edges
    ensures g.Valid() && SkeletonOf(g) == old(SkeletonOf(g))
    ensures Rearranged(old(g.Labels()), g.Labels(), [], 0)
    ensures r.Some? ==> r.value == g && IsMagicUnknownConst(GraphWeights(g))
    ensures r.None? ==> !IsMagicUnknownConst(GraphWeights(g))
  {
    WeightsOf(MagicUnknownConst, g);
    UnknownConstSolved(GraphProblem(MagicUnknownConst, g), g.Labels());
    FreeOrSolved(g);
    var solved := Search(MagicUnknownConst, g, [], 0);
    UnknownConstSolved(GraphProblem(MagicUnknownConst, g), g.Labels());
    WeightsOf(MagicUnknownConst, g);
    if !solved {
      return None;
    }
    return Some(g);
  }

  /** A graph with a vertex and two labels can be searched without a taboo list; otherwise it has at most one vertex. */
  lemma FreeOrSolved(g: Graph)
    requires g.Valid()
    ensures g.nbv > 0 && g.nbv + g.nbe >= 2 ==> TwoFree(g.Labels(), [], 0)
    ensures !(g.nbv > 0 && g.nbv + g.nbe >= 2) ==> |GraphWeights(g)| <= 1
  {
    if g.nbv > 0 && g.nbv + g.nbe >= 2 {
      TwoFreeWithoutTaboo(g.Labels());
    }
  }

  /**
   * `solveVatWithConstAndStep(g, a, step)`: no search, and the labels
   * untouched, when a is below minA or step above maxD (the two values
   * `getAntiMagicMinConstAndMaxStep` gives); otherwise the graph is returned
   * exactly when the search ends with the weights, ordered by the sign of
   * step, equal to a, a + step, a + 2 step, ... A lone vertex can only be
   * searched when its weight is a already.
   */
  method SolveVatWithConstAndStep(g: Graph, a: int, step: int) returns (r: Option<Graph>)
    requires g.Valid()
    requires g.nbv + g.nbe >= 2 || StepsFrom(GraphWeights(g), a, step) ||
             (a as real) < VatMinConst(g.Edges(), g.nbv) || (step as real) > VatMaxStep(g.Edges(), g.nbv)
    modifies g.vertices, g.edges
    ensures g.Valid() && SkeletonOf(g) == old(SkeletonOf(g))
    ensures Rearranged(old(g.Labels()), g.Labels(), [], 0)
    ensures (a as real) < VatMinConst(old(g.Edges()), g.nbv) || (step as real) > VatMaxStep(old(g.Edges()), g.nbv) ==>
              r.None? && g.Labels() == old(g.Labels())
    ensures r.Some? ==> r.value == g && StepsFrom(GraphWeights(g), a, step)
    ensures r.Some? && step > 0 && g.nbv > 0 ==> IsAntimagic(GraphWeights(g), a, step)
    ensures r.None? && !((a as real) < VatMinConst(old(g.Edges()), g.nbv) || (step as real) > VatMaxStep(old(g.Edges()), g.nbv)) ==>
              !StepsFrom(GraphWeights(g), a, step)
  {
    var minA, maxD := GetAntiMagicMinConstAndMaxStep(g);
    if (a as real) < minA || (step as real) > maxD {
      RearrangedRefl(g.Labels(), [], 0);
      return None;
    }
    WeightsOf(Magic(a, step), g);
    MagicStepSolved(GraphProblem(Magic(a, step), g), g.Labels(), a, step);
    FreeOrSolved(g);
    var solved := Search(Magic(a, step), g, [], 0);
    MagicStepSolved(GraphProblem(Magic(a, step), g), g.Labels(), a, step);
    WeightsOf(Magic(a, step), g);
    if !solved {
      return None;
    }
    return Some(g);
  }

  /** The weights, ordered by the sign of step, are a, a + step, a + 2 step, ... */
  predicate StepsFrom(w: seq<int>, a: int, step: int)
  {
    forall i :: 0 <= i < |w| ==> Ordered(w, step)[i] == a + i * step
  }

  /**
   * `solveVatWithstep(g, d)`: the graph is returned exactly when the search
   * ends with the weights, ordered by the sign of d, going up by d. A graph
   * with fewer than two labels has at most one weight, so it is returned at
   * once.
   */
  method SolveVatWithStep(g: Graph, d: int) returns (r: Option<Graph>)
    requires g.Valid()
    modifies g.vertices, g.edges
    ensures g.Valid() && SkeletonOf(g) == old(SkeletonOf(g))
    ensures Rearranged(old(g.Labels()), g.Labels(), [], 0)
    ensures r.Some? ==> r.value == g && Gaps(Ordered(GraphWeights(g), d), d)
    ensures r.Some? && d > 0 && g.nbv > 0 ==> IsAntimagic(GraphWeights(g), SortAsc(GraphWeights(g))[0], d)
    ensures r.None? ==> !Gaps(Ordered(GraphWeights(g), d), d)
  {
    WeightsOf(AntimagicKnownStep(d), g);
    KnownStepSolved(GraphProblem(AntimagicKnownStep(d), g), g.Labels(), d);
    FreeOrSolved(g);
    var solved := Search(AntimagicKnownStep(d), g, [], 0);
    KnownStepSolved(GraphProblem(AntimagicKnownStep(d), g), g.Labels(), d);
    WeightsOf(AntimagicKnownStep(d), g);
    if !solved {
      return None;
    }
    return Some(g);
  }

  /**
   * `solveVat(g)`: with two vertices or more, the graph is returned exactly
   * when the search ends with the ascending weights forming an arithmetic
   * progression; with fewer there is no gap and it is returned at once.
   */
  method SolveVat(g: Graph) returns (r: Option<Graph>)
    requires g.Valid()
    modifies g.vertices, g.edges
    ensures g.Valid() && SkeletonOf(g) == old(SkeletonOf(g))
    ensures Rearranged(old(g.Labels()), g.Labels(), [], 0)
    ensures r.Some? ==> r.value == g && (g.nbv >= 2 ==> IsProgression(GraphWeights(g)))
    ensures r.None? ==> g.nbv >= 2 && !IsProgression(GraphWeights(g))
  {
    WeightsOf(AntimagicUnknownConst, g);
    ProgressionSolved(GraphProblem(AntimagicUnknownConst, g), g.Labels());
    FreeOrSolved(g);
    var solved := Search(AntimagicUnknownConst, g, [], 0);
    ProgressionSolved(GraphProblem(AntimagicUnknownConst, g), g.Labels());
    WeightsOf(AntimagicUnknownConst, g);
    if !solved {
      return None;
    }
    return Some(g);
  }

  // ---------------------------------------------------------------- antimagic bounds

  /** The degree of every vertex below n. */
  function Degrees(es: seq<Edge>, n: nat): (ds: seq<int>)
    ensures |ds| == n && forall x :: 0 <= x < n ==> ds[x] == |Incident(es, x)|
  {
    seq(n, x requires 0 <= x => |Incident(es, x)|)
  }

  function MinOf(s: seq<int>): (r: int)
    requires |s| > 0
    ensures (forall k :: 0 <= k < |s| ==> r <= s[k]) && r in s
  {
    if |s| == 1 then s[0]
    else
      var m := MinOf(s[..|s| - 1]);
      if s[|s| - 1] < m then s[|s| - 1] else m
  }

  function MaxOf(s: seq<int>): (r: int)
    requires |s| > 0
    ensures (forall k :: 0 <= k < |s| ==> s[k] <= r) && r in s
  {
    if |s| == 1 then s[0]
    else
      var m := MaxOf(s[..|s| - 1]);
      if s[|s| - 1] > m then s[|s| - 1] else m
  }

  /** A bound that is attained is the minimum (the maximum). */
  lemma ExtremesAttained(s: seq<int>, lo: int, hi: int)
    requires |s| > 0 && lo in s && hi in s
    requires forall k :: 0 <= k < |s| ==> lo <= s[k] <= hi
    ensures MinOf(s) == lo && MaxOf(s) == hi
  {
  }

  /** The smallest and the largest degree, both -1 for a graph without vertices. */
  function MinDegree(es: seq<Edge>, n: nat): int
  {
    if n == 0 then -1 else MinOf(Degrees(es, n))
  }

  function MaxDegree(es: seq<Edge>, n: nat): int
  {
    if n == 0 then -1 else MaxOf(Degrees(es, n))
  }

  /** The first value of `getAntiMagicMinConstAndMaxStep`: (δ+1)(δ+2)/2 for the smallest degree δ. */
  function VatMinConst(es: seq<Edge>, n: nat): real
  {
    MinConstFormula(MinDegree(es, n))
  }

  /**
   * The two formulas of `getAntiMagicMinConstAndMaxStep` for the smallest
   * degree lo and the largest hi, with its grouping: the halving applies to
   * the difference, and the product with n - 1 comes after it.
   */
  function MinConstFormula(lo: int): real
  {
    ((lo + 1) * (lo + 2)) as real / 2.0
  }

  function MaxStepFormula(n: int, m: int, lo: int, hi: int): real
  {
    (((2 * n + 2 * m - hi) * (hi + 1) - (lo + 1) * (lo + 2)) as real / 2.0) * (n - 1) as real
  }

  /**
   * The second value, as the source writes it: the difference is halved
   * and then multiplied by n - 1.
   */
  function VatMaxStep(es: seq<Edge>, n: nat): real
  {
    MaxStepFormula(n, |es|, MinDegree(es, n), MaxDegree(es, n))
  }

  /**
   * `getAntiMagicMinConstAndMaxStep(g, &a, &d)`: one pass over the vertices
   * keeping the smallest and the largest number of incident edges, then
   * the two bounds, computed exactly (the source uses floats).
   */
  method GetAntiMagicMinConstAndMaxStep(g: Graph) returns (a: real, d: real)
    requires g.Valid()
    ensures a == VatMinConst(g.Edges(), g.nbv) && d == VatMaxStep(g.Edges(), g.nbv)
  {
    var minDeg, maxDeg := DegreeExtremes(g);
    a := MinConstFormula(minDeg);
    d := MaxStepFormula(g.nbv, g.nbe, minDeg, maxDeg);
  }

  /** `getIssuedEdges(g, g->vertices + x)->size`: the degree of vertex x. */
  method DegreeOf(g: Graph, x: nat, ghost ds: seq<int>) returns (size: int)
    requires g.Valid() && x < g.nbv && ds == Degrees(g.Edges(), g.nbv)
    ensures size == ds[x] >= 0
  {
    var v := g.GetIssuedEdges(x);
    size := |v|;
  }

  /** The loop of `getAntiMagicMinConstAndMaxStep` over the vertices' degrees. */
  method DegreeExtremes(g: Graph) returns (minDeg: int, maxDeg: int)
    requires g.Valid()
    ensures minDeg == MinDegree(g.Edges(), g.nbv) && maxDeg == MaxDegree(g.Edges(), g.nbv)
  {
    ghost var ds := Degrees(g.Edges(), g.nbv);
    ghost var at, atMax := 0, 0;
    minDeg, maxDeg := -1, -1;
    var i := 0;
    while i < g.nbv
      invariant 0 <= i <= g.nbv
      invariant i == 0 ==> minDeg == -1 && maxDeg == -1
      invariant i > 0 ==> at < i && atMax < i && ds[at] == minDeg && ds[atMax] == maxDeg
      invariant forall k :: 0 <= k < i ==> minDeg <= ds[k] <= maxDeg
    {
      var size := DegreeOf(g, i, ds);
      if size < minDeg {
        minDeg, at := size, i;
      }
      if size > maxDeg {
        maxDeg, atMax := size, i;
      }
      if minDeg == -1 {
        minDeg, at := size, i;
      }
      i := i + 1;
    }
    if g.nbv > 0 {
      ExtremesAttained(ds, minDeg, maxDeg);
    }
  }

  // ---------------------------------------------------------------- rectangles

  /** `solveMagicRect`'s constants: each column sums to widthC and each row to heightC. */
  function MagicRectConsts(width: nat, height: nat): (int, int)
    requires width > 0 && height > 0
  {
    ((width * height) * (width * height + 1) / (2 * width),
     (width * height) * (width * height + 1) / (2 * height))
  }

  /** `solveAntiMagicRect`'s constants, with C's division truncating toward zero. */
  function AntiMagicRectConsts(width: nat, height: nat, widthStep: int, heightStep: int): (int, int)
    requires width > 0 && height > 0
  {
    (Utils.CDiv((width * height) * (width * height + 1) - widthStep * (width * (width - 1)), 2 * width),
     Utils.CDiv((width * height) * (width * height + 1) - heightStep * (height * (height - 1)), 2 * height))
  }

  lemma {:induction false} EBlankAt(es: seq<Edge>, k: nat)
    requires k < |es|
    ensures EBlank(es)[k] == es[k].(lab := 0)
  {
    if k < |es| - 1 {
      EBlankAt(es[..|es| - 1], k);
    }
  }

  /** Endpoints are part of the skeleton, so they stay in range. */
  lemma EndsInKept(es0: seq<Edge>, es1: seq<Edge>, n: nat)
    requires EBlank(es0) == EBlank(es1) && EndsIn(es0, n)
    ensures EndsIn(es1, n)
  {
    forall k | 0 <= k < |es1|
      ensures es1[k].u < n && es1[k].v < n
    {
      EBlankAt(es0, k);
      EBlankAt(es1, k);
    }
  }

  /**
   * The search on a rectangle's graph for the objective
   * magicFormulaRectangle(u, v, du, dv), with the facts `updateRectangle`
   * needs afterwards: on success the row sums start at u and go by du, the
   * column sums start at v and go by dv.
   */
  method SearchRect(r: Rectangle, u: int, v: int, du: int, dv: int) returns (solved: bool)
    requires r.Valid() && r.g.nbv > 0 && r.g.nbv + r.g.nbe >= 2
    modifies r.g.vertices, r.g.edges
    ensures r.Valid() && SkeletonOf(r.g) == old(SkeletonOf(r.g))
    ensures Rearranged(old(r.g.Labels()), r.g.Labels(), [], 0)
    ensures solved <==> (RowsFrom(GraphEdgeWeights(r.g), Names(r.g.Vertices()), 0, u, du) &&
                         RowsFrom(GraphEdgeWeights(r.g), Names(r.g.Vertices()), 1, v, dv))
    ensures du == 0 && dv == 0 ==> (solved <==> IsMagicRect(GraphEdgeWeights(r.g), Names(r.g.Vertices()), u, v))
  {
    ghost var es0 := r.g.Edges();
    TwoFreeWithoutTaboo(r.g.Labels());
    solved := Search(MagicRect(u, v, du, dv), r.g, [], 0);
    EndsInKept(es0, r.g.Edges(), r.g.nbv);
    RectSolved(GraphProblem(MagicRect(u, v, du, dv), r.g), r.g.Labels(), u, v, du, dv);
    WeightsOf(MagicRect(u, v, du, dv), r.g);
  }

  /**
   * `solveMagicRect(r, &cst_width, &cst_height)`: the rectangle is returned
   * only when every row sums to heightC and every column to widthC, with
   * the table rewritten from the edge labels by `updateRectangle` (which
   * exits when an edge has no cell; no rectangle is returned then).
   */
  method SolveMagicRect(r: Rectangle) returns (res: Option<Rectangle>, widthC: int, heightC: int)
    requires r.Valid() && r.width > 0 && r.height > 0 && r.g.nbv > 0 && r.g.nbv + r.g.nbe >= 2
    modifies r.g.vertices, r.g.edges, r.table
    ensures (widthC, heightC) == MagicRectConsts(r.width, r.height)
    ensures r.Valid() && SkeletonOf(r.g) == old(SkeletonOf(r.g))
    ensures Rearranged(old(r.g.Labels()), r.g.Labels(), [], 0)
    ensures res.Some? ==> res.value == r && IsMagicRect(GraphEdgeWeights(r.g), Names(r.g.Vertices()), heightC, widthC)
    ensures res.Some? ==> AllCells(r.g.Edges(), Names(r.g.Vertices()), r.width, r.height)
    ensures res.Some? ==> r.Table() == Filled(old(r.Table()), r.g.Edges(),
                                              Cells(r.g.Edges(), Names(r.g.Vertices()), r.width, r.height), r.height, r.width)
    ensures res.None? ==> !IsMagicRect(GraphEdgeWeights(r.g), Names(r.g.Vertices()), heightC, widthC) ||
                          !AllCells(r.g.Edges(), Names(r.g.Vertices()), r.width, r.height)
    ensures !IsMagicRect(GraphEdgeWeights(r.g), Names(r.g.Vertices()), heightC, widthC) ==> r.Table() == old(r.Table())
  {
    var consts := MagicRectConsts(r.width, r.height);
    widthC, heightC := consts.0, consts.1;
    res := SearchAndFill(r, heightC, widthC, 0, 0);
  }

  /** The check `isMagic_Rect(s, width_c, height_c)` that `solveMagicRect` asserts, as written. */
  predicate RectAssertAsWritten(w: seq<int>, names: seq<string>, widthC: int, heightC: int)
    requires |names| == |w|
  {
    IsMagicRect(w, names, widthC, heightC)
  }

  /**
   * Two rows and four columns labelled 1 7 4 6 / 8 2 5 3, on the graph
   * `createRectangle(_, 4, 2)` builds; the vertices keep their label 0.
   */
  const ExampleRect: Labeling := Labeling([0, 0, 0, 0, 0, 0], [1, 7, 4, 6, 8, 2, 5, 3])

  /** Cell k of the 2 x 4 rectangle joins row k / 4 and column k % 4. */
  lemma RectEnds(k: nat)
    requires k < 8
    ensures |RectEdges(2, 4)| == 8
    ensures RectEdges(2, 4)[k].u == (if k < 4 then 0 else 1)
    ensures RectEdges(2, 4)[k].v == 2 + (if k < 4 then k else k - 4)
  {
    assert RectEdges(2, 4)[k] == CellEdge(2, 4, k);
  }

  /** The cells that touch row x are 4x .. 4x + 3, and all of them do. */
  lemma RowCells(x: nat, k: nat)
    requires x < 2 && k < 8
    ensures Touches(RectEdges(2, 4)[k], x) <==> 4 * x <= k < 4 * x + 4
  {
    RectEnds(k);
  }

  /** The cells 4x .. 4x + 3 of row x, in order. */
  function RowList(x: nat): (b: seq<nat>)
    ensures |b| == 4 && Increasing(b) && forall t :: 0 <= t < 4 ==> b[t] == 4 * x + t
  {
    [4 * x, 4 * x + 1, 4 * x + 2, 4 * x + 3]
  }

  /** Every edge at row x is one of its cells. */
  lemma RowListed(x: nat)
    requires x < 2
    ensures forall t :: 0 <= t < |Incident(RectEdges(2, 4), x)| ==> Incident(RectEdges(2, 4), x)[t] in RowList(x)
  {
    var a, b := Incident(RectEdges(2, 4), x), RowList(x);
    RectEnds(0);
    forall t | 0 <= t < |a|
      ensures a[t] in b
    {
      RowCells(x, a[t]);
      assert b[a[t] - 4 * x] == a[t];
    }
  }

  /** Every cell of row x is an edge at x. */
  lemma RowComplete(x: nat)
    requires x < 2
    ensures forall t :: 0 <= t < 4 ==> RowList(x)[t] in Incident(RectEdges(2, 4), x)
  {
    RectEnds(0);
    forall t | 0 <= t < 4
      ensures RowList(x)[t] in Incident(RectEdges(2, 4), x)
    {
      RowCells(x, 4 * x + t);
    }
  }

  /** Row x of the 2 x 4 rectangle touches cells 4x .. 4x + 3. */
  lemma RowIncident(x: nat)
    requires x < 2
    ensures Incident(RectEdges(2, 4), x) == RowList(x)
  {
    RowListed(x);
    RowComplete(x);
    IncreasingUnique(Incident(RectEdges(2, 4), x), RowList(x));
  }

  /** Column j of the 2 x 4 rectangle touches cells j and 4 + j. */
  lemma ColumnIncident(j: nat)
    requires j < 4
    ensures Incident(RectEdges(2, 4), 2 + j) == [j, 4 + j]
  {
    var a, b := Incident(RectEdges(2, 4), 2 + j), [j, 4 + j];
    forall t | 0 <= t < |a|
      ensures a[t] in b
    {
      RectEnds(a[t]);
      if a[t] < 4 {
        assert a[t] == b[0];
      } else {
        assert a[t] == b[1];
      }
    }
    forall t | 0 <= t < |b|
      ensures b[t] in a
    {
      RectEnds(b[t]);
      assert Touches(RectEdges(2, 4)[b[t]], 2 + j);
    }
    IncreasingUnique(a, b);
  }

  /** The incidence lists of the 2 x 4 rectangle: each row its four cells, each column its two. */
  lemma RectIncidence()
    ensures IncidenceOf(RectEdges(2, 4), 6) == [[0, 1, 2, 3], [4, 5, 6, 7], [0, 4], [1, 5], [2, 6], [3, 7]]
  {
    RowIncident(0);
    RowIncident(1);
    ColumnIncident(0);
    ColumnIncident(1);
    ColumnIncident(2);
    ColumnIncident(3);
  }

  /** The first two vertices of the 2 x 4 rectangle are rows, the other four columns. */
  lemma RectSides()
    ensures |Names(RectVertices(2, 4))| == 6
    ensures forall i :: 0 <= i < 6 ==> Side(Names(RectVertices(2, 4))[i]) == if i < 2 then 0 else 1
  {
    assert Decimal.NatToString(0) == "0" && Decimal.NatToString(1) == "1";
    forall i | 0 <= i < 6
      ensures Side(Names(RectVertices(2, 4))[i]) == if i < 2 then 0 else 1
    {
      var vs := RectVertices(2, 4);
      if i < 2 {
        assert vs[i] == SideVertices(0, 2)[i];
      } else {
        assert vs[i] == SideVertices(1, 4)[i - 2];
      }
    }
  }

  /** The labels of `ExampleRect` at each row's and each column's cells. */
  lemma ExampleSums()
    ensures EdgeSum(ExampleRect.e, [0, 1, 2, 3]) == 18 && EdgeSum(ExampleRect.e, [4, 5, 6, 7]) == 18
    ensures EdgeSum(ExampleRect.e, [0, 4]) == 9 && EdgeSum(ExampleRect.e, [1, 5]) == 9
    ensures EdgeSum(ExampleRect.e, [2, 6]) == 9 && EdgeSum(ExampleRect.e, [3, 7]) == 9
  {
    var e := ExampleRect.e;
    assert [0, 1, 2, 3][..3] == [0, 1, 2] && [0, 1, 2][..2] == [0, 1] && [0, 1][..1] == [0];
    assert [4, 5, 6, 7][..3] == [4, 5, 6] && [4, 5, 6][..2] == [4, 5] && [4, 5][..1] == [4];
    assert [0, 4][..1] == [0] && [1, 5][..1] == [1] && [2, 6][..1] == [2] && [3, 7][..1] == [3];
  }

  /** On the rectangle's incidence lists, the rows of `ExampleRect` weigh 18 and the columns 9. */
  lemma ExampleWeightsOn(adj: seq<seq<nat>>)
    requires adj == [[0, 1, 2, 3], [4, 5, 6, 7], [0, 4], [1, 5], [2, 6], [3, 7]]
    ensures Fits(adj, ExampleRect)
    ensures EdgeWeights(ExampleRect, adj) == [18, 18, 9, 9, 9, 9]
    ensures Weights(ExampleRect, adj) == [18, 18, 9, 9, 9, 9]
  {
    ExampleSums();
    assert Fits(adj, ExampleRect) by {
      forall i, k | 0 <= i < 6 && 0 <= k < |adj[i]|
        ensures adj[i][k] < 8
      {
      }
    }
  }

  /** The weights of `ExampleRect`: rows 18, columns 9, the same with or without the vertex labels. */
  lemma ExampleRectWeights()
    ensures Fits(IncidenceOf(RectEdges(2, 4), 6), ExampleRect)
    ensures EdgeWeights(ExampleRect, IncidenceOf(RectEdges(2, 4), 6)) == [18, 18, 9, 9, 9, 9]
    ensures Weights(ExampleRect, IncidenceOf(RectEdges(2, 4), 6)) == [18, 18, 9, 9, 9, 9]
  {
    RectIncidence();
    ExampleWeightsOn(IncidenceOf(RectEdges(2, 4), 6));
  }

  /**
   * Weights 18, 18 on two rows and 9, 9, 9, 9 on four columns bring the
   * search's objective to 0, and fail the as-written assert.
   */
  lemma RejectsOn(adj: seq<seq<nat>>, names: seq<string>)
    requires Fits(adj, ExampleRect) && |names| == 6
    requires EdgeWeights(ExampleRect, adj) == Weights(ExampleRect, adj) == [18, 18, 9, 9, 9, 9]
    requires forall i :: 0 <= i < 6 ==> Side(names[i]) == if i < 2 then 0 else 1
    ensures Defined(Problem(MagicRect(18, 9, 0, 0), adj, names), ExampleRect)
    ensures Score(Problem(MagicRect(18, 9, 0, 0), adj, names), ExampleRect) == 0
    ensures !RectAssertAsWritten(Weights(ExampleRect, adj), names, 9, 18)
  {
    RectangleFormulaZero(EdgeWeights(ExampleRect, adj), names, 18, 9);
    assert Side(names[0]) == 0;
  }

  /**
   * The assertion rejects a solution: on `ExampleRect` the rows weigh
   * heightC = 18 and the columns widthC = 9, so the search's objective
   * `magicFormulaRectangle(18, 9, 0, 0)` is 0 and `attemptSolve` returns a
   * solver, yet `isMagic_Rect` with the constants in the order written
   * compares the rows with 9.
   */
  lemma RectAssertRejectsSolution()
    ensures MagicRectConsts(4, 2) == (9, 18)
    ensures Defined(Problem(MagicRect(18, 9, 0, 0), IncidenceOf(RectEdges(2, 4), 6), Names(RectVertices(2, 4))), ExampleRect)
    ensures Score(Problem(MagicRect(18, 9, 0, 0), IncidenceOf(RectEdges(2, 4), 6), Names(RectVertices(2, 4))), ExampleRect) == 0
    ensures !RectAssertAsWritten(Weights(ExampleRect, IncidenceOf(RectEdges(2, 4), 6)), Names(RectVertices(2, 4)), 9, 18)
  {
    assert MagicRectConsts(4, 2) == (72 / 8, 72 / 4);
    ExampleRectWeights();
    RectSides();
    RejectsOn(IncidenceOf(RectEdges(2, 4), 6), Names(RectVertices(2, 4)));
  }

  /** The sums of the vertices on `side`, ordered by the sign of d, are c, c + d, c + 2d, ... */
  predicate RowsFrom(ew: seq<int>, names: seq<string>, side: int, c: int, d: int)
    requires |names| == |ew|
  {
    var o := Ordered(OfSide(ew, names, side), d);
    forall i :: 0 <= i < |o| ==> o[i] == c + i * d
  }

  /**
   * `solveAntiMagicRect(r, width_step, height_step, ...)`: the rectangle is
   * returned only when the row sums, in ascending order for a positive step
   * (descending for a negative one), are heightC, heightC + heightStep, ...
   * and likewise the column sums from widthC by widthStep.
   */
  method SolveAntiMagicRect(r: Rectangle, widthStep: int, heightStep: int) returns (res: Option<Rectangle>, widthC: int, heightC: int)
    requires r.Valid() && r.width > 0 && r.height > 0 && r.g.nbv > 0 && r.g.nbv + r.g.nbe >= 2
    modifies r.g.vertices, r.g.edges, r.table
    ensures (widthC, heightC) == AntiMagicRectConsts(r.width, r.height, widthStep, heightStep)
    ensures r.Valid() && SkeletonOf(r.g) == old(SkeletonOf(r.g))
    ensures Rearranged(old(r.g.Labels()), r.g.Labels(), [], 0)
    ensures res.Some? ==> res.value == r
    ensures res.Some? ==> RowsFrom(GraphEdgeWeights(r.g), Names(r.g.Vertices()), 0, heightC, heightStep)
    ensures res.Some? ==> RowsFrom(GraphEdgeWeights(r.g), Names(r.g.Vertices()), 1, widthC, widthStep)
    ensures res.Some? ==> AllCells(r.g.Edges(), Names(r.g.Vertices()), r.width, r.height)
    ensures res.Some? ==> r.Table() == Filled(old(r.Table()), r.g.Edges(),
                                              Cells(r.g.Edges(), Names(r.g.Vertices()), r.width, r.height), r.height, r.width)
    ensures res.None? ==> !RowsFrom(GraphEdgeWeights(r.g), Names(r.g.Vertices()), 0, heightC, heightStep) ||
                          !RowsFrom(GraphEdgeWeights(r.g), Names(r.g.Vertices()), 1, widthC, widthStep) ||
                          !AllCells(r.g.Edges(), Names(r.g.Vertices()), r.width, r.height)
    ensures !(RowsFrom(GraphEdgeWeights(r.g), Names(r.g.Vertices()), 0, heightC, heightStep) &&
              RowsFrom(GraphEdgeWeights(r.g), Names(r.g.Vertices()), 1, widthC, widthStep)) ==>
            r.Table() == old(r.Table())
  {
    var consts := AntiMagicRectConsts(r.width, r.height, widthStep, heightStep);
    widthC, heightC := consts.0, consts.1;
    res := SearchAndFill(r, heightC, widthC, heightStep, widthStep);
  }

  /** The part `solveMagicRect` and `solveAntiMagicRect` share: search for row constant
      `u` and column constant `v` (steps `du`, `dv`), then fill the table when solved. */
  method SearchAndFill(r: Rectangle, u: int, v: int, du: int, dv: int) returns (res: Option<Rectangle>)
    requires r.Valid() && r.g.nbv > 0 && r.g.nbv + r.g.nbe >= 2
    modifies r.g.vertices, r.g.edges, r.table
    ensures r.Valid() && SkeletonOf(r.g) == old(SkeletonOf(r.g))
    ensures Rearranged(old(r.g.Labels()), r.g.Labels(), [], 0)
    ensures res.Some? ==> res.value == r
    ensures res.Some? <==> (RowsFrom(GraphEdgeWeights(r.g), Names(r.g.Vertices()), 0, u, du) &&
                            RowsFrom(GraphEdgeWeights(r.g), Names(r.g.Vertices()), 1, v, dv) &&
                            AllCells(r.g.Edges(), Names(r.g.Vertices()), r.width, r.height))
    ensures du == 0 && dv == 0 ==>
            (RowsFrom(GraphEdgeWeights(r.g), Names(r.g.Vertices()), 0, u, du) &&
             RowsFrom(GraphEdgeWeights(r.g), Names(r.g.Vertices()), 1, v, dv) <==>
             IsMagicRect(GraphEdgeWeights(r.g), Names(r.g.Vertices()), u, v))
    ensures res.Some? ==> r.Table() == Filled(old(r.Table()), r.g.Edges(),
                                              Cells(r.g.Edges(), Names(r.g.Vertices()), r.width, r.height), r.height, r.width)
    ensures !(RowsFrom(GraphEdgeWeights(r.g), Names(r.g.Vertices()), 0, u, du) &&
              RowsFrom(GraphEdgeWeights(r.g), Names(r.g.Vertices()), 1, v, dv)) ==>
            r.Table() == old(r.Table())
  {
    var solved := SearchRect(r, u, v, du, dv);
    assert unchanged(r, r.table);
    ghost var ew, names := GraphEdgeWeights(r.g), Names(r.g.Vertices());
    res := None;
    if solved {
      var ok := r.UpdateRectangle();
      assert GraphEdgeWeights(r.g) == ew && Names(r.g.Vertices()) == names;
      if ok {
        res := Some(r);
      }
    }
  }
}
