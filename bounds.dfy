/**
 * The feasibility bounds of a vertex-magic total labeling (getMinMagicConst
 * and getMaxMagicConst of Solver.c) and why they hold.
 *
 * In a graph with n vertices and m edges, each edge joining two different
 * vertices, the weights add up to the vertex labels plus twice the edge
 * labels (each edge is counted at both its ends). When the labels are
 * 1..n+m and every weight is k, n*k is the total T = C(n+m+1, 2) plus the
 * edge labels, which add up to at least C(m+1, 2), and 2T minus the vertex
 * labels, which add up to at least C(n+1, 2). Hence
 * ceil((T + C(m+1, 2)) / n) <= k <= floor((2T - C(n+1, 2)) / n).
 */
module Bounds {
  import opened Seqs
  import opened Scores
  import opened Graphs
  import opened Moves
  import Utils

  // ---------------------------------------------------------------- integer division of C doubles

  /** The least r with a <= r*n: the ceiling of a/n. */
  function CeilDiv(a: int, n: int): (r: int)
    requires n > 0
    ensures (r - 1) * n < a <= r * n
  {
    -((-a) / n)
  }

  /** The greatest r with r*n <= a: the floor of a/n. */
  function FloorDiv(a: int, n: int): (r: int)
    requires n > 0
    ensures r * n <= a < (r + 1) * n
  {
    a / n
  }

  /** `ceil` on a double, as an integer. */
  function Ceil(x: real): (r: int)
    ensures r as real - 1.0 < x <= r as real
  {
    -((-x).Floor)
  }

  /** The floor of a real quotient of integers is the (Euclidean) integer quotient. */
  lemma FloorOfQuotient(a: int, n: int)
    requires n > 0
    ensures (a as real / n as real).Floor == FloorDiv(a, n)
  {
    var q, nn := a as real, n as real;
    var x := q / nn;
    assert x * nn == q;
    var f := x.Floor;
    ScaleLe(f as real, x, nn);
    ScaleLt(x, f as real + 1.0, nn);
    CastMul(f, n);
    CastMul(f + 1, n);
    assert (f + 1) as real == f as real + 1.0;
    assert x * nn < (f as real + 1.0) * nn;
    assert q < ((f + 1) * n) as real;
    FloorUnique(f, a, n);
  }

  /** And its ceiling is the integer ceiling. */
  lemma CeilOfQuotient(a: int, n: int)
    requires n > 0
    ensures Ceil(a as real / n as real) == CeilDiv(a, n)
  {
    assert -(a as real / n as real) == (-a) as real / n as real;
    FloorOfQuotient(-a, n);
  }

  lemma ScaleLe(p: real, x: real, n: real)
    requires n > 0.0 && p <= x
    ensures p * n <= x * n
  {
  }

  lemma ScaleLt(p: real, x: real, n: real)
    requires n > 0.0 && p < x
    ensures p * n < x * n
  {
  }

  lemma CastMul(a: int, b: int)
    ensures (a * b) as real == a as real * b as real
  {
  }

  /** The only f with f*n <= a < (f+1)*n is a / n. */
  lemma FloorUnique(f: int, a: int, n: int)
    requires n > 0 && f * n <= a < (f + 1) * n
    ensures f == a / n
  {
    var d := a / n;
    assert d * n <= a < (d + 1) * n;
    if f < d {
      MulMono(f + 1, d, n);
      assert false;
    }
    if d < f {
      MulMono(d + 1, f, n);
      assert false;
    }
  }

  lemma MulMono(a: int, b: int, n: int)
    requires n > 0 && a <= b
    ensures a * n <= b * n
  {
  }

  // ---------------------------------------------------------------- the bounds

  /** `binom(n, 2)`. */
  function Binom2(n: int): int
  {
    n * (n - 1) / 2
  }

  /** `getMinMagicConst` of a graph with n > 0 vertices and m edges. */
  function MinMagicConst(n: nat, m: nat): int
    requires n > 0
  {
    CeilDiv(Binom2(n + m + 1) + Binom2(m + 1), n)
  }

  /** `getMaxMagicConst` of a graph with n > 0 vertices and m edges. */
  function MaxMagicConst(n: nat, m: nat): int
    requires n > 0
  {
    FloorDiv(2 * Binom2(n + m + 1) - Binom2(n + 1), n)
  }

  /**
   * `getMinMagicConst(g)`: the two binomials in doubles, divided by nbv and
   * rounded up. The source divides by nbv, so it needs a vertex.
   */
  method GetMinMagicConst(g: Graph) returns (r: int)
    requires g.Valid() && g.nbv > 0
    ensures r == MinMagicConst(g.nbv, g.nbe)
  {
    var nbv, nbe := g.nbv, g.nbe;
    var b1 := Utils.Binom(nbv + nbe + 1, 2);
    var b2 := Utils.Binom(nbe + 1, 2);
    var min := Ceil((b1 + b2) / nbv as real);
    CeilOfQuotient(Binom2(nbv + nbe + 1) + Binom2(nbe + 1), nbv);
    r := min;
  }

  /** `getMaxMagicConst(g)`: twice the first binomial less the vertex one, divided by nbv and rounded down. */
  method GetMaxMagicConst(g: Graph) returns (r: int)
    requires g.Valid() && g.nbv > 0
    ensures r == MaxMagicConst(g.nbv, g.nbe)
  {
    var nbv, nbe := g.nbv, g.nbe;
    var b1 := Utils.Binom(nbv + nbe + 1, 2);
    var b2 := Utils.Binom(nbv + 1, 2);
    var max := ((2.0 * b1 - b2) / nbv as real).Floor;
    FloorOfQuotient(2 * Binom2(nbv + nbe + 1) - Binom2(nbv + 1), nbv);
    r := max;
  }

  // ---------------------------------------------------------------- counting each edge twice

  /** Edges joining two different vertices below n. */
  predicate Loopless(es: seq<Edge>, n: nat)
  {
    forall k :: 0 <= k < |es| ==> es[k].u != es[k].v && es[k].u < n && es[k].v < n
  }

  /** The incidence lists `createSolver` builds for vertices 0..n-1. */
  function IncidenceOf(es: seq<Edge>, n: nat): (adj: seq<seq<nat>>)
    ensures |adj| == n && forall x :: 0 <= x < n ==> adj[x] == Incident(es, x)
  {
    seq(n, x requires 0 <= x => Incident(es, x))
  }

  /** Each vertex's sum of incident edge labels. */
  function IncidentSums(es: seq<Edge>, e: seq<int>, n: nat): (r: seq<int>)
    requires |e| == |es|
    ensures |r| == n && forall x :: 0 <= x < n ==> r[x] == EdgeSum(e, Incident(es, x))
  {
    seq(n, x requires 0 <= x => EdgeSum(e, Incident(es, x)))
  }

  /** A longer label sequence does not change the sum over indices of the shorter one. */
  lemma {:induction false} EdgeSumExtend(e: seq<int>, l: int, idx: seq<nat>)
    requires forall k :: 0 <= k < |idx| ==> idx[k] < |e|
    ensures EdgeSum(e + [l], idx) == EdgeSum(e, idx)
  {
    if idx != [] {
      EdgeSumExtend(e, l, idx[..|idx| - 1]);
    }
  }

  lemma {:induction false} SumPointwise(a: seq<int>, b: seq<int>, c: seq<int>)
    requires |a| == |b| == |c| && forall i :: 0 <= i < |c| ==> c[i] == a[i] + b[i]
    ensures Sum(c) == Sum(a) + Sum(b)
  {
    if c != [] {
      SumPointwise(a[..|a| - 1], b[..|b| - 1], c[..|c| - 1]);
    }
  }

  /** A sequence that is l at u and at v (u != v) and 0 elsewhere adds up to 2l. */
  lemma {:induction false} SumTwoPoints(c: seq<int>, u: nat, v: nat, l: int)
    requires u != v && u < |c| && v < |c|
    requires forall i :: 0 <= i < |c| ==> c[i] == if i == u || i == v then l else 0
    ensures Sum(c) == 2 * l
  {
    SumIndicators(c, u, v, l);
  }

  lemma {:induction false} SumIndicators(c: seq<int>, u: nat, v: nat, l: int)
    requires u != v
    requires forall i :: 0 <= i < |c| ==> c[i] == if i == u || i == v then l else 0
    ensures Sum(c) == (if u < |c| then l else 0) + (if v < |c| then l else 0)
  {
    if c != [] {
      SumIndicators(c[..|c| - 1], u, v, l);
    }
  }

  /** Adding an edge adds its label at each of its ends. */
  lemma IncidentSumStep(es: seq<Edge>, ed: Edge, e: seq<int>, l: int, x: nat)
    requires |e| == |es|
    ensures EdgeSum(e + [l], Incident(es + [ed], x)) == EdgeSum(e, Incident(es, x)) + (if Touches(ed, x) then l else 0)
  {
    var inc := Incident(es, x);
    IncidentAppend(es, ed, x);
    EdgeSumExtend(e, l, inc);
    if Touches(ed, x) {
      EdgeSumPush(e + [l], inc, |es|);
      assert (e + [l])[|es|] == l;
    }
  }

  /** The edges at x after appending ed: the old ones, then ed's position if it touches x. */
  lemma IncidentAppend(es: seq<Edge>, ed: Edge, x: nat)
    ensures Touches(ed, x) ==> Incident(es + [ed], x) == Incident(es, x) + [|es|]
    ensures !Touches(ed, x) ==> Incident(es + [ed], x) == Incident(es, x)
  {
    assert (es + [ed])[..|es|] == es;
  }

  /** One more index adds the label at that index. */
  lemma EdgeSumPush(e: seq<int>, idx: seq<nat>, j: nat)
    requires j < |e| && forall k :: 0 <= k < |idx| ==> idx[k] < |e|
    ensures EdgeSum(e, idx + [j]) == EdgeSum(e, idx) + e[j]
  {
    assert (idx + [j])[..|idx|] == idx;
  }

  /** The handshake: the incident edge labels of all vertices add up to twice the edge labels. */
  lemma {:induction false} Handshake(es: seq<Edge>, e: seq<int>, n: nat)
    requires |e| == |es| && Loopless(es, n)
    ensures Sum(IncidentSums(es, e, n)) == 2 * Sum(e)
  {
    if es == [] {
      SumIndicators(IncidentSums(es, e, n), n, n + 1, 0);
    } else {
      var m := |es| - 1;
      var es', e' := es[..m], e[..m];
      assert es == es' + [es[m]] && e == e' + [e[m]];
      assert Loopless(es', n);
      Handshake(es', e', n);
      HandshakeStep(es', es[m], e', e[m], n);
    }
  }

  /** One more edge, between two different vertices below n, adds its label twice. */
  lemma HandshakeStep(es: seq<Edge>, ed: Edge, e: seq<int>, l: int, n: nat)
    requires |e| == |es| && ed.u != ed.v && ed.u < n && ed.v < n
    ensures Sum(IncidentSums(es + [ed], e + [l], n)) == Sum(IncidentSums(es, e, n)) + 2 * l
  {
    var r, r' := IncidentSums(es + [ed], e + [l], n), IncidentSums(es, e, n);
    var ind := seq(n, x requires 0 <= x => if x == ed.u || x == ed.v then l else 0);
    forall x | 0 <= x < n ensures r[x] == r'[x] + ind[x] {
      IncidentSumStep(es, ed, e, l, x);
    }
    SumPointwise(r', ind, r);
    SumTwoPoints(ind, ed.u, ed.v, l);
  }

  /** The weights add up to the vertex labels plus twice the edge labels. */
  lemma WeightsSum(L: Labeling, es: seq<Edge>)
    requires |L.e| == |es| && Loopless(es, |L.v|)
    ensures Fits(IncidenceOf(es, |L.v|), L)
    ensures Sum(Weights(L, IncidenceOf(es, |L.v|))) == Sum(L.v) + 2 * Sum(L.e)
  {
    var n := |L.v|;
    var w := Weights(L, IncidenceOf(es, n));
    SumPointwise(L.v, IncidentSums(es, L.e, n), w);
    Handshake(es, L.e, n);
  }

  /** n weights all equal to k add up to n*k. */
  lemma {:induction false} MagicSum(w: seq<int>, k: int)
    requires IsMagic(w, k)
    ensures Sum(w) == |w| * k
  {
    if w != [] {
      MagicSum(w[..|w| - 1], k);
    }
  }

  /** Distinct labels of 1..t split into two parts: the parts add up to 1 + ... + t, each to at least 1 + ... + its size. */
  lemma PartSums(a: seq<int>, b: seq<int>)
    requires multiset(a + b) == multiset(OneTo(|a + b|))
    ensures LabelSumFacts(|a|, |b|, |a + b|, Sum(a), Sum(b))
  {
    SumsOfParts(a + b, a, b, |a + b|);
    PermutationOfOneTo(a + b, |a + b|);
    DistinctParts(a, b);
    DistinctPositiveSum(a);
    DistinctPositiveSum(b);
  }

  /** A permutation of 1..n adds up to 1 + ... + n, whichever way it is split. */
  lemma SumsOfParts(s: seq<int>, a: seq<int>, b: seq<int>, n: nat)
    requires s == a + b && multiset(s) == multiset(OneTo(n))
    ensures 2 * (Sum(a) + Sum(b)) == n * (n + 1)
  {
    SumPermutation(s, OneTo(n));
    SumOneTo(n);
    SumAppend(a, b);
  }

  /** The two parts of a sequence of distinct positive values are such sequences too. */
  lemma DistinctParts(a: seq<int>, b: seq<int>)
    requires Distinct(a + b) && forall k :: 0 <= k < |a + b| ==> (a + b)[k] >= 1
    ensures Distinct(a) && forall k :: 0 <= k < |a| ==> a[k] >= 1
    ensures Distinct(b) && forall k :: 0 <= k < |b| ==> b[k] >= 1
  {
    var s := a + b;
    forall i, j | 0 <= i < j < |a| ensures a[i] != a[j] {
      assert a[i] == s[i] && a[j] == s[j];
    }
    forall k | 0 <= k < |a| ensures a[k] >= 1 {
      assert a[k] == s[k];
    }
    forall i, j | 0 <= i < j < |b| ensures b[i] != b[j] {
      assert b[i] == s[|a| + i] && b[j] == s[|a| + j];
    }
    forall k | 0 <= k < |b| ensures b[k] >= 1 {
      assert b[k] == s[|a| + k];
    }
  }

  /**
   * The bounds are necessary: a labeling of a loopless graph with
   * n > 0 vertices by 1..n+m that is vertex-magic with constant k has
   * getMinMagicConst <= k <= getMaxMagicConst.
   */
  lemma MagicConstInBounds(L: Labeling, es: seq<Edge>, k: int)
    requires |L.v| > 0 && MagicLabeling(L, es, k) && LabelsOneTo(L)
    ensures MinMagicConst(|L.v|, |L.e|) <= k <= MaxMagicConst(|L.v|, |L.e|)
  {
    MagicWeightSum(L, es, k);
    LabelSums(L);
    ConstArith(|L.v|, |L.e|, |Joined(L)|, k, Sum(L.v), Sum(L.e));
  }

  /** L labels the vertices and the edges es so that every vertex weight is k. */
  predicate MagicLabeling(L: Labeling, es: seq<Edge>, k: int)
  {
    |L.e| == |es| && Loopless(es, |L.v|) &&
    Fits(IncidenceOf(es, |L.v|), L) && IsMagic(Weights(L, IncidenceOf(es, |L.v|)), k)
  }

  /** The labels of L are 1..n+m, each used once. */
  predicate LabelsOneTo(L: Labeling)
  {
    multiset(Joined(L)) == multiset(OneTo(|Joined(L)|))
  }

  /** Labels 1..n+m add up to 1 + ... + (n+m), and each part to at least 1 + ... + its size. */
  lemma LabelSums(L: Labeling)
    requires LabelsOneTo(L)
    ensures LabelSumFacts(|L.v|, |L.e|, |Joined(L)|, Sum(L.v), Sum(L.e))
  {
    PartSums(L.v, L.e);
  }

  /** The facts about the two label sums that the bounds are counted from. */
  predicate SumFacts(n: nat, m: nat, t: nat, k: int, sv: int, se: int)
  {
    n > 0 && t == n + m && WeightFact(n, k, sv, se) && LabelSumFacts(n, m, t, sv, se)
  }

  /** n equal weights k add up to the vertex labels plus twice the edge labels. */
  predicate WeightFact(n: nat, k: int, sv: int, se: int)
  {
    n * k == sv + 2 * se
  }

  /** What the labels 1..t, split into n vertex and m edge labels, add up to. */
  predicate LabelSumFacts(n: nat, m: nat, t: nat, sv: int, se: int)
  {
    2 * (sv + se) == t * (t + 1) && 2 * sv >= n * (n + 1) && 2 * se >= m * (m + 1)
  }

  /** The n equal weights add up to the vertex labels plus twice the edge labels. */
  lemma MagicWeightSum(L: Labeling, es: seq<Edge>, k: int)
    requires MagicLabeling(L, es, k)
    ensures WeightFact(|L.v|, k, Sum(L.v), Sum(L.e))
  {
    WeightsSum(L, es);
    MagicSum(Weights(L, IncidenceOf(es, |L.v|)), k);
  }

  /** The counting behind the bounds, on the two label sums sv and se alone. */
  lemma ConstArith(n: nat, m: nat, t: nat, k: int, sv: int, se: int)
    requires SumFacts(n, m, t, k, sv, se)
    ensures MinMagicConst(n, m) <= k <= MaxMagicConst(n, m)
  {
    assert n + m + 1 == t + 1;
    Binom2Succ(t);
    Binom2Succ(m);
    Binom2Succ(n);
    CeilLe(Binom2(t + 1) + Binom2(m + 1), n, k);
    FloorGe(2 * Binom2(t + 1) - Binom2(n + 1), n, k);
  }

  lemma Binom2Succ(x: int)
    ensures 2 * Binom2(x + 1) == (x + 1) * x
  {
    Utils.HalfOfConsecutive(x + 1);
  }

  /** A k with a <= n * k is at least the rounded-up quotient. */
  lemma CeilLe(a: int, n: int, k: int)
    requires n > 0 && a <= k * n
    ensures CeilDiv(a, n) <= k
  {
    var c := CeilDiv(a, n);
    if c > k {
      MulMono(k, c - 1, n);
      assert false;
    }
  }

  /** A k with n * k <= a is at most the rounded-down quotient. */
  lemma FloorGe(a: int, n: int, k: int)
    requires n > 0 && k * n <= a
    ensures k <= FloorDiv(a, n)
  {
    var f := FloorDiv(a, n);
    if k > f {
      MulMono(f + 1, k, n);
      assert false;
    }
  }
}
