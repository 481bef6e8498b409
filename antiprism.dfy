/**
 * The antiprism of Graph.c on 2n vertices: an inner cycle x1..xn, an outer
 * cycle y1..yn, and the 2n edges linking xi to yi and x(i+1) to yi. Vertex
 * i (0-based, xs first) is labelled i + 1 and edge k is labelled 2n + k + 1,
 * so the whole labeling is 1..6n. Edge k is named "e<k>", except that the
 * code as written gives the last edge the name of edge 3n-1 (see
 * AntiprismEdgesAsWritten).
 *
 * `oddAntiprismVMT` then relabels it; for odd n >= 3 the new labeling is a
 * vertex-magic total labeling with magic constant 16n + 3.
 */
module Antiprisms {
  import opened Seqs
  import opened Decimal
  import opened Graphs
  import opened Scores
  import opened Labelings
  import opened Bounds
  import opened Generators

  // ---------------------------------------------------------------- the graph

  /** The two xs, or the two ys, of the cycle edge leaving position i of a cycle of n. */
  function Next(i: nat, n: nat): nat
  {
    if i + 1 < n then i + 1 else 0
  }

  /** The endpoints of edge k, in the order `createAntiprism` passes them. */
  function ApEnds(n: nat, k: nat): (r: (nat, nat))
    requires k < 4 * n
    ensures r.0 < 2 * n && r.1 < 2 * n
  {
    if k < n then (k, Next(k, n))
    else if k < 2 * n then (k, n + Next(k - n, n))
    else if k < 3 * n then (k - 2 * n, k - n)
    else (Next(k - 3 * n, n), k - 2 * n)
  }

  /** Edge k, labelled 2n + k + 1, under the given name. */
  function ApEdge(n: nat, k: nat, name: string): Edge
    requires k < 4 * n
  {
    Edge(name, 2 * n + k + 1, ApEnds(n, k).0, ApEnds(n, k).1)
  }

  /** The 4n edges in the order they are added; the last one named `lastName`, the others "e<k>". */
  function ApEdgesNamed(n: nat, lastName: string): (r: seq<Edge>)
    ensures |r| == 4 * n
  {
    seq(4 * n, k requires 0 <= k < 4 * n => ApEdge(n, k, if k == 4 * n - 1 then lastName else "e" + NatToString(k)))
  }

  /** Entry k of the antiprism's edges. */
  lemma ApEdgeAt(n: nat, lastName: string, k: nat)
    requires k < 4 * n
    ensures ApEdgesNamed(n, lastName)[k] == ApEdge(n, k, if k == 4 * n - 1 then lastName else "e" + NatToString(k))
  {
  }

  /** All entries of the antiprism's edges. */
  lemma ApEdgesAt(n: nat, lastName: string)
    ensures forall k :: 0 <= k < 4 * n ==> ApEdgesNamed(n, lastName)[k] == ApEdge(n, k, if k == 4 * n - 1 then lastName else "e" + NatToString(k))
  {
  }

  /** The edges as intended: edge k is named "e<k>". */
  function AntiprismEdges(n: nat): seq<Edge>
    requires n >= 1
  {
    ApEdgesNamed(n, "e" + NatToString(4 * n - 1))
  }

  /** The edges as written: the last edge repeats the name "e<3n-1>". */
  function AntiprismEdgesAsWritten(n: nat): seq<Edge>
    requires n >= 1
  {
    ApEdgesNamed(n, "e" + NatToString(3 * n - 1))
  }

  /** The corrected antiprism names its edges "e0", ..., "e<4n-1>": no two alike. */
  lemma AntiprismNames(n: nat)
    requires n >= 1
    ensures NamedInOrder(AntiprismEdges(n))
    ensures forall i, j :: 0 <= i < j < 4 * n ==> AntiprismEdges(n)[i].name != AntiprismEdges(n)[j].name
  {
    NamedDistinct(AntiprismEdges(n));
  }

  /**
   * As written, the last edge x1 - yn takes the name of edge 3n-1, so two
   * edges share a name and the names are not "e0", ..., "e<4n-1>".
   */
  lemma AntiprismDuplicateName(n: nat)
    requires n >= 1
    ensures AntiprismEdgesAsWritten(n)[3 * n - 1].name == AntiprismEdgesAsWritten(n)[4 * n - 1].name
    ensures !NamedInOrder(AntiprismEdgesAsWritten(n))
  {
    var last := "e" + NatToString(3 * n - 1);
    var es := ApEdgesNamed(n, last);
    ApEdgeAt(n, last, 3 * n - 1);
    ApEdgeAt(n, last, 4 * n - 1);
    assert es[3 * n - 1].name == last && es[4 * n - 1].name == last;
    if NamedInOrder(es) {
      NamedDistinct(es);
    }
  }

  /** x1..xn labelled 1..n, then y1..yn labelled n+1..2n. */
  function AntiprismVertices(n: nat): seq<Vertex>
  {
    Run("x", 1, 1, n) + Run("y", 1, n + 1, n)
  }

  /** Before relabeling, the antiprism is labelled 1..6n: the vertices first, then the edges in order. */
  lemma AntiprismLabels(n: nat)
    requires n >= 1
    ensures VLabels(AntiprismVertices(n)) + ELabels(AntiprismEdges(n)) == OneTo(6 * n)
  {
    VertexLabels(n);
    EdgeLabels(n);
    OneToJoin(VLabels(AntiprismVertices(n)), ELabels(AntiprismEdges(n)), 6 * n);
  }

  lemma VertexLabels(n: nat)
    ensures |VLabels(AntiprismVertices(n))| == 2 * n
    ensures VLabels(AntiprismVertices(n)) == OneTo(2 * n)
  {
    var vs := AntiprismVertices(n);
    var vl := VLabels(vs);
    forall k | 0 <= k < 2 * n
      ensures vl[k] == OneTo(2 * n)[k]
    {
      assert vl[k] == vs[k].lab;
    }
  }

  lemma EdgeLabels(n: nat)
    requires n >= 1
    ensures |ELabels(AntiprismEdges(n))| == 4 * n
    ensures forall k :: 0 <= k < 4 * n ==> ELabels(AntiprismEdges(n))[k] == 2 * n + k + 1
  {
    var es := AntiprismEdges(n);
    forall k | 0 <= k < 4 * n
      ensures ELabels(es)[k] == 2 * n + k + 1
    {
      assert ELabels(es)[k] == es[k].lab;
    }
  }

  /** One `addEdge` of a generator: edge e, which is entry k of the intended sequence T. */
  method AddNext(g: Graph, ghost T: seq<Edge>, ghost k: nat, e: Edge)
    requires g.Valid() && k < |T| && e == T[k] && g.Edges() == Capped(T[..k], g.nbeMax)
    modifies g`nbe, g.edges
    ensures g.Valid() && g.Edges() == Capped(T[..k + 1], g.nbeMax)
  {
    var ok := g.AddEdge(e);
    CappedStep(T, k, g.nbeMax);
  }

  /**
   * The loops of `createAntiprism`, with the name of the last edge as a
   * parameter: the vertices all fit, and the edges are kept while the
   * capacity n(2n-1) lasts (all of them once n >= 3).
   */
  method BuildAntiprism(name: string, n: nat, lastName: string) returns (g: Graph)
    requires n >= 1
    ensures fresh(g) && fresh(g.vertices) && fresh(g.edges)
    ensures g.Valid() && g.name == name && g.nbvMax == 2 * n
    ensures n >= 3 ==> 4 * n <= g.nbeMax
    ensures g.Vertices() == AntiprismVertices(n)
    ensures g.Edges() == Capped(ApEdgesNamed(n, lastName), g.nbeMax)
    ensures n >= 3 ==> g.Edges() == ApEdgesNamed(n, lastName)
  {
    g := NewWithVertices(name, n);
    AddAntiprismEdges(g, n, lastName);
    AntiprismFits(n, lastName, g.nbeMax);
  }

  /** `createGraph(name, 2n)` and the two vertex loops. */
  method NewWithVertices(name: string, n: nat) returns (g: Graph)
    ensures fresh(g) && fresh(g.vertices) && fresh(g.edges)
    ensures g.Valid() && g.name == name && g.nbvMax == 2 * n && g.nbe == 0
    ensures n >= 3 ==> 4 * n <= g.nbeMax
    ensures g.Vertices() == AntiprismVertices(n)
  {
    g := new Graph(name, 2 * n);
    ghost var room := g.nbeMax;
    assert n >= 3 ==> 4 * n <= room by {
      if n >= 3 {
        AntiprismRoom(n);
      }
    }
    AddRun(g, "x", 1, 1, n);
    AddRun(g, "y", 1, n + 1, n);
    assert g.nbeMax == room;
  }

  /** The four edge loops, in order. */
  method AddAntiprismEdges(g: Graph, n: nat, lastName: string)
    requires n >= 1 && g.Valid() && g.nbe == 0
    modifies g`nbe, g.edges
    ensures g.Valid() && g.Edges() == Capped(ApEdgesNamed(n, lastName), g.nbeMax)
  {
    assert ApEdgesNamed(n, lastName)[..0] == [];
    AddInnerCycle(g, n, lastName);
    AddOuterCycle(g, n, lastName);
    AddLinks(g, n, lastName);
    AddCrossLinks(g, n, lastName);
    assert ApEdgesNamed(n, lastName)[..4 * n] == ApEdgesNamed(n, lastName);
  }

  /** The inner cycle x1 - x2 - ... - xn - x1: edges 0..n-1. */
  method AddInnerCycle(g: Graph, n: nat, lastName: string)
    requires n >= 1 && g.Valid() && g.Edges() == Capped(ApEdgesNamed(n, lastName)[..0], g.nbeMax)
    modifies g`nbe, g.edges
    ensures g.Valid() && g.Edges() == Capped(ApEdgesNamed(n, lastName)[..n], g.nbeMax)
  {
    ghost var T := ApEdgesNamed(n, lastName);
    ghost var k := 0;
    var i := 0;
    while i < n - 1
      invariant 0 <= i <= n - 1 && k == i
      invariant g.Valid() && g.Edges() == Capped(T[..k], g.nbeMax)
    {
      InnerEdge(n, lastName, i, k);
      AddNext(g, T, k, Edge("e" + NatToString(i), 2 * n + i + 1, i, i + 1));
      k, i := k + 1, i + 1;
    }
    assert k == n - 1;
    AddInnerLast(g, n, lastName);
  }

  /** The edge after the inner-cycle loop: edge n - 1 closes the cycle, xn - x1. */
  method AddInnerLast(g: Graph, n: nat, lastName: string)
    requires n >= 1 && g.Valid() && g.Edges() == Capped(ApEdgesNamed(n, lastName)[..n - 1], g.nbeMax)
    modifies g`nbe, g.edges
    ensures g.Valid() && g.Edges() == Capped(ApEdgesNamed(n, lastName)[..n], g.nbeMax)
  {
    InnerEdge(n, lastName, n - 1, n - 1);
    AddNext(g, ApEdgesNamed(n, lastName), n - 1, Edge("e" + NatToString(n - 1), 2 * n + n, n - 1, 0));
  }

  /** The outer cycle y1 - y2 - ... - yn - y1: edges n..2n-1. */
  method AddOuterCycle(g: Graph, n: nat, lastName: string)
    requires n >= 1 && g.Valid() && g.Edges() == Capped(ApEdgesNamed(n, lastName)[..n], g.nbeMax)
    modifies g`nbe, g.edges
    ensures g.Valid() && g.Edges() == Capped(ApEdgesNamed(n, lastName)[..2 * n], g.nbeMax)
  {
    ghost var T := ApEdgesNamed(n, lastName);
    ghost var k := n;
    var i := 0;
    while i < n - 1
      invariant 0 <= i <= n - 1 && k == n + i
      invariant g.Valid() && g.Edges() == Capped(T[..k], g.nbeMax)
    {
      AddOuterEdge(g, n, lastName, i, k);
      k, i := k + 1, i + 1;
    }
    assert k == 2 * n - 1;
    AddOuterLast(g, n, lastName);
  }

  /** The edge after the outer-cycle loop: edge 2n - 1 closes the cycle, yn - y1. */
  method AddOuterLast(g: Graph, n: nat, lastName: string)
    requires n >= 1 && g.Valid() && g.Edges() == Capped(ApEdgesNamed(n, lastName)[..2 * n - 1], g.nbeMax)
    modifies g`nbe, g.edges
    ensures g.Valid() && g.Edges() == Capped(ApEdgesNamed(n, lastName)[..2 * n], g.nbeMax)
  {
    OuterEdge(n, lastName, n - 1, 2 * n - 1);
    AddNext(g, ApEdgesNamed(n, lastName), 2 * n - 1, Edge("e" + NatToString(2 * n - 1), 3 * n + n, 2 * n - 1, n));
  }

  /** One pass of the outer-cycle loop: edge n + i joins yi and y(i+1). */
  method AddOuterEdge(g: Graph, n: nat, lastName: string, i: nat, ghost k: nat)
    requires i < n - 1 && k == n + i
    requires g.Valid() && g.Edges() == Capped(ApEdgesNamed(n, lastName)[..k], g.nbeMax)
    modifies g`nbe, g.edges
    ensures g.Valid() && g.Edges() == Capped(ApEdgesNamed(n, lastName)[..k + 1], g.nbeMax)
  {
    OuterEdge(n, lastName, i, k);
    AddNext(g, ApEdgesNamed(n, lastName), k, Edge("e" + NatToString(n + i), 3 * n + i + 1, n + i, n + i + 1));
  }

  /** Edge i of the inner cycle, at position k = i, joins xi and x(i+1), xn and x1 for the last. */
  lemma InnerEdge(n: nat, lastName: string, i: nat, k: nat)
    requires i < n && k == i
    ensures ApEdgesNamed(n, lastName)[k] ==
            if i < n - 1 then Edge("e" + NatToString(i), 2 * n + i + 1, i, i + 1)
            else Edge("e" + NatToString(n - 1), 2 * n + n, n - 1, 0)
  {
  }

  /** Edge n + i of the outer cycle joins yi and y(i+1), yn and y1 for the last. */
  lemma OuterEdge(n: nat, lastName: string, i: nat, k: nat)
    requires i < n && k == n + i
    ensures ApEdgesNamed(n, lastName)[k] ==
            if i < n - 1 then Edge("e" + NatToString(n + i), 3 * n + i + 1, n + i, n + i + 1)
            else Edge("e" + NatToString(2 * n - 1), 3 * n + n, 2 * n - 1, n)
  {
  }

  /** Edge 2n + i links xi and yi. */
  lemma LinkEdge(n: nat, lastName: string, i: nat, k: nat)
    requires i < n && k == 2 * n + i
    ensures ApEdgesNamed(n, lastName)[k] == Edge("e" + NatToString(2 * n + i), 4 * n + i + 1, i, n + i)
  {
  }

  /** Edge 3n + i links x(i+1) and yi; the last one, x1 and yn, is named `lastName`. */
  lemma CrossEdge(n: nat, lastName: string, i: nat, k: nat)
    requires i < n && k == 3 * n + i
    ensures ApEdgesNamed(n, lastName)[k] ==
            if i < n - 1 then Edge("e" + NatToString(3 * n + i), 5 * n + i + 1, i + 1, n + i)
            else Edge(lastName, 5 * n + n, 0, n + n - 1)
  {
  }

  /** The links xi - yi: edges 2n..3n-1. */
  method AddLinks(g: Graph, n: nat, lastName: string)
    requires n >= 1 && g.Valid() && g.Edges() == Capped(ApEdgesNamed(n, lastName)[..2 * n], g.nbeMax)
    modifies g`nbe, g.edges
    ensures g.Valid() && g.Edges() == Capped(ApEdgesNamed(n, lastName)[..3 * n], g.nbeMax)
  {
    ghost var T := ApEdgesNamed(n, lastName);
    ghost var k := 2 * n;
    var i := 0;
    while i < n
      invariant 0 <= i <= n && k == 2 * n + i
      invariant g.Valid() && g.Edges() == Capped(T[..k], g.nbeMax)
    {
      LinkEdge(n, lastName, i, k);
      AddNext(g, T, k, Edge("e" + NatToString(2 * n + i), 4 * n + i + 1, i, n + i));
      k, i := k + 1, i + 1;
    }
    assert k == 3 * n;
  }

  /** The links x(i+1) - yi and x1 - yn: edges 3n..4n-1, the last one named `lastName`. */
  method AddCrossLinks(g: Graph, n: nat, lastName: string)
    requires n >= 1 && g.Valid() && g.Edges() == Capped(ApEdgesNamed(n, lastName)[..3 * n], g.nbeMax)
    modifies g`nbe, g.edges
    ensures g.Valid() && g.Edges() == Capped(ApEdgesNamed(n, lastName)[..4 * n], g.nbeMax)
  {
    ghost var T := ApEdgesNamed(n, lastName);
    ghost var k := 3 * n;
    var i := 0;
    while i < n - 1
      invariant 0 <= i <= n - 1 && k == 3 * n + i
      invariant g.Valid() && g.Edges() == Capped(T[..k], g.nbeMax)
    {
      CrossEdge(n, lastName, i, k);
      AddNext(g, T, k, Edge("e" + NatToString(3 * n + i), 5 * n + i + 1, i + 1, n + i));
      k, i := k + 1, i + 1;
    }
    assert k == 4 * n - 1;
    AddCrossLast(g, n, lastName);
  }

  /** The edge after the cross-link loop: edge 4n - 1, x1 - yn, named `lastName`. */
  method AddCrossLast(g: Graph, n: nat, lastName: string)
    requires n >= 1 && g.Valid() && g.Edges() == Capped(ApEdgesNamed(n, lastName)[..4 * n - 1], g.nbeMax)
    modifies g`nbe, g.edges
    ensures g.Valid() && g.Edges() == Capped(ApEdgesNamed(n, lastName)[..4 * n], g.nbeMax)
  {
    CrossEdge(n, lastName, n - 1, 4 * n - 1);
    AddNext(g, ApEdgesNamed(n, lastName), 4 * n - 1, Edge(lastName, 5 * n + n, 0, n + n - 1));
  }

  /** `createAntiprism(name, n)` as written: the last edge is named "e<3n-1>". */
  method CreateAntiprismAsWritten(name: string, n: nat) returns (g: Graph)
    requires n >= 1
    ensures fresh(g) && fresh(g.vertices) && fresh(g.edges)
    ensures g.Valid() && g.name == name && g.nbvMax == 2 * n
    ensures g.Vertices() == AntiprismVertices(n)
    ensures g.Edges() == Capped(AntiprismEdgesAsWritten(n), g.nbeMax)
    ensures n >= 3 ==> g.Edges() == AntiprismEdgesAsWritten(n)
  {
    var last := "e" + NatToString(3 * n - 1);
    assert ApEdgesNamed(n, last) == AntiprismEdgesAsWritten(n);
    g := BuildAntiprism(name, n, last);
  }

  /** `createAntiprism(name, n)` with the last edge named "e<4n-1>". */
  method CreateAntiprism(name: string, n: nat) returns (g: Graph)
    requires n >= 1
    ensures fresh(g) && fresh(g.vertices) && fresh(g.edges)
    ensures g.Valid() && g.name == name && g.nbvMax == 2 * n
    ensures g.Vertices() == AntiprismVertices(n)
    ensures n >= 3 ==> g.Edges() == AntiprismEdges(n)
  {
    var last := "e" + NatToString(4 * n - 1);
    assert ApEdgesNamed(n, last) == AntiprismEdges(n);
    g := BuildAntiprism(name, n, last);
  }

  /** From n = 3 on, the capacity n(2n-1) that `createGraph(name, 2n)` reserves holds all 4n edges. */
  lemma AntiprismFits(n: nat, lastName: string, m: nat)
    requires n >= 3 ==> 4 * n <= m
    ensures n >= 3 ==> Capped(ApEdgesNamed(n, lastName), m) == ApEdgesNamed(n, lastName)
  {
  }

  lemma AntiprismRoom(n: nat)
    requires n >= 3
    ensures 4 * n <= 2 * n * (2 * n - 1) / 2
  {
    assert 2 * n * (2 * n - 1) == 2 * (n * (2 * n - 1));
    assert n * (2 * n - 1) == 4 * n + n * (2 * n - 5);
  }

  // ---------------------------------------------------------------- incidence

  /** The four edges at vertex x, in edge-array order (n >= 3). */
  function ApIncident(n: nat, x: nat): (r: seq<nat>)
    requires n >= 3 && x < 2 * n
    ensures |r| == 4
  {
    if x == 0 then [0, n - 1, 2 * n, 4 * n - 1]
    else if x < n then [x - 1, x, 2 * n + x, 3 * n + x - 1]
    else if x == n then [n, 2 * n - 1, 2 * n, 3 * n]
    else [x - 1, x, n + x, 2 * n + x]
  }

  predicate Increasing(s: seq<nat>)
  {
    forall i, j :: 0 <= i < j < |s| ==> s[i] < s[j]
  }

  /** Two increasing sequences with the same elements are equal. */
  lemma {:induction false} IncreasingUnique(a: seq<nat>, b: seq<nat>)
    requires Increasing(a) && Increasing(b)
    requires forall t :: 0 <= t < |a| ==> a[t] in b
    requires forall t :: 0 <= t < |b| ==> b[t] in a
    ensures a == b
    decreases |a|
  {
    EmptyTogether(a, b);
    if a != [] && b != [] {
      HeadsEqual(a, b);
      assert a[1..] == b[1..] by {
        TailMembers(a, b);
        TailMembers(b, a);
        IncreasingUnique(a[1..], b[1..]);
      }
      assert a == [a[0]] + a[1..] && b == [b[0]] + b[1..];
    }
  }

  lemma EmptyTogether(a: seq<nat>, b: seq<nat>)
    requires forall t :: 0 <= t < |a| ==> a[t] in b
    requires forall t :: 0 <= t < |b| ==> b[t] in a
    ensures a == [] <==> b == []
  {
    if a != [] {
      assert a[0] in b;
    }
    if b != [] {
      assert b[0] in a;
    }
  }

  /** The smallest elements agree. */
  lemma HeadsEqual(a: seq<nat>, b: seq<nat>)
    requires Increasing(a) && Increasing(b) && a != [] && b != []
    requires a[0] in b && b[0] in a
    ensures a[0] == b[0]
  {
    var s :| 0 <= s < |b| && b[s] == a[0];
    var t :| 0 <= t < |a| && a[t] == b[0];
    assert b[0] <= b[s] && a[0] <= a[t];
  }

  /** With equal heads, the tails are increasing and a's tail lies in b's. */
  lemma TailMembers(a: seq<nat>, b: seq<nat>)
    requires Increasing(a) && Increasing(b) && a != [] && b != [] && a[0] == b[0]
    requires forall t :: 0 <= t < |a| ==> a[t] in b
    ensures Increasing(a[1..])
    ensures forall t :: 0 <= t < |a| - 1 ==> a[1..][t] in b[1..]
  {
    forall t | 0 <= t < |a| - 1 ensures a[1..][t] in b[1..] {
      var s :| 0 <= s < |b| && b[s] == a[t + 1];
      assert a[0] < a[t + 1];
      assert b[1..][s - 1] == b[s];
    }
  }

  /** Edge k of es joins the two vertices edge k of the antiprism joins (whatever its name and label). */
  predicate Shaped(es: seq<Edge>, n: nat)
  {
    |es| == 4 * n && forall k :: 0 <= k < 4 * n ==> es[k].u == ApEnds(n, k).0 && es[k].v == ApEnds(n, k).1
  }

  lemma NamedShaped(n: nat, lastName: string)
    ensures Shaped(ApEdgesNamed(n, lastName), n)
  {
    ApEdgesAt(n, lastName);
  }

  /** Every edge touching x is one of the four listed. */
  lemma TouchingListed(es: seq<Edge>, n: nat, x: nat, k: nat)
    requires n >= 3 && x < 2 * n && k < 4 * n && Shaped(es, n)
    requires Touches(es[k], x)
    ensures k in ApIncident(n, x)
  {
    var e := es[k];
    assert e.u == ApEnds(n, k).0 && e.v == ApEnds(n, k).1;
    var r := ApIncident(n, x);
    if k < n {
      if x == 0 { assert k == 0 || k == n - 1; assert r[0] == 0 && r[1] == n - 1; }
      else { assert k == x - 1 || k == x; assert r[0] == x - 1 && r[1] == x; }
    } else if k < 2 * n {
      if x == n { assert k == n || k == 2 * n - 1; assert r[0] == n && r[1] == 2 * n - 1; }
      else { assert k == x - 1 || k == x; assert r[0] == x - 1 && r[1] == x; }
    } else if k < 3 * n {
      if x < n { assert k == 2 * n + x; assert r[2] == k; }
      else { assert k == n + x; assert r[2] == k; }
    } else {
      if x == 0 { assert k == 4 * n - 1; assert r[3] == k; }
      else if x < n { assert k == 3 * n + x - 1; assert r[3] == k; }
      else { assert k == 2 * n + x; assert r[3] == k; }
    }
  }

  /**
   * The incidence list `getIssuedEdges` gives vertex x of the antiprism:
   * two cycle edges and two links, so every vertex has degree 4.
   */
  lemma AntiprismIncident(es: seq<Edge>, n: nat, x: nat)
    requires n >= 3 && x < 2 * n && Shaped(es, n)
    ensures Incident(es, x) == ApIncident(n, x)
  {
    var a, b := Incident(es, x), ApIncident(n, x);
    assert forall t :: 0 <= t < |a| ==> a[t] in b by {
      forall t | 0 <= t < |a| ensures a[t] in b {
        TouchingListed(es, n, x, a[t]);
      }
    }
    assert forall t :: 0 <= t < |b| ==> b[t] in a by {
      ListedTouching(es, n, x);
    }
    ApIncidentIncreasing(n, x);
    IncreasingUnique(a, b);
  }

  /** The four listed edges do touch x. */
  lemma ListedTouching(es: seq<Edge>, n: nat, x: nat)
    requires n >= 3 && x < 2 * n && Shaped(es, n)
    ensures forall t :: 0 <= t < 4 ==> ApIncident(n, x)[t] < 4 * n && Touches(es[ApIncident(n, x)[t]], x)
  {
  }

  /** The list is in edge-array order. */
  lemma ApIncidentIncreasing(n: nat, x: nat)
    requires n >= 3 && x < 2 * n
    ensures Increasing(ApIncident(n, x))
  {
    var r := ApIncident(n, x);
    assert r[0] < r[1] < r[2] < r[3];
  }

  // ---------------------------------------------------------------- the vertex-magic labeling

  /** `oddAntiprismVMT` labels vertex i with 2i + 1. */
  function VmtVertexLabels(n: nat): (r: seq<int>)
    ensures |r| == 2 * n && forall i :: 0 <= i < 2 * n ==> r[i] == 2 * i + 1
  {
    seq(2 * n, i requires 0 <= i < 2 * n => 2 * i + 1)
  }

  /**
   * The label `oddAntiprismVMT` gives edge k: the inner cycle counts up
   * from 4n+1 by 2; the outer cycle takes 2n+2, 2n+6, ... at its even
   * positions and continues by 4 at its odd ones; the links xi - yi count
   * down from 6n by 4 and the links x(i+1) - yi go on down from 2n by 2.
   */
  function VmtEdgeLabel(n: nat, k: nat): int
    requires k < 4 * n
  {
    if k < n then 4 * n + 1 + 2 * k
    else if k < 2 * n then
      (var j := k - n;
       if j % 2 == 0 then 2 * n + 2 + 2 * j
       else 2 * n + 2 + 4 * ((n + 1) / 2) + 2 * (j - 1))
    else if k < 3 * n then 6 * n - 4 * (k - 2 * n)
    else 2 * n - 2 * (k - 3 * n)
  }

  function VmtEdgeLabels(n: nat): (r: seq<int>)
    ensures |r| == 4 * n && forall k :: 0 <= k < 4 * n ==> r[k] == VmtEdgeLabel(n, k)
  {
    seq(4 * n, k requires 0 <= k < 4 * n => VmtEdgeLabel(n, k))
  }

  function VmtLabeling(n: nat): Labeling
  {
    Labeling(VmtVertexLabels(n), VmtEdgeLabels(n))
  }

  /** The sum of the labels of a four-edge incidence list. */
  lemma EdgeSumFour(e: seq<int>, r: seq<nat>)
    requires |r| == 4 && forall t :: 0 <= t < 4 ==> r[t] < |e|
    ensures EdgeSum(e, r) == e[r[0]] + e[r[1]] + e[r[2]] + e[r[3]]
  {
    forall m | 1 <= m <= 4 ensures EdgeSum(e, r[..m]) == EdgeSum(e, r[..m - 1]) + e[r[m - 1]] {
      assert r[..m][..m - 1] == r[..m - 1];
    }
    assert r[..4] == r;
  }

  /** For odd n, two consecutive edges of the outer cycle add up to 6n + 2 + 4j. */
  lemma OuterPair(n: nat, j: nat)
    requires n >= 3 && n % 2 == 1 && 1 <= j < n
    ensures VmtEdgeLabel(n, n + j - 1) + VmtEdgeLabel(n, n + j) == 6 * n + 2 + 4 * j
  {
    assert 4 * ((n + 1) / 2) == 2 * n + 2;
  }

  /** For odd n, the outer edges at y1 (positions 0 and n-1) add up to 6n + 2. */
  lemma OuterWrap(n: nat)
    requires n >= 3 && n % 2 == 1
    ensures VmtEdgeLabel(n, n) + VmtEdgeLabel(n, 2 * n - 1) == 6 * n + 2
  {
    assert (n - 1) % 2 == 0;
  }

  /** The weight of vertex x under the labeling of `oddAntiprismVMT`, for odd n. */
  lemma VmtWeight(n: nat, x: nat)
    requires n >= 3 && n % 2 == 1 && x < 2 * n
    ensures var r := ApIncident(n, x);
            2 * x + 1 + VmtEdgeLabel(n, r[0]) + VmtEdgeLabel(n, r[1]) + VmtEdgeLabel(n, r[2]) + VmtEdgeLabel(n, r[3])
              == 16 * n + 3
  {
    if x == n {
      OuterWrap(n);
    } else if x > n {
      OuterPair(n, x - n);
    }
  }

  /**
   * For odd n >= 3 the labeling of `oddAntiprismVMT` is vertex-magic: on
   * any edge sequence shaped like the antiprism, every vertex weight is 16n + 3.
   */
  lemma OddAntiprismMagic(es: seq<Edge>, n: nat)
    requires n >= 3 && n % 2 == 1 && Shaped(es, n)
    ensures Fits(IncidenceOf(es, 2 * n), VmtLabeling(n))
    ensures IsMagic(Weights(VmtLabeling(n), IncidenceOf(es, 2 * n)), 16 * n + 3)
  {
    var L, adj := VmtLabeling(n), IncidenceOf(es, 2 * n);
    var w := Weights(L, adj);
    forall x | 0 <= x < 2 * n ensures w[x] == 16 * n + 3 {
      AntiprismIncident(es, n, x);
      EdgeSumFour(L.e, ApIncident(n, x));
      VmtWeight(n, x);
    }
  }

  /** Every value 1..6n is the label of some vertex or edge (odd n): the position that carries it. */
  lemma VmtPreimage(n: nat, v: int) returns (p: nat)
    requires n >= 3 && n % 2 == 1 && 1 <= v <= 6 * n
    ensures p < 6 * n && (VmtVertexLabels(n) + VmtEdgeLabels(n))[p] == v
  {
    var all := VmtVertexLabels(n) + VmtEdgeLabels(n);
    if v % 2 == 1 && v < 4 * n {
      p := (v - 1) / 2;
    } else {
      var k := EdgePreimage(n, v);
      p := 2 * n + k;
      assert all[p] == VmtEdgeLabels(n)[k];
    }
  }

  /** The values that are not odd and below 4n are edge labels. */
  lemma EdgePreimage(n: nat, v: int) returns (k: nat)
    requires n >= 3 && n % 2 == 1 && 1 <= v <= 6 * n && !(v % 2 == 1 && v < 4 * n)
    ensures k < 4 * n && VmtEdgeLabel(n, k) == v
  {
    var q := v / 2;
    if v % 2 == 1 {
      k := InnerPreimage(n, v, q);
    } else if v <= 2 * n {
      k := LowLinkPreimage(n, v, q);
    } else if (6 * n - v) % 4 == 0 {
      k := HighLinkPreimage(n, v, (6 * n - v) / 4);
    } else {
      k := OuterPreimage(n, v);
    }
  }

  /** The odd values from 4n + 1 to 6n label the inner cycle. */
  lemma InnerPreimage(n: nat, v: int, q: int) returns (k: nat)
    requires n >= 3 && v == 2 * q + 1 && 4 * n <= v <= 6 * n
    ensures k < n && VmtEdgeLabel(n, k) == v
  {
    k := q - 2 * n;
  }

  /** The even values up to 2n label the links x(i+1) - yi. */
  lemma LowLinkPreimage(n: nat, v: int, q: int) returns (k: nat)
    requires n >= 3 && v == 2 * q && 1 <= v <= 2 * n
    ensures 3 * n <= k < 4 * n && VmtEdgeLabel(n, k) == v
  {
    k := 4 * n - q;
  }

  /** The values 6n - 4r above 2n label the links xi - yi. */
  lemma HighLinkPreimage(n: nat, v: int, r: int) returns (k: nat)
    requires n >= 3 && 6 * n - v == 4 * r && 2 * n < v <= 6 * n
    ensures 2 * n <= k < 3 * n && VmtEdgeLabel(n, k) == v
  {
    k := 2 * n + r;
  }

  /** The even values above 2n that are not 6n - 4j are outer-cycle labels. */
  lemma OuterPreimage(n: nat, v: int) returns (k: nat)
    requires n >= 3 && n % 2 == 1 && 2 * n < v <= 6 * n && v % 2 == 0 && (6 * n - v) % 4 != 0
    ensures n <= k < 2 * n && VmtEdgeLabel(n, k) == v
  {
    var h, m := n / 2, (6 * n - v) / 4;
    assert 6 * n - v == 4 * m + 2;
    if v <= 4 * n {
      k := OuterEvenPreimage(n, h, v, m);
    } else {
      k := OuterOddPreimage(n, h, v, m);
    }
  }

  /** Up to 4n they sit at the even steps of the outer cycle, 2n + 2 + 2j. */
  lemma OuterEvenPreimage(n: nat, h: nat, v: int, m: int) returns (k: nat)
    requires n >= 3 && n == 2 * h + 1 && 2 * n < v <= 4 * n && 6 * n - v == 4 * m + 2
    ensures n <= k < 2 * n && VmtEdgeLabel(n, k) == v
  {
    var t := n - m - 1;
    k := n + 2 * t;
    assert (k - n) % 2 == 0;
  }

  /** Above 4n they sit at the odd steps, 4n + 2 + 2(j - 1) + 2. */
  lemma OuterOddPreimage(n: nat, h: nat, v: int, m: int) returns (k: nat)
    requires n >= 3 && n == 2 * h + 1 && 4 * n < v <= 6 * n && 6 * n - v == 4 * m + 2
    ensures n <= k < 2 * n && VmtEdgeLabel(n, k) == v
  {
    var t := h - m - 1;
    k := n + 2 * t + 1;
    assert (k - n) % 2 == 1;
    assert (n + 1) / 2 == h + 1;
  }

  /** For odd n, the labels of `oddAntiprismVMT` are a permutation of 1..6n. */
  lemma VmtPermutation(n: nat)
    requires n >= 3 && n % 2 == 1
    ensures multiset(VmtVertexLabels(n) + VmtEdgeLabels(n)) == multiset(OneTo(6 * n))
  {
    var all := VmtVertexLabels(n) + VmtEdgeLabels(n);
    forall v | 1 <= v <= 6 * n ensures v in all {
      var p := VmtPreimage(n, v);
    }
    CoverOneTo(all, 6 * n);
  }

  // ---------------------------------------------------------------- oddAntiprismVMT

  /**
   * Edge k has its new label after loop `stage` of `oddAntiprismVMT`
   * (1: inner cycle, 2: even positions of the outer cycle, 3: its odd
   * positions, 4: links xi - yi, 5: links x(i+1) - yi).
   */
  predicate Done(n: nat, stage: nat, k: nat)
  {
    (k < n && stage >= 1) ||
    (n <= k < 2 * n && (((k - n) % 2 == 0 && stage >= 2) || stage >= 3)) ||
    (2 * n <= k < 3 * n && stage >= 4) ||
    (3 * n <= k < 4 * n && stage >= 5)
  }

  /** The edge array after loop `stage`: the edges done carry their new labels, the rest are as in `base`. */
  predicate Stage(a: seq<Edge>, base: seq<Edge>, n: nat, stage: nat)
  {
    |a| == |base| >= 4 * n &&
    forall k :: 0 <= k < |a| ==> a[k] == if Done(n, stage, k) then base[k].(lab := VmtEdgeLabel(n, k)) else base[k]
  }

  /** The vertex loop: vertex i gets label 2i + 1. */
  method LabelVertices(vs: array<Vertex>, n: nat)
    requires vs.Length == 2 * n
    modifies vs
    ensures vs[..] == VRelabeled(old(vs[..]), VmtVertexLabels(n))
  {
    var i := 0;
    while i < 2 * n
      invariant 0 <= i <= 2 * n
      invariant forall k :: 0 <= k < 2 * n ==> vs[k] == if k < i then old(vs[k]).(lab := 2 * k + 1) else old(vs[k])
    {
      vs[i] := vs[i].(lab := 2 * i + 1);
      i := i + 1;
    }
  }

  /** Inner cycle: labels 4n+1, 4n+3, ... */
  method LabelInnerCycle(es: array<Edge>, n: nat, ghost base: seq<Edge>) returns (cpt: int)
    requires Stage(es[..], base, n, 0)
    modifies es
    ensures Stage(es[..], base, n, 1)
  {
    cpt := 4 * n + 1;
    var i := 0;
    while i < n
      invariant 0 <= i <= n && cpt == 4 * n + 1 + 2 * i
      invariant forall k :: 0 <= k < es.Length ==>
                  es[k] == if k < i then base[k].(lab := VmtEdgeLabel(n, k)) else base[k]
    {
      es[i] := es[i].(lab := cpt);
      cpt := cpt + 2;
      i := i + 1;
    }
  }

  /** Outer cycle, even positions: labels 2n+2, 2n+6, ...; returns the next value. */
  method LabelOuterEven(es: array<Edge>, n: nat, ghost base: seq<Edge>) returns (cpt: int)
    requires Stage(es[..], base, n, 1)
    modifies es
    ensures Stage(es[..], base, n, 2)
    ensures cpt == 2 * n + 2 + 4 * ((n + 1) / 2)
  {
    cpt := 2 * n + 2;
    var i := n;
    forall k | 0 <= k < es.Length ensures EvenDone(n, i, k) == Done(n, 1, k) {
    }
    while i < 2 * n
      invariant n <= i <= 2 * n + 1 && (i - n) % 2 == 0 && cpt == 2 * n + 2 + 2 * (i - n)
      invariant es.Length == |base| >= 4 * n
      invariant forall k :: 0 <= k < es.Length ==>
                  es[k] == if EvenDone(n, i, k) then base[k].(lab := VmtEdgeLabel(n, k)) else base[k]
    {
      OuterEvenLabel(n, i);
      es[i] := es[i].(lab := cpt);
      forall k | 0 <= k < es.Length ensures EvenDone(n, i + 2, k) == (EvenDone(n, i, k) || k == i) {
        EvenDoneStep(n, i, k);
      }
      cpt := cpt + 4;
      i := i + 2;
    }
    forall k | 0 <= k < es.Length ensures EvenDone(n, i, k) == Done(n, 2, k) {
      EvenDoneEnd(n, i, k);
    }
    EvenRunEnd(n, i);
  }

  /** After the even outer loop reached i: the inner cycle and the even outer positions below i. */
  predicate EvenDone(n: nat, i: nat, k: nat)
  {
    Done(n, 1, k) || (n <= k < i && k < 2 * n && (k - n) % 2 == 0)
  }

  /** One more step of the even loop adds position i. */
  lemma EvenDoneStep(n: nat, i: nat, k: nat)
    requires n <= i < 2 * n && (i - n) % 2 == 0
    ensures EvenDone(n, i + 2, k) == (EvenDone(n, i, k) || k == i)
  {
    if k == i + 1 {
      assert (k - n) % 2 == 1;
    }
  }

  /** Once the loop passes 2n, every even outer position is done. */
  lemma EvenDoneEnd(n: nat, i: nat, k: nat)
    requires 2 * n <= i
    ensures EvenDone(n, i, k) == Done(n, 2, k)
  {
  }

  /** Edge i at an even outer position gets 2n + 2 + 2(i - n). */
  lemma OuterEvenLabel(n: nat, i: nat)
    requires n <= i < 2 * n && (i - n) % 2 == 0
    ensures VmtEdgeLabel(n, i) == 2 * n + 2 + 2 * (i - n)
  {
  }

  /** The loop over every other outer edge stops after (n+1)/2 steps of 2. */
  lemma EvenRunEnd(n: nat, i: int)
    requires 2 * n <= i <= 2 * n + 1 && n <= i && (i - n) % 2 == 0
    ensures 2 * (i - n) == 4 * ((n + 1) / 2)
  {
  }

  /** Outer cycle, odd positions: the count goes on by 4. */
  method LabelOuterOdd(es: array<Edge>, n: nat, ghost base: seq<Edge>, cpt0: int) returns (cpt: int)
    requires Stage(es[..], base, n, 2) && cpt0 == 2 * n + 2 + 4 * ((n + 1) / 2)
    modifies es
    ensures Stage(es[..], base, n, 3)
  {
    cpt := cpt0;
    var i := n + 1;
    while i < 2 * n
      invariant n + 1 <= i <= 2 * n + 1 && (i - n) % 2 == 1 && cpt == cpt0 + 2 * (i - n - 1)
      invariant forall k :: 0 <= k < es.Length ==>
                  es[k] == if Done(n, 2, k) || (n <= k < i && (k - n) % 2 == 1) then base[k].(lab := VmtEdgeLabel(n, k)) else base[k]
    {
      es[i] := es[i].(lab := cpt);
      cpt := cpt + 4;
      i := i + 2;
    }
  }

  /** Links xi - yi: labels 6n, 6n-4, ...; returns the next value, 2n. */
  method LabelLinks(es: array<Edge>, n: nat, ghost base: seq<Edge>) returns (cpt: int)
    requires Stage(es[..], base, n, 3)
    modifies es
    ensures Stage(es[..], base, n, 4) && cpt == 2 * n
  {
    cpt := 6 * n;
    var i := 2 * n;
    while i < 3 * n
      invariant 2 * n <= i <= 3 * n && cpt == 6 * n - 4 * (i - 2 * n)
      invariant forall k :: 0 <= k < es.Length ==>
                  es[k] == if Done(n, 3, k) || (2 * n <= k < i) then base[k].(lab := VmtEdgeLabel(n, k)) else base[k]
    {
      es[i] := es[i].(lab := cpt);
      cpt := cpt - 4;
      i := i + 1;
    }
  }

  /** Links x(i+1) - yi: the count goes on down by 2. */
  method LabelCrossLinks(es: array<Edge>, n: nat, ghost base: seq<Edge>, cpt0: int)
    requires Stage(es[..], base, n, 4) && cpt0 == 2 * n
    modifies es
    ensures Stage(es[..], base, n, 5)
  {
    var cpt := cpt0;
    var i := 3 * n;
    while i < 4 * n
      invariant 3 * n <= i <= 4 * n && cpt == 2 * n - 2 * (i - 3 * n)
      invariant forall k :: 0 <= k < es.Length ==>
                  es[k] == if Done(n, 4, k) || (3 * n <= k < i) then base[k].(lab := VmtEdgeLabel(n, k)) else base[k]
    {
      es[i] := es[i].(lab := cpt);
      cpt := cpt - 2;
      i := i + 1;
    }
  }

  /**
   * `oddAntiprismVMT(name, n)`: the antiprism on 2n vertices, as
   * `createAntiprism` builds it (its last edge repeats the name "e<3n-1>"),
   * with the labeling of the loops above; for odd n it is a vertex-magic
   * total labeling with constant 16n + 3 that uses each of 1..6n once.
   */
  method OddAntiprismVMT(name: string, n: nat) returns (g: Graph)
    requires n >= 3
    ensures fresh(g) && g.Valid() && g.name == name && g.nbv == 2 * n
    ensures g.Vertices() == VRelabeled(AntiprismVertices(n), VmtVertexLabels(n))
    ensures g.Edges() == Relabeled(AntiprismEdgesAsWritten(n), VmtEdgeLabels(n))
    ensures g.Labels() == VmtLabeling(n)
    ensures n % 2 == 1 ==> Fits(IncidenceOf(g.Edges(), g.nbv), g.Labels())
    ensures n % 2 == 1 ==> IsMagic(Weights(g.Labels(), IncidenceOf(g.Edges(), g.nbv)), 16 * n + 3)
    ensures n % 2 == 1 ==> multiset(AllLabels(g)) == multiset(OneTo(6 * n))
  {
    g := CreateAntiprismAsWritten(name, n);
    ghost var es := g.edges[..];
    assert es[..4 * n] == AntiprismEdgesAsWritten(n);
    LabelVertices(g.vertices, n);
    LabelEdges(g.edges, n);
    RelabeledPrefix(es, VmtEdgeLabels(n), 4 * n);
    VmtLabelsOf(g.Vertices(), g.Edges(), n);
    if n % 2 == 1 {
      OddAntiprismMagic(g.Edges(), n);
      VmtPermutation(n);
    }
  }

  /** The five edge loops together give every edge k < 4n the label VmtEdgeLabel(n, k). */
  method LabelEdges(es: array<Edge>, n: nat)
    requires es.Length >= 4 * n
    modifies es
    ensures es[..] == Relabeled(old(es[..]), VmtEdgeLabels(n))
  {
    ghost var base := es[..];
    var cpt := LabelInnerCycle(es, n, base);
    cpt := LabelOuterEven(es, n, base);
    cpt := LabelOuterOdd(es, n, base, cpt);
    cpt := LabelLinks(es, n, base);
    LabelCrossLinks(es, n, base, cpt);
  }

  lemma RelabeledPrefix(es: seq<Edge>, ls: seq<int>, m: nat)
    requires |ls| <= m <= |es|
    ensures Relabeled(es, ls)[..m] == Relabeled(es[..m], ls)
  {
  }

  /** The antiprism relabeled by the loops carries exactly the labeling VmtLabeling(n) and keeps its shape. */
  lemma VmtLabelsOf(vs: seq<Vertex>, es: seq<Edge>, n: nat)
    requires n >= 3
    requires vs == VRelabeled(AntiprismVertices(n), VmtVertexLabels(n))
    requires es == Relabeled(AntiprismEdgesAsWritten(n), VmtEdgeLabels(n))
    ensures VLabels(vs) == VmtVertexLabels(n) && ELabels(es) == VmtEdgeLabels(n)
    ensures Shaped(es, n)
  {
    assert VLabels(vs) == VmtVertexLabels(n) by {
      AllVRelabeled(AntiprismVertices(n), VmtVertexLabels(n));
    }
    assert ELabels(es) == VmtEdgeLabels(n) by {
      AllRelabeled(AntiprismEdgesAsWritten(n), VmtEdgeLabels(n));
    }
    var A := AntiprismEdgesAsWritten(n);
    NamedShaped(n, "e" + NatToString(3 * n - 1));
    assert Shaped(A, n);
    RelabeledShaped(A, VmtEdgeLabels(n), n);
  }

  /** New labels keep the endpoints. */
  lemma RelabeledShaped(es: seq<Edge>, ls: seq<int>, n: nat)
    requires Shaped(es, n) && |ls| <= |es|
    ensures Shaped(Relabeled(es, ls), n)
  {
    var r := Relabeled(es, ls);
    forall k | 0 <= k < 4 * n ensures r[k].u == ApEnds(n, k).0 && r[k].v == ApEnds(n, k).1 {
      assert r[k].u == es[k].u && r[k].v == es[k].v;
    }
  }

  lemma AllRelabeled(es: seq<Edge>, ls: seq<int>)
    requires |ls| == |es|
    ensures ELabels(Relabeled(es, ls)) == ls
  {
  }

  lemma AllVRelabeled(vs: seq<Vertex>, ls: seq<int>)
    requires |ls| == |vs|
    ensures VLabels(VRelabeled(vs, ls)) == ls
  {
  }
}
