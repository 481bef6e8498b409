/**
 * The graph generators of Graph.c: the complete graph K_size labelled
 * 1..size on the vertices and then consecutively on the edges, the
 * antiprism on 2n vertices, and the vertex-magic total labeling that
 * `oddAntiprismVMT` puts on it.
 *
 * Every generator adds its vertices and edges with `addVertex` and
 * `addEdge`, which refuse an entry once the capacity chosen by
 * `createGraph` is reached; the models keep that: the graph holds the
 * entries that fitted, in order (see Capped).
 */
module Generators {
  import opened Seqs
  import opened Decimal
  import opened Graphs

  // ---------------------------------------------------------------- adding runs of entries

  /** The first m entries of s: what a graph of capacity m keeps of s added in order. */
  function Capped<T>(s: seq<T>, m: nat): (r: seq<T>)
    ensures |r| == if |s| <= m then |s| else m
    ensures r == s[..|r|]
  {
    if |s| <= m then s else s[..m]
  }

  /** One more entry is kept exactly while there is room. */
  lemma CappedStep<T>(s: seq<T>, k: nat, m: nat)
    requires k < |s|
    ensures Capped(s[..k + 1], m) == if k < m then Capped(s[..k], m) + [s[k]] else Capped(s[..k], m)
  {
    assert s[..k + 1][..k] == s[..k];
    if k < m {
      assert s[..k + 1] == s[..k] + [s[k]];
    } else {
      assert s[..k + 1][..m] == s[..k][..m];
    }
  }

  /** The vertices prefix + (base + i), labelled lab0 + i, for i < count. */
  function Run(prefix: string, base: nat, lab0: int, count: nat): (r: seq<Vertex>)
    ensures |r| == count
    ensures forall i :: 0 <= i < count ==> r[i] == Vertex(prefix + NatToString(base + i), lab0 + i)
  {
    seq(count, i requires 0 <= i < count => Vertex(prefix + NatToString(base + i), lab0 + i))
  }

  /** A vertex loop of the generators: the run added in order, with room for all of it. */
  method AddRun(g: Graph, prefix: string, base: nat, lab0: int, count: nat)
    requires g.Valid() && g.nbv + count <= g.nbvMax
    modifies g`nbv, g.vertices
    ensures g.Valid() && g.nbv == old(g.nbv) + count
    ensures g.Vertices() == old(g.Vertices()) + Run(prefix, base, lab0, count)
  {
    ghost var before := g.Vertices();
    ghost var run := Run(prefix, base, lab0, count);
    var i := 0;
    while i < count
      invariant 0 <= i <= count
      invariant g.Valid() && g.nbv == old(g.nbv) + i
      invariant g.Vertices() == before + run[..i]
    {
      var ok := g.AddVertex(Vertex(prefix + NatToString(base + i), lab0 + i));
      assert run[..i + 1] == run[..i] + [run[i]];
      i := i + 1;
    }
    assert run[..count] == run;
  }

  // ---------------------------------------------------------------- the complete graph

  /** The edges of row i: i joined to i+1, ..., size-1, numbered from `start`. */
  function Row(size: nat, i: nat, start: nat): (r: seq<Edge>)
    requires i < size
    ensures |r| == size - 1 - i
    ensures forall t :: 0 <= t < |r| ==> r[t].lab == start + t + size + 1 && r[t].u == i && r[t].v == i + 1 + t
  {
    seq(size - 1 - i, t requires 0 <= t < size - 1 - i =>
      Edge("e" + NatToString(start + t), start + t + size + 1, i, i + 1 + t))
  }

  /** Row i grows by one edge per step of the inner loop. */
  lemma RowStep(size: nat, i: nat, start: nat, t: nat)
    requires i < size && t < size - 1 - i
    ensures Row(size, i, start)[..t + 1] ==
            Row(size, i, start)[..t] + [Edge("e" + NatToString(start + t), start + t + size + 1, i, i + 1 + t)]
  {
    var r := Row(size, i, start);
    assert r[..t + 1] == r[..t] + [r[t]];
  }

  /** The edges of rows 0..m-1, in the order `createCompleteGraph` adds them. */
  function Rows(size: nat, m: nat): seq<Edge>
    requires m <= size
  {
    if m == 0 then []
    else
      var prev := Rows(size, m - 1);
      prev + Row(size, m - 1, |prev|)
  }

  /** Rows 0..m-1 hold (size-1) + (size-2) + ... + (size-m) edges. */
  lemma {:induction false} RowsLength(size: nat, m: nat)
    requires m <= size
    ensures 2 * |Rows(size, m)| == m * (2 * size - m - 1)
  {
    if m > 0 {
      RowsLength(size, m - 1);
      assert m * (2 * size - m - 1) == (m - 1) * (2 * size - (m - 1) - 1) + 2 * (size - m);
    }
  }

  /** All edges of K_size: one per pair i < j. */
  function CompleteEdges(size: nat): seq<Edge>
  {
    if size == 0 then [] else Rows(size, size - 1)
  }

  /** K_size has size(size-1)/2 edges, as many as `createGraph` makes room for. */
  lemma CompleteCount(size: nat)
    ensures 2 * |CompleteEdges(size)| == size * (size - 1)
  {
    if size > 0 {
      RowsLength(size, size - 1);
    }
  }

  /** Vertices i and j are joined by an edge of es. */
  predicate Linked(es: seq<Edge>, i: nat, j: nat)
  {
    exists k :: 0 <= k < |es| && es[k].u == i && es[k].v == j
  }

  /** Edge k of es is labelled size + 1 + k and joins u < v < size with u < m. */
  predicate RowEntries(es: seq<Edge>, size: nat, m: nat)
  {
    forall k :: 0 <= k < |es| ==> es[k].lab == size + 1 + k && es[k].u < es[k].v < size && es[k].u < m
  }

  /** Edge k of es is named "e" + k. */
  predicate NamedInOrder(es: seq<Edge>)
  {
    forall k :: 0 <= k < |es| ==> es[k].name == "e" + NatToString(k)
  }

  /** Edges named "e" + their position never share a name. */
  lemma NamedDistinct(es: seq<Edge>)
    requires NamedInOrder(es)
    ensures forall i, j :: 0 <= i < j < |es| ==> es[i].name != es[j].name
  {
    forall i, j | 0 <= i < j < |es| ensures es[i].name != es[j].name {
      var a, b := "e" + NatToString(i), "e" + NatToString(j);
      if a == b {
        assert a[1..] == NatToString(i) && b[1..] == NatToString(j);
        NatToStringInjective(i, j);
      }
    }
  }

  /** The pairs (u, v) of es increase in lexicographic order. */
  predicate LexOrdered(es: seq<Edge>)
  {
    forall k, l :: 0 <= k < l < |es| ==> es[k].u < es[l].u || (es[k].u == es[l].u && es[k].v < es[l].v)
  }

  /** Edge k of the first m rows is labelled size + 1 + k and joins u < v < size with u < m. */
  lemma {:induction false} RowsEntries(size: nat, m: nat)
    requires m <= size
    ensures RowEntries(Rows(size, m), size, m)
  {
    if m > 0 {
      RowsEntries(size, m - 1);
      var prev := Rows(size, m - 1);
      var row := Row(size, m - 1, |prev|);
      var es := prev + row;
      forall k | 0 <= k < |es|
        ensures es[k].lab == size + 1 + k && es[k].u < es[k].v < size && es[k].u < m
      {
        if k < |prev| {
          assert es[k] == prev[k];
        } else {
          assert es[k] == row[k - |prev|];
        }
      }
    }
  }

  /** Edge k of the first m rows is named "e" + k. */
  lemma {:induction false} RowsNames(size: nat, m: nat)
    requires m <= size
    ensures NamedInOrder(Rows(size, m))
  {
    if m > 0 {
      RowsNames(size, m - 1);
      var prev := Rows(size, m - 1);
      var row := Row(size, m - 1, |prev|);
      var es := prev + row;
      forall k | 0 <= k < |es|
        ensures es[k].name == "e" + NatToString(k)
      {
        if k < |prev| {
          assert es[k] == prev[k];
        } else {
          assert es[k] == row[k - |prev|];
        }
      }
    }
  }

  /** The pairs (u, v) of the first m rows increase in lexicographic order. */
  lemma {:induction false} RowsOrdered(size: nat, m: nat)
    requires m <= size
    ensures LexOrdered(Rows(size, m))
  {
    if m > 0 {
      RowsOrdered(size, m - 1);
      RowsEntries(size, m - 1);
      var prev := Rows(size, m - 1);
      var row := Row(size, m - 1, |prev|);
      var es := prev + row;
      forall k, l | 0 <= k < l < |es|
        ensures es[k].u < es[l].u || (es[k].u == es[l].u && es[k].v < es[l].v)
      {
        if l >= |prev| {
          assert es[l] == row[l - |prev|];
          if k < |prev| {
            assert es[k] == prev[k];
          } else {
            assert es[k] == row[k - |prev|];
          }
        } else {
          assert es[k] == prev[k] && es[l] == prev[l];
        }
      }
    }
  }

  /** Every pair i < j < size with i < m is an edge of the first m rows. */
  lemma {:induction false} RowsCover(size: nat, m: nat, i: nat, j: nat)
    requires m <= size
    requires i < j < size && i < m
    ensures Linked(Rows(size, m), i, j)
  {
    var prev := Rows(size, m - 1);
    var row := Row(size, m - 1, |prev|);
    assert Rows(size, m) == prev + row;
    if i < m - 1 {
      RowsCover(size, m - 1, i, j);
      var k :| 0 <= k < |prev| && prev[k].u == i && prev[k].v == j;
      assert Rows(size, m)[k] == prev[k];
    } else {
      var k := |prev| + (j - i - 1);
      assert Rows(size, m)[k] == row[j - i - 1];
    }
  }

  /** Every edge of es joins two different vertices below n, the smaller one first. */
  predicate Ascending(es: seq<Edge>, n: nat)
  {
    forall k :: 0 <= k < |es| ==> es[k].u < es[k].v < n
  }

  /** No two edges of es join the same pair. */
  predicate PairsDistinct(es: seq<Edge>)
  {
    forall k, l :: 0 <= k < l < |es| ==> (es[k].u, es[k].v) != (es[l].u, es[l].v)
  }

  /** Every pair i < j < n is joined by an edge of es. */
  predicate Covers(es: seq<Edge>, n: nat)
  {
    forall i, j :: 0 <= i < j < n ==> Linked(es, i, j)
  }

  /** Pairs in strictly increasing order never repeat. */
  lemma LexDistinct(es: seq<Edge>)
    requires LexOrdered(es)
    ensures PairsDistinct(es)
  {
    forall k, l | 0 <= k < l < |es| ensures (es[k].u, es[k].v) != (es[l].u, es[l].v) {
      assert es[k].u < es[l].u || (es[k].u == es[l].u && es[k].v < es[l].v);
    }
  }

  /**
   * K_size is simple and complete: its edges join two different vertices,
   * no pair is joined twice, and every pair is joined.
   */
  lemma CompletePairs(size: nat)
    ensures Ascending(CompleteEdges(size), size)
    ensures PairsDistinct(CompleteEdges(size))
    ensures Covers(CompleteEdges(size), size)
  {
    if size > 0 {
      var es := Rows(size, size - 1);
      assert CompleteEdges(size) == es;
      RowsEntries(size, size - 1);
      RowsOrdered(size, size - 1);
      LexDistinct(es);
      CoversAll(size);
    }
  }

  /** Every pair of K_size's vertices is joined. */
  lemma CoversAll(size: nat)
    requires size > 0
    ensures Covers(Rows(size, size - 1), size)
  {
    var es := Rows(size, size - 1);
    forall i, j | 0 <= i < j < size
      ensures Linked(es, i, j)
    {
      RowsCover(size, size - 1, i, j);
    }
  }

  /**
   * The labeling of K_size is 1, 2, ..., size + size(size-1)/2: the
   * vertices first, then the edges in order.
   */
  lemma CompleteLabels(size: nat)
    ensures VLabels(Run("v", 0, 1, size)) + ELabels(CompleteEdges(size)) ==
            OneTo(size + |CompleteEdges(size)|)
  {
    RunFromOne("v", 0, size);
    CompleteEdgeLabels(size);
    OneToJoin(VLabels(Run("v", 0, 1, size)), ELabels(CompleteEdges(size)), size + |CompleteEdges(size)|);
  }

  /** A run labelled from 1 carries the labels 1..count. */
  lemma RunFromOne(prefix: string, base: nat, count: nat)
    ensures VLabels(Run(prefix, base, 1, count)) == OneTo(count)
  {
    var vl := VLabels(Run(prefix, base, 1, count));
    assert forall k :: 0 <= k < count ==> vl[k] == OneTo(count)[k];
  }

  /** The edges of K_size follow the vertices' labels: edge k carries size + k + 1. */
  lemma CompleteEdgeLabels(size: nat)
    ensures forall k :: 0 <= k < |CompleteEdges(size)| ==> ELabels(CompleteEdges(size))[k] == size + k + 1
  {
    if size > 0 {
      RowsEntries(size, size - 1);
    }
  }

  /** The edges of K_size are named "e0", "e1", ... in order. */
  lemma CompleteNames(size: nat)
    ensures NamedInOrder(CompleteEdges(size))
  {
    if size > 0 {
      RowsNames(size, size - 1);
    }
  }

  /**
   * `createCompleteGraph(size)`: a graph "CompleteGraph" whose vertices
   * "v0", ..., "v<size-1>" are labelled 1..size, and one edge per pair
   * i < j, row by row, named "e<k>" and labelled size + 1 + k by a counter k.
   */
  method CreateCompleteGraph(size: nat) returns (g: Graph)
    ensures fresh(g) && fresh(g.vertices) && fresh(g.edges)
    ensures g.Valid() && g.name == "CompleteGraph" && g.nbvMax == size
    ensures g.Vertices() == Run("v", 0, 1, size)
    ensures g.Edges() == CompleteEdges(size)
  {
    g := new Graph("CompleteGraph", size);
    AddRun(g, "v", 0, 1, size);
    if size > 0 {
      CompleteCount(size);
      AddCompleteEdges(g, size);
    }
  }

  /** The nested edge loops of `createCompleteGraph`. */
  method AddCompleteEdges(g: Graph, size: nat)
    requires size > 0 && g.Valid() && g.nbe == 0 && g.nbeMax == |Rows(size, size - 1)|
    modifies g`nbe, g.edges
    ensures g.Valid() && g.Edges() == Rows(size, size - 1)
  {
    var counter := 0;
    var i := 0;
    while i < size - 1
      invariant 0 <= i <= size - 1
      invariant g.Valid() && g.Edges() == Rows(size, i) && counter == |Rows(size, i)|
    {
      RowsWithin(size, i + 1);
      assert Rows(size, i + 1) == Rows(size, i) + Row(size, i, counter);
      counter := AddRow(g, size, i, counter);
      i := i + 1;
    }
  }

  /** The inner loop of `createCompleteGraph`: row i, numbered on from the counter. */
  method AddRow(g: Graph, size: nat, i: nat, counter0: nat) returns (counter: nat)
    requires i < size - 1 && g.Valid() && g.nbe == counter0 && counter0 + (size - 1 - i) <= g.nbeMax
    modifies g`nbe, g.edges
    ensures g.Valid() && g.Edges() == old(g.Edges()) + Row(size, i, counter0)
    ensures counter == counter0 + (size - 1 - i)
  {
    ghost var prev := g.Edges();
    ghost var row := Row(size, i, counter0);
    counter := counter0;
    var j := i + 1;
    while j < size
      invariant i + 1 <= j <= size
      invariant g.Valid() && g.Edges() == prev + row[..j - i - 1] && counter == counter0 + (j - i - 1)
    {
      RowStep(size, i, counter0, j - i - 1);
      var ok := g.AddEdge(Edge("e" + NatToString(counter), counter + size + 1, i, j));
      counter := counter + 1;
      j := j + 1;
    }
    assert row[..size - i - 1] == row;
  }

  /** The first m rows never hold more edges than K_size has. */
  lemma {:induction false} RowsWithin(size: nat, m: nat)
    requires m <= size - 1
    ensures |Rows(size, m)| <= |Rows(size, size - 1)|
    decreases size - m
  {
    if m < size - 1 {
      RowsWithin(size, m + 1);
    }
  }
}
