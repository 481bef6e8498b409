/**
 * The graph of Graph.c: a name, a vertex array and an edge array, each with
 * a capacity fixed at creation and a count of the entries in use. The
 * capacity of the edge array is that of a simple graph on `nbvMax` vertices.
 *
 * An edge of the C code holds copies of its two endpoint vertices and is
 * compared with a vertex by name pointer; here an edge holds the indices of
 * its endpoints in the vertex array (`u`, `v`), and two entries are the same
 * C object exactly when they have the same index.
 */
module Graphs {
  import opened Seqs
  import opened Decimal
  import opened Scores

  datatype Vertex = Vertex(name: string, lab: int)

  datatype Edge = Edge(name: string, lab: int, u: nat, v: nat)

  function VLabels(vs: seq<Vertex>): (r: seq<int>)
    ensures |r| == |vs| && forall k :: 0 <= k < |vs| ==> r[k] == vs[k].lab
  {
    if vs == [] then [] else VLabels(vs[..|vs| - 1]) + [vs[|vs| - 1].lab]
  }

  function ELabels(es: seq<Edge>): (r: seq<int>)
    ensures |r| == |es| && forall k :: 0 <= k < |es| ==> r[k] == es[k].lab
  {
    if es == [] then [] else ELabels(es[..|es| - 1]) + [es[|es| - 1].lab]
  }

  /** The labels of the first nv vertices and the first ne edges. */
  function ArrayLabels(vs: seq<Vertex>, es: seq<Edge>, nv: nat, ne: nat): Labeling
    requires nv <= |vs| && ne <= |es|
  {
    Labeling(VLabelsUpTo(vs, nv), ELabelsUpTo(es, ne))
  }

  function VLabelsUpTo(vs: seq<Vertex>, n: nat): seq<int>
    requires n <= |vs|
  {
    if n == 0 then [] else VLabelsUpTo(vs, n - 1) + [vs[n - 1].lab]
  }

  function ELabelsUpTo(es: seq<Edge>, n: nat): seq<int>
    requires n <= |es|
  {
    if n == 0 then [] else ELabelsUpTo(es, n - 1) + [es[n - 1].lab]
  }

  lemma {:induction false} VLabelsUpToTake(vs: seq<Vertex>, n: nat)
    requires n <= |vs|
    ensures VLabelsUpTo(vs, n) == VLabels(vs[..n])
  {
    if n > 0 {
      assert vs[..n][..n - 1] == vs[..n - 1];
      VLabelsUpToTake(vs, n - 1);
    }
  }

  lemma {:induction false} ELabelsUpToTake(es: seq<Edge>, n: nat)
    requires n <= |es|
    ensures ELabelsUpTo(es, n) == ELabels(es[..n])
  {
    if n > 0 {
      assert es[..n][..n - 1] == es[..n - 1];
      ELabelsUpToTake(es, n - 1);
    }
  }

  function Names(vs: seq<Vertex>): (r: seq<string>)
    ensures |r| == |vs| && forall k :: 0 <= k < |vs| ==> r[k] == vs[k].name
  {
    if vs == [] then [] else Names(vs[..|vs| - 1]) + [vs[|vs| - 1].name]
  }

  /**
   * Every edge joins two of the first n vertices. In the C code an edge
   * carries copies of its two endpoints, so its endpoints always exist; with
   * endpoints held as indices this is what makes their names readable.
   */
  predicate EndsIn(es: seq<Edge>, n: nat)
  {
    forall k :: 0 <= k < |es| ==> es[k].u < n && es[k].v < n
  }

  /** Edge `k` touches vertex `x`. */
  predicate Touches(e: Edge, x: nat)
  {
    e.u == x || e.v == x
  }

  /**
   * The indices of the edges of `es` that touch `x`, in array order: every
   * listed index touches `x`, the list is strictly increasing, and no
   * touching edge is missing.
   */
  function Incident(es: seq<Edge>, x: nat): (r: seq<nat>)
    ensures forall t :: 0 <= t < |r| ==> r[t] < |es| && Touches(es[r[t]], x)
    ensures forall s, t :: 0 <= s < t < |r| ==> r[s] < r[t]
    ensures forall k :: 0 <= k < |es| && Touches(es[k], x) ==> k in r
  {
    if es == [] then []
    else
      var r' := Incident(es[..|es| - 1], x);
      assert forall k :: 0 <= k < |es| - 1 ==> es[..|es| - 1][k] == es[k];
      r' + (if Touches(es[|es| - 1], x) then [|es| - 1] else [])
  }

  /** Every edge `e%d` name in a sequence: position i is named "e" followed by i. */
  function Renamed(es: seq<Edge>): (r: seq<Edge>)
    ensures |r| == |es|
    ensures forall i :: 0 <= i < |es| ==> r[i] == es[i].(name := "e" + NatToString(i))
  {
    seq(|es|, i requires 0 <= i < |es| => es[i].(name := "e" + NatToString(i)))
  }

  /** The names "e0", "e1", ... never repeat. */
  lemma RenamedDistinct(es: seq<Edge>)
    ensures forall i, j :: 0 <= i < j < |es| ==> Renamed(es)[i].name != Renamed(es)[j].name
  {
    forall i, j | 0 <= i < j < |es| ensures Renamed(es)[i].name != Renamed(es)[j].name {
      var a, b := "e" + NatToString(i), "e" + NatToString(j);
      if a == b {
        assert a[1..] == NatToString(i) && b[1..] == NatToString(j);
        NatToStringInjective(i, j);
      }
    }
  }

  class Graph {
    var name: string
    var nbvMax: nat
    var nbeMax: nat
    var nbv: nat
    var nbe: nat
    var vertices: array<Vertex>
    var edges: array<Edge>

    /** The arrays have the capacities, and the counts stay within them. */
    predicate Valid()
      reads this
    {
      vertices.Length == nbvMax && edges.Length == nbeMax &&
      nbv <= nbvMax && nbe <= nbeMax
    }

    function Vertices(): seq<Vertex>
      reads this, vertices
      requires Valid()
    {
      vertices[..nbv]
    }

    function Edges(): seq<Edge>
      reads this, edges
      requires Valid()
    {
      edges[..nbe]
    }

    /** The labels of the vertices and of the edges in use. */
    function Labels(): Labeling
      reads this, vertices, edges
      requires Valid()
    {
      Labeling(VLabels(Vertices()), ELabels(Edges()))
    }

    /** The labels, as read off the contents of the two arrays. */
    lemma LabelsOfArrays()
      requires Valid()
      ensures Labels() == ArrayLabels(vertices[..], edges[..], nbv, nbe)
    {
      assert vertices[..][..nbv] == vertices[..nbv] && edges[..][..nbe] == edges[..nbe];
      VLabelsUpToTake(vertices[..], nbv);
      ELabelsUpToTake(edges[..], nbe);
    }

    /** `createGraph(name, nbvMAX)`: empty, with room for a simple graph on nbvMax vertices. */
    constructor (name: string, nbvMax: nat)
      ensures Valid()
      ensures this.name == name && this.nbvMax == nbvMax && nbeMax == nbvMax * (nbvMax - 1) / 2
      ensures nbv == 0 && nbe == 0
      ensures fresh(vertices) && fresh(edges)
    {
      this.name := name;
      this.nbvMax := nbvMax;
      nbeMax := nbvMax * (nbvMax - 1) / 2;
      nbv := 0;
      nbe := 0;
      new;
      vertices := new Vertex[nbvMax](_ => Vertex("", 0));
      edges := new Edge[nbvMax * (nbvMax - 1) / 2](_ => Edge("", 0, 0, 0));
    }

    /** `addVertex`: refused (false, nothing changes) when full, else stored at index nbv. */
    method AddVertex(x: Vertex) returns (ok: bool)
      requires Valid()
      modifies this`nbv, vertices
      ensures Valid()
      ensures ok <==> old(nbv) < nbvMax
      ensures ok ==> nbv == old(nbv) + 1 && vertices[..] == old(vertices[..])[old(nbv) := x]
      ensures ok ==> Vertices() == old(Vertices()) + [x]
      ensures !ok ==> nbv == old(nbv) && vertices[..] == old(vertices[..])
    {
      if nbv == nbvMax {
        return false;
      }
      vertices[nbv] := x;
      nbv := nbv + 1;
      assert Vertices() == old(Vertices()) + [x];
      return true;
    }

    /** `addEdge`: refused (false, nothing changes) when full, else stored at index nbe. */
    method AddEdge(e: Edge) returns (ok: bool)
      requires Valid()
      modifies this`nbe, edges
      ensures Valid()
      ensures ok <==> old(nbe) < nbeMax
      ensures ok ==> nbe == old(nbe) + 1 && edges[..] == old(edges[..])[old(nbe) := e]
      ensures ok ==> Edges() == old(Edges()) + [e]
      ensures !ok ==> nbe == old(nbe) && edges[..] == old(edges[..])
    {
      if nbe == nbeMax {
        return false;
      }
      edges[nbe] := e;
      nbe := nbe + 1;
      assert Edges() == old(Edges()) + [e];
      return true;
    }

    /** `getVertex`: the index of the first vertex called `name`, or None. */
    method GetVertex(name: string) returns (r: Option<nat>)
      requires Valid()
      ensures r.Some? ==> r.value < nbv && vertices[r.value].name == name
      ensures r.Some? ==> forall k :: 0 <= k < r.value ==> vertices[k].name != name
      ensures r.None? ==> forall k :: 0 <= k < nbv ==> vertices[k].name != name
    {
      var i := 0;
      while i < nbv
        invariant 0 <= i <= nbv
        invariant forall k :: 0 <= k < i ==> vertices[k].name != name
      {
        if vertices[i].name == name {
          return Some(i);
        }
        i := i + 1;
      }
      return None;
    }

    /** `getEdge`: the index of the first edge called `name`, or None. */
    method GetEdge(name: string) returns (r: Option<nat>)
      requires Valid()
      ensures r.Some? ==> r.value < nbe && edges[r.value].name == name
      ensures r.Some? ==> forall k :: 0 <= k < r.value ==> edges[k].name != name
      ensures r.None? ==> forall k :: 0 <= k < nbe ==> edges[k].name != name
    {
      var i := 0;
      while i < nbe
        invariant 0 <= i <= nbe
        invariant forall k :: 0 <= k < i ==> edges[k].name != name
      {
        if edges[i].name == name {
          return Some(i);
        }
        i := i + 1;
      }
      return None;
    }

    /** `getIssuedEdges`: the edges touching vertex `x`, in edge-array order. */
    method GetIssuedEdges(x: nat) returns (r: seq<nat>)
      requires Valid()
      ensures r == Incident(Edges(), x)
    {
      r := [];
      var i := 0;
      while i < nbe
        invariant 0 <= i <= nbe
        invariant r == Incident(edges[..i], x)
      {
        assert edges[..i + 1][..i] == edges[..i];
        if Touches(edges[i], x) {
          r := r + [i];
        }
        i := i + 1;
      }
      assert edges[..nbe] == Edges();
    }

    /** Position p of the renamed copy without edge k is edge i renamed. */
    static lemma RenamedRemoveAtEntry(es: seq<Edge>, k: nat, i: nat, p: nat)
      requires k < |es| && i < |es| && i != k && p == (if i > k then i - 1 else i)
      ensures Renamed(RemoveAt(es, k))[p] == es[i].(name := "e" + NatToString(p))
    {
    }

    /**
     * The copy loop of `deleteEdge`: every edge but edge `k`, renamed after
     * its new position, into a fresh array of `size` entries.
     */
    method CopyWithout(k: nat, size: nat) returns (a: array<Edge>)
      requires Valid() && k < nbe && nbe - 1 <= size
      ensures fresh(a) && a.Length == size
      ensures a[..nbe - 1] == Renamed(RemoveAt(Edges(), k))
    {
      a := new Edge[size](_ => Edge("", 0, 0, 0));
      ghost var es := Edges();
      ghost var target := Renamed(RemoveAt(es, k));
      var check := 0;
      var i := 0;
      while i < nbe
        invariant 0 <= i <= nbe
        invariant check == if i > k then 1 else 0
        invariant forall t :: 0 <= t < i - check ==> a[t] == target[t]
      {
        if i == k {
          check := 1;
        } else {
          RenamedRemoveAtEntry(es, k, i, i - check);
          a[i - check] := edges[i].(name := "e" + NatToString(i - check));
        }
        i := i + 1;
      }
    }

    /**
     * `deleteEdge` with the edge array kept at its capacity: edge `k` (when
     * it is one) is removed, the others move down and are renamed "e0", "e1", ...
     */
    method DeleteEdge(k: int)
      requires Valid()
      modifies this`nbe, this`edges
      ensures Valid()
      ensures !(0 <= k < old(nbe)) ==> nbe == old(nbe) && edges == old(edges)
      ensures 0 <= k < old(nbe) ==> nbe == old(nbe) - 1 && Edges() == Renamed(RemoveAt(old(Edges()), k))
    {
      if !(0 <= k < nbe) {
        return;
      }
      var a := CopyWithout(k, nbeMax);
      nbe := nbe - 1;
      edges := a;
    }

    /**
     * `deleteEdge` as written: the new array holds only nbe - 1 entries while
     * nbeMAX is kept, so the array is then exactly full and an `addEdge`,
     * whose fullness test compares against nbeMAX, writes past its end.
     */
    method DeleteEdgeAsWritten(k: int)
      requires Valid()
      modifies this`nbe, this`edges
      ensures !(0 <= k < old(nbe)) ==> nbe == old(nbe) && edges == old(edges) && Valid()
      ensures 0 <= k < old(nbe) ==> nbe == old(nbe) - 1 && edges[..] == Renamed(RemoveAt(old(Edges()), k))
      ensures 0 <= k < old(nbe) ==> edges.Length == nbe < nbeMax && !Valid()
    {
      if !(0 <= k < nbe) {
        return;
      }
      var a := CopyWithout(k, nbe - 1);
      nbe := nbe - 1;
      edges := a;
    }
  }
}
