/**
 * Relabeling and comparing graphs (Graph.c): `relabelGraph` gives the
 * vertices and then the edges labels drawn one at a time from a pool that
 * starts as 1..nbv+nbe, `relabelEdgesGraph` does the same after fixing the
 * first vertex labels, and `sameLabeling` compares sorted vertex labels.
 * The random index `rand() % lenseen` is any index of the pool.
 */
module Labelings {
  import opened Seqs
  import opened Sorting
  import opened Graphs
  import Utils

  /** All labels of the graph: vertices first, then edges. */
  function AllLabels(g: Graph): seq<int>
    reads g, g.vertices, g.edges
    requires g.Valid()
  {
    VLabels(g.Vertices()) + ELabels(g.Edges())
  }

  /** `es` with the labels of its first |ls| entries replaced by `ls`. */
  function Relabeled(es: seq<Edge>, ls: seq<int>): (r: seq<Edge>)
    requires |ls| <= |es|
    ensures |r| == |es|
    ensures forall k :: 0 <= k < |ls| ==> r[k] == es[k].(lab := ls[k])
    ensures forall k :: |ls| <= k < |es| ==> r[k] == es[k]
  {
    seq(|es|, k requires 0 <= k < |es| => if k < |ls| then es[k].(lab := ls[k]) else es[k])
  }

  /** `vs` with the labels of its first |ls| entries replaced by `ls`. */
  function VRelabeled(vs: seq<Vertex>, ls: seq<int>): (r: seq<Vertex>)
    requires |ls| <= |vs|
    ensures |r| == |vs|
    ensures forall k :: 0 <= k < |ls| ==> r[k] == vs[k].(lab := ls[k])
    ensures forall k :: |ls| <= k < |vs| ==> r[k] == vs[k]
  {
    seq(|vs|, k requires 0 <= k < |vs| => if k < |ls| then vs[k].(lab := ls[k]) else vs[k])
  }

  /** Labelling one more entry extends the relabeling by one label. */
  lemma RelabeledStep(es: seq<Edge>, ls: seq<int>, x: int)
    requires |ls| < |es|
    ensures Relabeled(es, ls)[|ls| := es[|ls|].(lab := x)] == Relabeled(es, ls + [x])
  {
  }

  lemma VRelabeledStep(vs: seq<Vertex>, ls: seq<int>, x: int)
    requires |ls| < |vs|
    ensures VRelabeled(vs, ls)[|ls| := vs[|ls|].(lab := x)] == VRelabeled(vs, ls + [x])
  {
  }

  /** The relabeled entries carry exactly the new labels. */
  lemma RelabeledLabels(es: seq<Edge>, ls: seq<int>)
    requires |ls| <= |es|
    ensures ELabels(Relabeled(es, ls)[..|ls|]) == ls
  {
  }

  lemma VRelabeledLabels(vs: seq<Vertex>, ls: seq<int>)
    requires |ls| <= |vs|
    ensures VLabels(VRelabeled(vs, ls)[..|ls|]) == ls
  {
  }

  /**
   * Everything but the labels in use is as before: the arrays are their old
   * contents with the labels of the first nbv vertices and nbe edges replaced.
   */
  twostate predicate OnlyLabelsChanged(g: Graph)
    reads g, g.vertices, g.edges
    requires g.Valid()
  {
    g.vertices.Length == old(g.vertices.Length) && g.edges.Length == old(g.edges.Length) &&
    g.vertices[..] == VRelabeled(old(g.vertices[..]), VLabels(g.Vertices())) &&
    g.edges[..] == Relabeled(old(g.edges[..]), ELabels(g.Edges()))
  }

  /** The vertices with their labels blanked. */
  function VBlank(vs: seq<Vertex>): (r: seq<Vertex>)
    ensures |r| == |vs|
  {
    if vs == [] then [] else VBlank(vs[..|vs| - 1]) + [vs[|vs| - 1].(lab := 0)]
  }

  /** The edges with their labels blanked. */
  function EBlank(es: seq<Edge>): (r: seq<Edge>)
    ensures |r| == |es|
  {
    if es == [] then [] else EBlank(es[..|es| - 1]) + [es[|es| - 1].(lab := 0)]
  }

  /** Two sequences of vertices that differ only in their labels blank to the same one. */
  lemma {:induction false} VBlankSame(vs: seq<Vertex>, ws: seq<Vertex>)
    requires |vs| == |ws| && forall k :: 0 <= k < |vs| ==> vs[k] == ws[k].(lab := vs[k].lab)
    ensures VBlank(vs) == VBlank(ws)
  {
    if vs != [] {
      VBlankSame(vs[..|vs| - 1], ws[..|ws| - 1]);
    }
  }

  lemma {:induction false} EBlankSame(es: seq<Edge>, fs: seq<Edge>)
    requires |es| == |fs| && forall k :: 0 <= k < |es| ==> es[k] == fs[k].(lab := es[k].lab)
    ensures EBlank(es) == EBlank(fs)
  {
    if es != [] {
      EBlankSame(es[..|es| - 1], fs[..|fs| - 1]);
    }
  }

  /** What a graph is besides its labels: the vertices and edges in use, labels blanked. */
  datatype Skeleton = Skeleton(vs: seq<Vertex>, es: seq<Edge>)

  function SkeletonOf(g: Graph): (k: Skeleton)
    reads g, g.vertices, g.edges
    requires g.Valid()
    ensures |k.vs| == g.nbv && |k.es| == g.nbe
  {
    Skeleton(VBlank(g.Vertices()), EBlank(g.Edges()))
  }

  /** A change of labels only keeps the skeleton. */
  twostate lemma SkeletonKept(g: Graph)
    requires old(g.Valid()) && unchanged(g) && g.Valid() && OnlyLabelsChanged(g)
    ensures SkeletonOf(g) == old(SkeletonOf(g))
  {
    var v0, e0 := old(g.vertices[..]), old(g.edges[..]);
    assert forall k :: 0 <= k < g.nbv ==> g.vertices[k] == v0[k].(lab := g.vertices[k].lab);
    assert forall k :: 0 <= k < g.nbe ==> g.edges[k] == e0[k].(lab := g.edges[k].lab);
    VBlankSame(g.Vertices(), old(g.Vertices()));
    EBlankSame(g.Edges(), old(g.Edges()));
  }

  /** Incidence does not look at labels. */
  lemma {:induction false} IncidentBlank(es: seq<Edge>, x: nat)
    ensures Incident(EBlank(es), x) == Incident(es, x)
  {
    if es != [] {
      assert EBlank(es)[..|es| - 1] == EBlank(es[..|es| - 1]);
      IncidentBlank(es[..|es| - 1], x);
    }
  }

  lemma {:induction false} NamesBlank(vs: seq<Vertex>)
    ensures Names(VBlank(vs)) == Names(vs)
  {
    if vs != [] {
      assert VBlank(vs)[..|vs| - 1] == VBlank(vs[..|vs| - 1]);
      NamesBlank(vs[..|vs| - 1]);
    }
  }

  /** Writing back the labels an array already holds changes nothing. */
  lemma RelabeledOwn(es: seq<Edge>, n: nat)
    requires n <= |es|
    ensures Relabeled(es, ELabels(es[..n])) == es
  {
  }

  lemma VRelabeledOwn(vs: seq<Vertex>, n: nat)
    requires n <= |vs|
    ensures VRelabeled(vs, VLabels(vs[..n])) == vs
  {
  }

  /** A second relabeling of the same entries overrides the first. */
  lemma RelabeledTwice(es: seq<Edge>, a: seq<int>, b: seq<int>)
    requires |a| == |b| <= |es|
    ensures Relabeled(Relabeled(es, a), b) == Relabeled(es, b)
  {
  }

  lemma VRelabeledTwice(vs: seq<Vertex>, a: seq<int>, b: seq<int>)
    requires |a| == |b| <= |vs|
    ensures VRelabeled(VRelabeled(vs, a), b) == VRelabeled(vs, b)
  {
  }

  /** Arrays left as they were changed nothing but (trivially) the labels. */
  twostate lemma NothingChanged(g: Graph)
    requires g.Valid() && unchanged(g)
    requires g.vertices[..] == old(g.vertices[..]) && g.edges[..] == old(g.edges[..])
    ensures OnlyLabelsChanged(g)
  {
    VRelabeledOwn(g.vertices[..], g.nbv);
    RelabeledOwn(g.edges[..], g.nbe);
    assert g.vertices[..][..g.nbv] == g.Vertices();
    assert g.edges[..][..g.nbe] == g.Edges();
  }

  /** Two label-only changes in a row are one. */
  twostate lemma OnlyLabelsChangedTwice(g: Graph, mv: seq<Vertex>, me: seq<Edge>)
    requires g.Valid() && unchanged(g) && |mv| == g.vertices.Length && |me| == g.edges.Length
    requires mv == VRelabeled(old(g.vertices[..]), VLabels(mv[..g.nbv]))
    requires me == Relabeled(old(g.edges[..]), ELabels(me[..g.nbe]))
    requires g.vertices[..] == VRelabeled(mv, VLabels(g.Vertices()))
    requires g.edges[..] == Relabeled(me, ELabels(g.Edges()))
    ensures OnlyLabelsChanged(g)
  {
    VRelabeledTwice(old(g.vertices[..]), VLabels(mv[..g.nbv]), VLabels(g.Vertices()));
    RelabeledTwice(old(g.edges[..]), ELabels(me[..g.nbe]), ELabels(g.Edges()));
  }

  /** The pool of free labels: seen[i] = i + 1 for every i < n. */
  method NewPool(n: nat) returns (seen: array<int>)
    ensures fresh(seen) && seen.Length == n && seen[..] == OneTo(n)
  {
    seen := new int[n];
    var i := 0;
    while i < n
      invariant 0 <= i <= n
      invariant forall k :: 0 <= k < i ==> seen[k] == k + 1
    {
      seen[i] := i + 1;
      i := i + 1;
    }
  }

  /** One draw: the label at `curr` is taken and swapped to the end of the pool seen[..len]. */
  method TakeFromPool(seen: array<int>, len: nat, curr: nat) returns (x: int)
    requires curr < len <= seen.Length
    modifies seen
    ensures x == old(seen[curr])
    ensures multiset(seen[..len - 1]) + multiset{x} == multiset(old(seen[..len]))
  {
    x := seen[curr];
    ghost var before := seen[..];
    Utils.PermuteTab(seen, curr, len - 1);
    PoolStep(before, curr, len);
    assert seen[..len - 1] == Swap(before, curr, len - 1)[..len - 1];
    assert before[..len] == old(seen[..len]);
  }

  /** Appending keeps a prefix. */
  lemma PrefixAppend(s: seq<int>, x: int, n: nat)
    requires n <= |s|
    ensures (s + [x])[..n] == s[..n]
  {
  }

  /** The bookkeeping of one draw: a label moves from the pool to the labels given so far. */
  lemma DrawStep(base: multiset<int>, done: seq<int>, x: int, before: seq<int>, after: seq<int>, all: multiset<int>)
    requires base + multiset(done) + multiset(before) == all
    requires multiset(after) + multiset{x} == multiset(before)
    ensures base + multiset(done + [x]) + multiset(after) == all
  {
    assert multiset(done + [x]) == multiset(done) + multiset{x};
  }

  /**
   * The edge loop shared by both relabelings: every edge in use takes a label
   * drawn from the pool seen[..lenseen]; `base` is what the vertices hold.
   */
  method LabelEdges(g: Graph, seen: array<int>, lenseen: nat, ghost base: multiset<int>, ghost all: multiset<int>)
    requires g.Valid() && lenseen == g.nbe && lenseen <= seen.Length
    requires base + multiset(seen[..lenseen]) == all
    modifies g.edges, seen
    ensures base + multiset(ELabels(g.Edges())) == all
    ensures g.edges[..] == Relabeled(old(g.edges[..]), ELabels(g.Edges()))
  {
    ghost var orig := g.edges[..];
    ghost var drawn: seq<int> := [];
    var len := lenseen;
    var i := 0;
    while i < g.nbe
      invariant 0 <= i <= g.nbe && len == g.nbe - i && |drawn| == i
      invariant base + multiset(drawn) + multiset(seen[..len]) == all
      invariant g.edges[..] == Relabeled(orig, drawn)
    {
      var curr :| 0 <= curr < len;
      ghost var pool := seen[..len];
      var x := TakeFromPool(seen, len, curr);
      ghost var before := g.edges[..];
      g.edges[i] := g.edges[i].(lab := x);
      assert g.edges[..] == before[i := orig[i].(lab := x)];
      RelabeledStep(orig, drawn, x);
      DrawStep(base, drawn, x, pool, seen[..len - 1], all);
      drawn := drawn + [x];
      len := len - 1;
      i := i + 1;
    }
    assert seen[..len] == [];
    RelabeledLabels(orig, drawn);
    assert g.Edges() == Relabeled(orig, drawn)[..|drawn|];
  }

  /** Vertex `i` takes the label at `curr` of the pool seen[..len]. */
  method LabelVertex(g: Graph, seen: array<int>, len: nat, curr: nat, i: nat,
                     ghost orig: seq<Vertex>, ghost drawn: seq<int>, ghost all: multiset<int>)
    requires g.Valid() && curr < len <= seen.Length && i == |drawn| < g.vertices.Length
    requires |orig| == g.vertices.Length && g.vertices[..] == VRelabeled(orig, drawn)
    requires multiset(drawn) + multiset(seen[..len]) == all
    modifies g.vertices, seen
    ensures g.vertices[..] == VRelabeled(orig, drawn + [old(seen[curr])])
    ensures multiset(drawn + [old(seen[curr])]) + multiset(seen[..len - 1]) == all
  {
    ghost var pool := seen[..len];
    var x := TakeFromPool(seen, len, curr);
    ghost var before := g.vertices[..];
    g.vertices[i] := g.vertices[i].(lab := x);
    assert g.vertices[..] == before[i := orig[i].(lab := x)];
    VRelabeledStep(orig, drawn, x);
    DrawStep(multiset{}, drawn, x, pool, seen[..len - 1], all);
  }

  /**
   * The random vertex draws: vertices |drawn0|..nbv-1 each take the label at
   * an arbitrary index of the pool (`rand() % lenseen`).
   */
  method DrawVertices(g: Graph, seen: array<int>, lenseen0: nat, i0: nat,
                      ghost orig: seq<Vertex>, ghost drawn0: seq<int>, ghost all: multiset<int>)
    returns (lenseen: nat, ghost drawn: seq<int>)
    requires g.Valid() && i0 == |drawn0| <= g.nbv && lenseen0 + |drawn0| == g.nbv + g.nbe <= seen.Length
    requires |orig| == g.vertices.Length && g.vertices[..] == VRelabeled(orig, drawn0)
    requires multiset(drawn0) + multiset(seen[..lenseen0]) == all
    modifies g.vertices, seen
    ensures lenseen == g.nbe && |drawn| == g.nbv && drawn[..i0] == drawn0
    ensures multiset(drawn) + multiset(seen[..lenseen]) == all
    ensures g.vertices[..] == VRelabeled(orig, drawn)
  {
    drawn := drawn0;
    lenseen := lenseen0;
    var i := i0;
    while i < g.nbv
      invariant i0 <= i <= g.nbv && lenseen + i == g.nbv + g.nbe && |drawn| == i
      invariant drawn[..i0] == drawn0
      invariant multiset(drawn) + multiset(seen[..lenseen]) == all
      invariant g.vertices[..] == VRelabeled(orig, drawn)
    {
      var curr :| 0 <= curr < lenseen;
      ghost var x := seen[curr];
      LabelVertex(g, seen, lenseen, curr, i, orig, drawn, all);
      PrefixAppend(drawn, x, i0);
      drawn := drawn + [x];
      lenseen := lenseen - 1;
      i := i + 1;
    }
  }

  /** Once the vertices hold `drawn`, the edges take the rest of the pool. */
  method FinishRelabel(g: Graph, seen: array<int>, lenseen: nat, ghost orig: seq<Vertex>,
                       ghost origE: seq<Edge>, ghost drawn: seq<int>, ghost all: multiset<int>)
    requires g.Valid() && lenseen == g.nbe && lenseen <= seen.Length && |drawn| == g.nbv
    requires |orig| == g.vertices.Length && g.vertices[..] == VRelabeled(orig, drawn)
    requires g.edges[..] == origE
    requires multiset(drawn) + multiset(seen[..lenseen]) == all
    modifies g.edges, seen
    ensures g.Valid()
    ensures VLabels(g.Vertices()) == drawn
    ensures multiset(AllLabels(g)) == all
    ensures g.vertices[..] == VRelabeled(orig, VLabels(g.Vertices()))
    ensures g.edges[..] == Relabeled(origE, ELabels(g.Edges()))
  {
    VRelabeledLabels(orig, drawn);
    assert g.Vertices() == VRelabeled(orig, drawn)[..|drawn|];
    LabelEdges(g, seen, lenseen, multiset(drawn), all);
    assert AllLabels(g) == drawn + ELabels(g.Edges());
  }

  /** `relabelGraph`: the labels become a permutation of 1..nbv+nbe; names and endpoints stay. */
  method RelabelGraph(g: Graph)
    requires g.Valid()
    modifies g.vertices, g.edges
    ensures g.Valid()
    ensures multiset(AllLabels(g)) == multiset(OneTo(|AllLabels(g)|))
    ensures OnlyLabelsChanged(g)
  {
    var n := g.nbv + g.nbe;
    var seen := NewPool(n);
    assert seen[..n] == seen[..];
    ghost var all := multiset(OneTo(n));
    ghost var orig, origE := g.vertices[..], g.edges[..];
    var lenseen, drawn := DrawVertices(g, seen, n, 0, orig, [], all);
    FinishRelabel(g, seen, lenseen, orig, origE, drawn, all);
  }

  /** A label of 1..n that is not among `used` is still in the pool. */
  lemma InPool(used: seq<int>, pool: seq<int>, n: nat, x: int)
    requires multiset(used) + multiset(pool) == multiset(OneTo(n))
    requires 1 <= x <= n && x !in used
    ensures x in pool
  {
    assert OneTo(n)[x - 1] == x;
    assert x in multiset(OneTo(n));
    assert multiset(used)[x] == 0;
  }

  /** The `while (seen[curr] != labelsSommets[i])` search: the first position holding `want`. */
  method FindInPool(seen: array<int>, want: int, ghost p: nat) returns (curr: nat)
    requires p < seen.Length && seen[p] == want
    ensures curr <= p && seen[curr] == want
    ensures forall k :: 0 <= k < curr ==> seen[k] != want
  {
    curr := 0;
    while seen[curr] != want
      invariant 0 <= curr <= p
      invariant forall k :: 0 <= k < curr ==> seen[k] != want
      decreases p - curr
    {
      curr := curr + 1;
    }
  }

  /**
   * What the first loop of `relabelEdgesGraph` keeps: the array stays a
   * permutation of 1..n, the pool seen[..lenseen] holds none of the labels
   * placed so far, and when those are distinct the pool holds all the others.
   */
  predicate PoolKept(seen: seq<int>, n: nat, lenseen: nat, placed: seq<int>)
  {
    lenseen <= |seen| && multiset(seen) == multiset(OneTo(n)) &&
    (forall k :: 0 <= k < lenseen ==> seen[k] !in placed) &&
    (Distinct(placed) ==> multiset(placed) + multiset(seen[..lenseen]) == multiset(OneTo(n)))
  }

  /** The first loop of `relabelEdgesGraph`: vertex i < taille takes labelsSommets[i]. */
  method PlaceVertices(g: Graph, seen: array<int>, n: nat, labelsSommets: seq<int>, taille: nat, ghost orig: seq<Vertex>)
    returns (lenseen: nat, ghost placed: seq<int>)
    requires g.Valid() && taille <= g.nbv && taille <= |labelsSommets|
    requires forall k :: 0 <= k < taille ==> 1 <= labelsSommets[k] <= n
    requires n == seen.Length && g.nbv <= n && seen[..] == OneTo(n)
    requires |orig| == g.vertices.Length && g.vertices[..] == orig
    modifies g.vertices, seen
    ensures lenseen == n - taille && placed == labelsSommets[..taille]
    ensures PoolKept(seen[..], n, lenseen, placed)
    ensures g.vertices[..] == VRelabeled(orig, placed)
  {
    placed := [];
    lenseen := n;
    var i := 0;
    assert g.vertices[..] == VRelabeled(orig, placed);
    assert seen[..lenseen] == seen[..];
    while i < taille
      invariant 0 <= i <= taille && lenseen == n - i && placed == labelsSommets[..i]
      invariant PoolKept(seen[..], n, lenseen, placed)
      invariant g.vertices[..] == VRelabeled(orig, placed)
    {
      PlaceVertex(g, seen, n, labelsSommets[i], i, lenseen, orig, placed);
      PrefixNext(labelsSommets, i);
      placed := placed + [labelsSommets[i]];
      lenseen := lenseen - 1;
      i := i + 1;
    }
  }

  /**
   * One turn of that loop. The search runs over the whole array, not just
   * the pool, and the label found is swapped with the last one of the pool,
   * which then shrinks. A label placed before is found past the pool, and
   * the pool loses its last label instead.
   */
  method PlaceVertex(g: Graph, seen: array<int>, n: nat, want: int, i: nat, lenseen: nat,
                     ghost orig: seq<Vertex>, ghost placed: seq<int>)
    requires g.Valid() && i < g.nbv && i == |placed| && 1 <= want <= n
    requires n == seen.Length && 0 < lenseen && PoolKept(seen[..], n, lenseen, placed)
    requires |orig| == g.vertices.Length && g.vertices[..] == VRelabeled(orig, placed)
    modifies g.vertices, seen
    ensures g.vertices[..] == VRelabeled(orig, placed + [want])
    ensures PoolKept(seen[..], n, lenseen - 1, placed + [want])
  {
    ghost var before := seen[..];
    ghost var p := Holds(before, n, want);
    var curr := FindInPool(seen, want, p);
    g.vertices[i] := g.vertices[i].(lab := seen[curr]);
    assert g.vertices[..] == VRelabeled(orig, placed)[i := orig[i].(lab := want)];
    VRelabeledStep(orig, placed, want);
    Utils.PermuteTab(seen, curr, lenseen - 1);
    PlaceStep(before, seen[..], curr, lenseen, placed, want, n);
  }

  /** Every label of 1..n sits somewhere in a permutation of 1..n. */
  lemma Holds(s: seq<int>, n: nat, want: int) returns (p: nat)
    requires multiset(s) == multiset(OneTo(n)) && 1 <= want <= n
    ensures p < |s| && s[p] == want
  {
    assert OneTo(n)[want - 1] == want;
    assert want in multiset(s);
    p :| 0 <= p < |s| && s[p] == want;
  }

  /** The pool bookkeeping of one turn, on the array before and after the swap. */
  lemma PlaceStep(before: seq<int>, after: seq<int>, curr: nat, lenseen: nat, placed: seq<int>, want: int, n: nat)
    requires 0 < lenseen && PoolKept(before, n, lenseen, placed) && 1 <= want <= n
    requires curr < |before| && before[curr] == want && forall k :: 0 <= k < curr ==> before[k] != want
    requires after == Swap(before, curr, lenseen - 1)
    ensures PoolKept(after, n, lenseen - 1, placed + [want])
  {
    PermutationOfOneTo(before, n);
    SwapMultiset(before, curr, lenseen - 1);
    PoolAfterPlace(before, after, curr, lenseen, placed, want);
    if Distinct(placed + [want]) {
      DistinctSnoc(placed, want);
      DistinctPlace(before, after, curr, lenseen, placed, want, n);
    }
  }

  lemma DistinctSnoc(s: seq<int>, x: int)
    requires Distinct(s + [x])
    ensures Distinct(s) && x !in s
  {
    forall a, b | 0 <= a < b < |s| ensures s[a] != s[b] {
      assert (s + [x])[a] == s[a] && (s + [x])[b] == s[b];
    }
    forall a | 0 <= a < |s| ensures s[a] != x {
      assert (s + [x])[a] == s[a] && (s + [x])[|s|] == x;
    }
  }

  /** With distinct labels placed, the wanted one is in the pool and moves out of it. */
  lemma DistinctPlace(before: seq<int>, after: seq<int>, curr: nat, lenseen: nat, placed: seq<int>, want: int, n: nat)
    requires 0 < lenseen <= |before| && Distinct(before) && 1 <= want <= n && want !in placed
    requires multiset(placed) + multiset(before[..lenseen]) == multiset(OneTo(n))
    requires curr < |before| && before[curr] == want
    requires after == Swap(before, curr, lenseen - 1)
    ensures multiset(placed + [want]) + multiset(after[..lenseen - 1]) == multiset(OneTo(n))
  {
    InPool(placed, before[..lenseen], n, want);
    var q :| 0 <= q < lenseen && before[..lenseen][q] == want;
    assert before[q] == want;
    assert curr == q;
    PoolStep(before, curr, lenseen);
    DrawStep(multiset{}, placed, want, before[..lenseen], after[..lenseen - 1], multiset(OneTo(n)));
  }

  /**
   * The pool after the swap: no label of `placed` and not `want` either,
   * because the array holds each label once.
   */
  lemma PoolAfterPlace(before: seq<int>, after: seq<int>, curr: nat, lenseen: nat, placed: seq<int>, want: int)
    requires curr < |before| && 0 < lenseen <= |before| && Distinct(before) && before[curr] == want
    requires forall k :: 0 <= k < lenseen ==> before[k] !in placed
    requires after == Swap(before, curr, lenseen - 1)
    ensures forall k :: 0 <= k < lenseen - 1 ==> after[k] !in placed + [want]
  {
    forall k | 0 <= k < lenseen - 1 ensures after[k] !in placed + [want] {
      var j := if k == curr then lenseen - 1 else k;
      assert after[k] == before[j] && j != curr && j < lenseen;
    }
  }

  lemma PrefixNext(s: seq<int>, i: nat)
    requires i < |s|
    ensures s[..i + 1] == s[..i] + [s[i]]
  {
  }

  /** Labels with the multiset of a pool share its properties: distinct, in 1..n and outside `placed`. */
  lemma FromPool(rest: seq<int>, pool: seq<int>, placed: seq<int>, n: nat)
    requires multiset(rest) == multiset(pool) && Distinct(pool)
    requires forall k :: 0 <= k < |pool| ==> 1 <= pool[k] <= n && pool[k] !in placed
    ensures Distinct(rest)
    ensures forall k :: 0 <= k < |rest| ==> 1 <= rest[k] <= n && rest[k] !in placed
  {
    DistinctCounts(pool);
    DistinctCounts(rest);
    forall k | 0 <= k < |rest| ensures 1 <= rest[k] <= n && rest[k] !in placed {
      assert rest[k] in multiset(rest);
      assert rest[k] in multiset(pool);
    }
  }

  /** The pool left by the first loop: distinct labels of 1..n, none of them placed. */
  lemma PoolLeft(seen: seq<int>, n: nat, lenseen: nat, placed: seq<int>)
    requires PoolKept(seen, n, lenseen, placed)
    ensures Distinct(seen[..lenseen])
    ensures forall k :: 0 <= k < lenseen ==> 1 <= seen[..lenseen][k] <= n && seen[..lenseen][k] !in placed
  {
    PermutationOfOneTo(seen, n);
  }

  /**
   * `relabelEdgesGraph`: vertices 0..taille-1 get the given labels, which
   * the linear search finds in the array of 1..nbv+nbe; the other labels are
   * drawn from the pool as in `relabelGraph`. They are distinct, in range,
   * and none of the given labels; when the given labels are distinct the
   * whole labeling is a permutation of 1..nbv+nbe. When a given label
   * repeats, the pool loses one of its labels instead, which then appears
   * nowhere.
   */
  method RelabelEdgesGraph(g: Graph, labelsSommets: seq<int>, taille: nat)
    requires g.Valid() && taille <= g.nbv && taille <= |labelsSommets|
    requires forall k :: 0 <= k < taille ==> 1 <= labelsSommets[k] <= g.nbv + g.nbe
    modifies g.vertices, g.edges
    ensures g.Valid()
    ensures VLabels(g.Vertices())[..taille] == labelsSommets[..taille]
    ensures Distinct(AllLabels(g)[taille..])
    ensures forall k :: taille <= k < |AllLabels(g)| ==>
              1 <= AllLabels(g)[k] <= g.nbv + g.nbe && AllLabels(g)[k] !in labelsSommets[..taille]
    ensures Distinct(labelsSommets[..taille]) ==> multiset(AllLabels(g)) == multiset(OneTo(|AllLabels(g)|))
    ensures OnlyLabelsChanged(g)
  {
    var n := g.nbv + g.nbe;
    var seen := NewPool(n);
    ghost var orig, origE := g.vertices[..], g.edges[..];
    var lenseen, fixed := PlaceVertices(g, seen, n, labelsSommets, taille, orig);
    ghost var pooled, placedLen := seen[..], lenseen;
    ghost var all := multiset(fixed) + multiset(pooled[..placedLen]);
    ghost var drawn;
    lenseen, drawn := DrawVertices(g, seen, lenseen, taille, orig, fixed, all);
    FinishRelabel(g, seen, lenseen, orig, origE, drawn, all);
    RelabelOutcome(g, labelsSommets, taille, n, fixed, pooled, placedLen, drawn);
  }

  /** What the labels of `g` satisfy once the first `taille` were placed and the rest drawn from the pool. */
  lemma RelabelOutcome(g: Graph, labelsSommets: seq<int>, taille: nat, n: nat, fixed: seq<int>,
                        pooled: seq<int>, lenseen: nat, drawn: seq<int>)
    requires g.Valid() && taille <= g.nbv && taille <= |labelsSommets|
    requires n == g.nbv + g.nbe && fixed == labelsSommets[..taille]
    requires PoolKept(pooled, n, lenseen, fixed)
    requires VLabels(g.Vertices()) == drawn && drawn[..taille] == fixed
    requires multiset(AllLabels(g)) == multiset(fixed) + multiset(pooled[..lenseen])
    ensures VLabels(g.Vertices())[..taille] == labelsSommets[..taille]
    ensures Distinct(AllLabels(g)[taille..])
    ensures forall k :: taille <= k < |AllLabels(g)| ==>
              1 <= AllLabels(g)[k] <= g.nbv + g.nbe && AllLabels(g)[k] !in labelsSommets[..taille]
    ensures Distinct(labelsSommets[..taille]) ==> multiset(AllLabels(g)) == multiset(OneTo(|AllLabels(g)|))
  {
    var L := AllLabels(g);
    PoolLeft(pooled, n, lenseen, fixed);
    assert L[..taille] == drawn[..taille] == fixed;
    PlacedThenPool(L, taille, fixed, pooled[..lenseen], n);
  }

  /**
   * Labels that start with the placed ones and are, all together, the
   * placed labels plus the pool: what follows the placed labels is
   * distinct, in range and none of them, and with distinct placed labels
   * everything is a permutation of 1..n.
   */
  lemma PlacedThenPool(L: seq<int>, t: nat, placed: seq<int>, pool: seq<int>, n: nat)
    requires |placed| == t <= |L| && L[..t] == placed
    requires multiset(L) == multiset(placed) + multiset(pool)
    requires Distinct(pool) && forall k :: 0 <= k < |pool| ==> 1 <= pool[k] <= n && pool[k] !in placed
    requires Distinct(placed) ==> multiset(placed) + multiset(pool) == multiset(OneTo(n))
    ensures Distinct(L[t..])
    ensures forall k :: t <= k < |L| ==> 1 <= L[k] <= n && L[k] !in placed
    ensures Distinct(placed) ==> multiset(L) == multiset(OneTo(|L|))
  {
    RestFromPool(L, placed, pool, n);
    if Distinct(placed) {
      assert |L| == |multiset(L)| == |multiset(OneTo(n))| == n;
    }
  }

  /** The labels after the placed ones have the multiset of the pool, hence its properties. */
  lemma RestFromPool(L: seq<int>, placed: seq<int>, pool: seq<int>, n: nat)
    requires |placed| <= |L| && L[..|placed|] == placed && multiset(L) == multiset(placed) + multiset(pool)
    requires Distinct(pool) && forall k :: 0 <= k < |pool| ==> 1 <= pool[k] <= n && pool[k] !in placed
    ensures Distinct(L[|placed|..])
    ensures forall k :: |placed| <= k < |L| ==> 1 <= L[k] <= n && L[k] !in placed
  {
    var t := |placed|;
    assert L == L[..t] + L[t..];
    assert multiset(L) == multiset(L[..t]) + multiset(L[t..]);
    assert multiset(placed) + multiset(L[t..]) == multiset(placed) + multiset(pool);
    assert multiset(L[t..]) == multiset(pool) by {
      forall x ensures multiset(L[t..])[x] == multiset(pool)[x] {
        assert (multiset(placed) + multiset(L[t..]))[x] == (multiset(placed) + multiset(pool))[x];
      }
    }
    FromPool(L[t..], pool, placed, n);
    forall k | t <= k < |L| ensures 1 <= L[k] <= n && L[k] !in placed {
      assert L[k] == L[t..][k - t];
    }
  }

  /** `sameLabeling`: same vertex count, and the sorted vertex labels agree entry by entry. */
  method SameLabeling(g1: Graph, g2: Graph) returns (r: bool)
    requires g1.Valid() && g2.Valid()
    ensures r <==> g1.nbv == g2.nbv && multiset(VLabels(g1.Vertices())) == multiset(VLabels(g2.Vertices()))
  {
    var n1 := g1.nbv;
    if n1 != g2.nbv {
      return false;
    }
    var tab1 := Qsort(VLabels(g1.Vertices()));
    var tab2 := Qsort(VLabels(g2.Vertices()));
    assert |tab1| == |multiset(tab1)| == n1 && |tab2| == |multiset(tab2)| == n1;
    var i := 0;
    while i < n1
      invariant 0 <= i <= n1
      invariant forall k :: 0 <= k < i ==> tab1[k] == tab2[k]
    {
      if tab1[i] != tab2[i] {
        if multiset(tab1) == multiset(tab2) {
          SortedUnique(tab1, tab2);
        }
        return false;
      }
      i := i + 1;
    }
    assert tab1 == tab2;
    return true;
  }
}
