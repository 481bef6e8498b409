/**
 * The two random perturbations of Solver.c, stated on labelings.
 *
 * `newCloseGraph` numbers the labels edges first (index p < nbe is edge p,
 * index nbe + i is vertex i) and exchanges two distinct indices whose labels
 * are not taboo. `newVeryCloseGraph` exchanges a label with the first label,
 * vertices searched before edges, that differs from it by exactly one.
 */
module Perturb {
  import opened Seqs
  import opened Scores
  import opened Moves
  import Utils

  // ---------------------------------------------------------------- newCloseGraph

  /** The index space of `newCloseGraph`: the edge labels, then the vertex labels. */
  function EdgesFirst(L: Labeling): seq<int>
  {
    L.e + L.v
  }

  /** The exchange of indices p and q of that space, written as the four cases of the source. */
  function CloseSwap(L: Labeling, p: nat, q: nat): (r: Labeling)
    requires p < |L.e| + |L.v| && q < |L.e| + |L.v|
    ensures |r.v| == |L.v| && |r.e| == |L.e|
  {
    var ne := |L.e|;
    if p < ne then
      if q < ne then L.(e := Swap(L.e, p, q)) else SwapVE(L, q - ne, p)
    else if q < ne then SwapVE(L, p - ne, q)
    else L.(v := Swap(L.v, p - ne, q - ne))
  }

  /** The four cases are one exchange of two labels of the edges-first sequence. */
  lemma CloseSwapIsExchange(L: Labeling, p: nat, q: nat)
    requires p < |L.e| + |L.v| && q < |L.e| + |L.v|
    ensures EdgesFirst(CloseSwap(L, p, q)) == Swap(EdgesFirst(L), p, q)
  {
    var r, ne := CloseSwap(L, p, q), |L.e|;
    var F, F' := EdgesFirst(L), EdgesFirst(r);
    forall k | 0 <= k < |F| ensures F'[k] == Swap(F, p, q)[k] {
      if k < ne {
        assert F'[k] == r.e[k] && F[k] == L.e[k];
      } else {
        assert F'[k] == r.v[k - ne] && F[k] == L.v[k - ne];
      }
    }
  }

  /** So the labels are only rearranged, and a second exchange of the same indices undoes the first. */
  lemma CloseSwapPermutes(L: Labeling, p: nat, q: nat)
    requires p < |L.e| + |L.v| && q < |L.e| + |L.v|
    ensures multiset(EdgesFirst(CloseSwap(L, p, q))) == multiset(EdgesFirst(L))
    ensures CloseSwap(CloseSwap(L, p, q), p, q) == L
  {
    var r := CloseSwap(L, p, q);
    CloseSwapIsExchange(L, p, q);
    CloseSwapIsExchange(r, p, q);
    SwapMultiset(EdgesFirst(L), p, q);
    SwapTwice(EdgesFirst(L), p, q);
    var r2 := CloseSwap(r, p, q);
    assert EdgesFirst(r2) == EdgesFirst(L);
    assert r2.e == EdgesFirst(r2)[..|L.e|] && L.e == EdgesFirst(L)[..|L.e|];
    assert r2.v == EdgesFirst(r2)[|L.e|..] && L.v == EdgesFirst(L)[|L.e|..];
  }

  /** When neither exchanged label is taboo, every taboo label stays where it was. */
  lemma CloseSwapKeepsTaboo(L: Labeling, p: nat, q: nat, taboo: seq<int>, size: int)
    requires p < |L.e| + |L.v| && q < |L.e| + |L.v| && size <= |taboo|
    requires !Utils.Occurs(EdgesFirst(L)[p], taboo, size) && !Utils.Occurs(EdgesFirst(L)[q], taboo, size)
    ensures forall k :: 0 <= k < |EdgesFirst(L)| && Utils.Occurs(EdgesFirst(L)[k], taboo, size) ==>
              EdgesFirst(CloseSwap(L, p, q))[k] == EdgesFirst(L)[k]
  {
    CloseSwapIsExchange(L, p, q);
  }

  /** Both orders of the labels hold the same multiset. */
  lemma EdgesFirstMultiset(L: Labeling)
    ensures multiset(EdgesFirst(L)) == multiset(Joined(L))
  {
  }

  /** A labeling that fixes every taboo position of the edges-first sequence keeps the taboo labels. */
  lemma KeepsTabooEdgesFirst(L0: Labeling, L: Labeling, taboo: seq<int>, size: int)
    requires size <= |taboo| && |L.v| == |L0.v| && |L.e| == |L0.e|
    requires forall k :: 0 <= k < |EdgesFirst(L0)| && Utils.Occurs(EdgesFirst(L0)[k], taboo, size) ==>
               EdgesFirst(L)[k] == EdgesFirst(L0)[k]
    ensures KeepsTaboo(L0, L, taboo, size)
  {
    var ne := |L0.e|;
    forall i | 0 <= i < |L0.v| && Utils.Occurs(L0.v[i], taboo, size) ensures L.v[i] == L0.v[i] {
      assert EdgesFirst(L0)[ne + i] == L0.v[i] && EdgesFirst(L)[ne + i] == L.v[i];
    }
    forall i | 0 <= i < ne && Utils.Occurs(L0.e[i], taboo, size) ensures L.e[i] == L0.e[i] {
      assert EdgesFirst(L0)[i] == L0.e[i] && EdgesFirst(L)[i] == L.e[i];
    }
  }

  /** What the search needs of the exchange: the labels are only rearranged and no taboo label moves. */
  lemma CloseSwapProgress(L: Labeling, p: nat, q: nat, taboo: seq<int>, size: int)
    requires p < |L.e| + |L.v| && q < |L.e| + |L.v| && size <= |taboo|
    requires !Utils.Occurs(EdgesFirst(L)[p], taboo, size) && !Utils.Occurs(EdgesFirst(L)[q], taboo, size)
    ensures multiset(Joined(CloseSwap(L, p, q))) == multiset(Joined(L))
    ensures KeepsTaboo(L, CloseSwap(L, p, q), taboo, size)
  {
    var r := CloseSwap(L, p, q);
    CloseSwapPermutes(L, p, q);
    EdgesFirstMultiset(L);
    EdgesFirstMultiset(r);
    CloseSwapKeepsTaboo(L, p, q, taboo, size);
    KeepsTabooEdgesFirst(L, r, taboo, size);
  }

  /** Two positions of s whose labels are outside the taboo list. */
  predicate TwoFreeIn(s: seq<int>, taboo: seq<int>, size: int)
    requires size <= |taboo|
  {
    exists a, b :: 0 <= a < b < |s| && !Utils.Occurs(s[a], taboo, size) && !Utils.Occurs(s[b], taboo, size)
  }

  /** Two labels outside the taboo list: what `newCloseGraph` needs in order to return. */
  predicate TwoFree(L: Labeling, taboo: seq<int>, size: int)
    requires size <= |taboo|
  {
    TwoFreeIn(EdgesFirst(L), taboo, size)
  }

  /** A value occurring in s sits at some position of s. */
  lemma PositionOf(s: seq<int>, x: int) returns (i: nat)
    requires multiset(s)[x] >= 1
    ensures i < |s| && s[i] == x
  {
    assert x in multiset(s);
    assert x in s;
    i :| 0 <= i < |s| && s[i] == x;
  }

  /** A value occurring twice sits at two positions. */
  lemma TwoPositions(s: seq<int>, x: int) returns (a: nat, b: nat)
    requires multiset(s)[x] >= 2
    ensures a < b < |s| && s[a] == x && s[b] == x
  {
    var i := PositionOf(s, x);
    RemoveAtMultiset(s, i);
    var t := RemoveAt(s, i);
    assert multiset(t)[x] == multiset(s)[x] - 1;
    var j := PositionOf(t, x);
    var j' := if j < i then j else j + 1;
    assert t[j] == s[j'];
    assert s[j'] == x && j' != i;
    a, b := if i < j' then i else j', if i < j' then j' else i;
  }

  /** A rearrangement of a sequence with two free labels has two free labels. */
  lemma TwoFreeInStays(s: seq<int>, s': seq<int>, taboo: seq<int>, size: int)
    requires size <= |taboo| && multiset(s') == multiset(s) && TwoFreeIn(s, taboo, size)
    ensures TwoFreeIn(s', taboo, size)
  {
    var a, b :| 0 <= a < b < |s| && !Utils.Occurs(s[a], taboo, size) && !Utils.Occurs(s[b], taboo, size);
    var x, y := s[a], s[b];
    var a', b';
    if x == y {
      TwiceCounted(s, a, b);
      a', b' := TwoPositions(s', x);
    } else {
      assert x in multiset(s') && y in multiset(s');
      var i :| 0 <= i < |s'| && s'[i] == x;
      var j :| 0 <= j < |s'| && s'[j] == y;
      a', b' := if i < j then i else j, if i < j then j else i;
    }
    assert 0 <= a' < b' < |s'| && !Utils.Occurs(s'[a'], taboo, size) && !Utils.Occurs(s'[b'], taboo, size);
  }

  /** Rearranging the labels keeps two of them free. */
  lemma TwoFreeStays(L: Labeling, L': Labeling, taboo: seq<int>, size: int)
    requires size <= |taboo| && multiset(Joined(L')) == multiset(Joined(L)) && TwoFree(L, taboo, size)
    ensures TwoFree(L', taboo, size)
  {
    EdgesFirstMultiset(L);
    EdgesFirstMultiset(L');
    TwoFreeInStays(EdgesFirst(L), EdgesFirst(L'), taboo, size);
  }

  // ---------------------------------------------------------------- newVeryCloseGraph

  /** The first position of s holding a value at distance exactly one from x, if any. */
  function FirstNear(s: seq<int>, x: int): (r: Option<nat>)
    ensures r.Some? ==> r.value < |s| && Abs(s[r.value] - x) == 1 &&
                        forall k :: 0 <= k < r.value ==> Abs(s[k] - x) != 1
    ensures r.None? ==> forall k :: 0 <= k < |s| ==> Abs(s[k] - x) != 1
  {
    if s == [] then None
    else if Abs(s[0] - x) == 1 then Some(0)
    else
      match FirstNear(s[1..], x)
      case None => None
      case Some(k) => Some(k + 1)
  }

  /** FirstNear is the only answer meeting its description. */
  lemma FirstNearIs(s: seq<int>, x: int, r: Option<nat>)
    requires r.Some? ==> r.value < |s| && Abs(s[r.value] - x) == 1 &&
                         forall k :: 0 <= k < r.value ==> Abs(s[k] - x) != 1
    requires r.None? ==> forall k :: 0 <= k < |s| ==> Abs(s[k] - x) != 1
    ensures r == FirstNear(s, x)
  {
    var f := FirstNear(s, x);
    if f.Some? && r.Some? {
      assert !(f.value < r.value) && !(r.value < f.value);
    }
  }

  /**
   * The exchange of the enabled branch: the label of vertex `indice` (when
   * `fromVertex`) or of edge `indice` trades places with the first vertex
   * label, or failing that the first edge label, at distance one from it.
   */
  function VeryClose(L: Labeling, fromVertex: bool, indice: nat): (r: (bool, Labeling))
    requires if fromVertex then indice < |L.v| else indice < |L.e|
  {
    var x := if fromVertex then L.v[indice] else L.e[indice];
    match FirstNear(L.v, x)
    case Some(i) => (true, if fromVertex then L.(v := Swap(L.v, indice, i)) else SwapVE(L, i, indice))
    case None =>
      match FirstNear(L.e, x)
      case Some(i) => (true, if fromVertex then SwapVE(L, indice, i) else L.(e := Swap(L.e, indice, i)))
      case None => (false, L)
  }

  /** Where the chosen label sits in Joined(L). */
  function ChosenPos(L: Labeling, fromVertex: bool, indice: nat): nat
  {
    if fromVertex then indice else |L.v| + indice
  }

  /**
   * On success two labels at distance one are exchanged, the first one the
   * chosen label; on failure no label of the graph is at distance one from
   * it and nothing changes.
   */
  lemma VeryCloseSpec(L: Labeling, fromVertex: bool, indice: nat)
    requires if fromVertex then indice < |L.v| else indice < |L.e|
    ensures var p, r := ChosenPos(L, fromVertex, indice), VeryClose(L, fromVertex, indice);
            p < |Joined(L)| &&
            (r.0 ==> exists q :: 0 <= q < |Joined(L)| && Abs(Joined(L)[q] - Joined(L)[p]) == 1 &&
                                 Joined(r.1) == Swap(Joined(L), p, q)) &&
            (!r.0 ==> r.1 == L && forall q :: 0 <= q < |Joined(L)| ==> Abs(Joined(L)[q] - Joined(L)[p]) != 1)
  {
    var p, r := ChosenPos(L, fromVertex, indice), VeryClose(L, fromVertex, indice);
    var J, n := Joined(L), |L.v|;
    var x := if fromVertex then L.v[indice] else L.e[indice];
    assert J[p] == x;
    match FirstNear(L.v, x)
    case Some(i) =>
      assert J[i] == L.v[i];
      if fromVertex {
        JoinedSwapV(L, indice, i);
      } else {
        JoinedSwapVE(L, i, indice);
      }
      assert Joined(r.1) == Swap(J, p, i);
    case None =>
      match FirstNear(L.e, x)
      case Some(i) =>
        assert J[n + i] == L.e[i];
        if fromVertex {
          JoinedSwapVE(L, indice, i);
        } else {
          JoinedSwapE(L, indice, i);
        }
        assert Joined(r.1) == Swap(J, p, n + i);
      case None =>
        forall q | 0 <= q < |J| ensures Abs(J[q] - x) != 1 {
          if q < n {
            assert J[q] == L.v[q];
          } else {
            assert J[q] == L.e[q - n];
          }
        }
  }

  /** Exchanging two vertex labels exchanges their places in Joined. */
  lemma JoinedSwapV(L: Labeling, a: nat, b: nat)
    requires a < |L.v| && b < |L.v|
    ensures Joined(L.(v := Swap(L.v, a, b))) == Swap(Joined(L), a, b)
  {
    var J, J' := Joined(L), Joined(L.(v := Swap(L.v, a, b)));
    forall k | 0 <= k < |J| ensures J'[k] == Swap(J, a, b)[k] {
      if k >= |L.v| {
        assert J'[k] == L.e[k - |L.v|] == J[k];
      }
    }
  }

  /** Exchanging two edge labels exchanges their places in Joined. */
  lemma JoinedSwapE(L: Labeling, a: nat, b: nat)
    requires a < |L.e| && b < |L.e|
    ensures Joined(L.(e := Swap(L.e, a, b))) == Swap(Joined(L), |L.v| + a, |L.v| + b)
  {
    var n := |L.v|;
    var J, J' := Joined(L), Joined(L.(e := Swap(L.e, a, b)));
    forall k | 0 <= k < |J| ensures J'[k] == Swap(J, n + a, n + b)[k] {
      if k < n {
        assert J'[k] == L.v[k] == J[k];
      } else {
        assert J'[k] == Swap(L.e, a, b)[k - n] && J[k] == L.e[k - n];
      }
    }
  }

  /** Vertex i trading labels with edge j exchanges their places in Joined, either way round. */
  lemma JoinedSwapVE(L: Labeling, i: nat, j: nat)
    requires i < |L.v| && j < |L.e|
    ensures Joined(SwapVE(L, i, j)) == Swap(Joined(L), i, |L.v| + j)
    ensures Joined(SwapVE(L, i, j)) == Swap(Joined(L), |L.v| + j, i)
  {
    var n := |L.v|;
    var r := SwapVE(L, i, j);
    var J, J' := Joined(L), Joined(r);
    forall k | 0 <= k < |J| ensures J'[k] == Swap(J, i, n + j)[k] == Swap(J, n + j, i)[k] {
      if k < n {
        assert J'[k] == r.v[k] && J[k] == L.v[k];
      } else {
        assert J'[k] == r.e[k - n] && J[k] == L.e[k - n];
      }
    }
  }

  /**
   * In the disabled branch the edge pairs are tried as (j, i) with j < i,
   * i outer and j inner: c comes before (j, i) in that order.
   */
  predicate Earlier(c: Key, j: nat, i: nat)
  {
    c.1 < i || (c.1 == i && c.0 < j)
  }

  /** Edges j < i carry labels at distance one. */
  predicate Near(e: seq<int>, j: nat, i: nat)
    requires j < |e| && i < |e|
  {
    Abs(e[j] - e[i]) == 1
  }

  /** No two edges below i carry labels at distance one. */
  predicate NoNearBelow(e: seq<int>, i: nat)
  {
    forall a: nat, b: nat :: a < b < i && b < |e| ==> !Near(e, a, b)
  }

  /** Edge i clear of every edge below it extends the clear prefix by one. */
  lemma NearBelowStep(e: seq<int>, i: nat)
    requires i < |e| && NoNearBelow(e, i) && FirstNear(e[..i], e[i]).None?
    ensures NoNearBelow(e, i + 1)
  {
    forall a: nat | a < i ensures !Near(e, a, i) {
      assert e[..i][a] == e[a];
    }
  }

  /** The first edge below i near edge i gives the first near pair in the loop order. */
  lemma NearBelowFound(e: seq<int>, i: nat, j: nat)
    requires i < |e| && NoNearBelow(e, i) && FirstNear(e[..i], e[i]) == Some(j)
    ensures j < i && Near(e, j, i)
    ensures forall a: nat, b: nat :: a < b < |e| && Earlier((a, b), j, i) ==> !Near(e, a, b)
  {
    assert e[..i][j] == e[j];
    forall a: nat, b: nat | a < b < |e| && Earlier((a, b), j, i) ensures !Near(e, a, b) {
      if b == i {
        assert e[..i][a] == e[a];
      }
    }
  }
}
