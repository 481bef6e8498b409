/**
 * The neighbourhoods of the `bestGraphBy*` operators of Solver.c, stated on
 * labelings: which two labels a candidate exchanges, the order in which the
 * nested loops try the candidates, and the best-improvement scan, which keeps
 * the first candidate that scores strictly lower than everything before it.
 *
 * The labels of a graph are read as one sequence, the vertex labels followed
 * by the edge labels (`Joined`); every candidate exchanges two positions of it.
 */
module Moves {
  import opened Seqs
  import opened Scores
  import Utils

  /** A candidate: the values (i, j) of the operator's two loop indices. */
  type Key = (nat, nat)

  /**
   * The four operators: pairs of vertices, pairs of edges, a vertex with an
   * edge, and vertex `x` with its incident edges (position 0 is vertex x,
   * position p > 0 its (p-1)-th incident edge).
   */
  datatype Kind = ByVertex | ByEdges | ByVerticesAndEdges | ByIssuedEdges(x: nat)

  /** All labels in one sequence: vertices first, then edges. */
  function Joined(L: Labeling): seq<int>
  {
    L.v + L.e
  }

  /** Vertex i and edge j exchange labels. */
  function SwapVE(L: Labeling, i: nat, j: nat): (r: Labeling)
    requires i < |L.v| && j < |L.e|
    ensures |r.v| == |L.v| && |r.e| == |L.e|
  {
    Labeling(L.v[i := L.e[j]], L.e[j := L.v[i]])
  }

  /**
   * `permuteIssuedEdges(s, x, a, b)`, `es` being the incident edges of vertex
   * x: nothing when a == b, the vertex and an edge when either index is 0,
   * two edges otherwise.
   */
  function PermuteIssued(L: Labeling, es: seq<nat>, x: nat, a: nat, b: nat): (r: Labeling)
    requires x < |L.v| && a <= |es| && b <= |es|
    requires forall k :: 0 <= k < |es| ==> es[k] < |L.e|
    ensures |r.v| == |L.v| && |r.e| == |L.e|
  {
    if a == b then L
    else if a == 0 then SwapVE(L, x, es[b - 1])
    else if b == 0 then SwapVE(L, x, es[a - 1])
    else L.(e := Swap(L.e, es[b - 1], es[a - 1]))
  }

  /** Where position p of vertex x's incident list sits in Joined(L). */
  function IssuedPos(L: Labeling, es: seq<nat>, x: nat, p: nat): nat
    requires p <= |es|
  {
    if p == 0 then x else |L.v| + es[p - 1]
  }

  /** The operator's candidates make sense: indices within the arrays, and vertex x exists. */
  predicate ValidKey(K: Kind, L: Labeling, adj: seq<seq<nat>>, c: Key)
  {
    match K
    case ByVertex => c.0 < |L.v| && c.1 < |L.v|
    case ByEdges => c.0 < |L.e| && c.1 < |L.e|
    case ByVerticesAndEdges => c.0 < |L.v| && c.1 < |L.e|
    case ByIssuedEdges(x) => x < |adj| && c.0 <= |adj[x]| && c.1 <= |adj[x]|
  }

  /** The labeling after candidate `c` is applied. */
  function Apply(K: Kind, L: Labeling, adj: seq<seq<nat>>, c: Key): (r: Labeling)
    requires Fits(adj, L) && ValidKey(K, L, adj, c)
    ensures |r.v| == |L.v| && |r.e| == |L.e|
  {
    match K
    case ByVertex => L.(v := Swap(L.v, c.0, c.1))
    case ByEdges => L.(e := Swap(L.e, c.0, c.1))
    case ByVerticesAndEdges => SwapVE(L, c.0, c.1)
    case ByIssuedEdges(x) => PermuteIssued(L, adj[x], x, c.0, c.1)
  }

  /** The two positions of Joined(L) that candidate `c` exchanges. */
  function Positions(K: Kind, L: Labeling, adj: seq<seq<nat>>, c: Key): (r: (nat, nat))
    requires Fits(adj, L) && ValidKey(K, L, adj, c)
    ensures r.0 < |Joined(L)| && r.1 < |Joined(L)|
  {
    match K
    case ByVertex => (c.0, c.1)
    case ByEdges => (|L.v| + c.0, |L.v| + c.1)
    case ByVerticesAndEdges => (c.0, |L.v| + c.1)
    case ByIssuedEdges(x) => (IssuedPos(L, adj[x], x, c.0), IssuedPos(L, adj[x], x, c.1))
  }

  /** Every candidate exchanges exactly the labels at its two positions. */
  lemma ApplyIsExchange(K: Kind, L: Labeling, adj: seq<seq<nat>>, c: Key)
    requires Fits(adj, L) && ValidKey(K, L, adj, c)
    ensures Joined(Apply(K, L, adj, c)) == Swap(Joined(L), Positions(K, L, adj, c).0, Positions(K, L, adj, c).1)
  {
    var r, p := Apply(K, L, adj, c), Positions(K, L, adj, c);
    var J, J' := Joined(L), Joined(r);
    var n := |L.v|;
    if K.ByIssuedEdges? && c.0 == c.1 {
      assert J' == J;
      assert Swap(J, p.0, p.1) == J;
    } else {
      forall k | 0 <= k < |J| ensures J'[k] == Swap(J, p.0, p.1)[k] {
        if k < n {
          assert J'[k] == r.v[k] && J[k] == L.v[k];
        } else {
          assert J'[k] == r.e[k - n] && J[k] == L.e[k - n];
        }
      }
    }
  }

  /** Applying the same candidate twice gives back the labeling (the trial is undone). */
  lemma ApplyTwice(K: Kind, L: Labeling, adj: seq<seq<nat>>, c: Key)
    requires Fits(adj, L) && ValidKey(K, L, adj, c)
    ensures Apply(K, Apply(K, L, adj, c), adj, c) == L
  {
    var r := Apply(K, L, adj, c);
    var r2 := Apply(K, r, adj, c);
    match K
    case ByVertex => SwapTwice(L.v, c.0, c.1);
    case ByEdges => SwapTwice(L.e, c.0, c.1);
    case ByVerticesAndEdges =>
      assert r2.v == L.v && r2.e == L.e;
    case ByIssuedEdges(x) =>
      var es := adj[x];
      if c.0 == c.1 {
      } else if c.0 == 0 || c.1 == 0 {
        assert r2.v == L.v && r2.e == L.e;
      } else {
        SwapTwice(L.e, es[c.1 - 1], es[c.0 - 1]);
      }
  }

  /** A candidate only rearranges the labels. */
  lemma ApplyPermutes(K: Kind, L: Labeling, adj: seq<seq<nat>>, c: Key)
    requires Fits(adj, L) && ValidKey(K, L, adj, c)
    ensures multiset(Joined(Apply(K, L, adj, c))) == multiset(Joined(L))
  {
    ApplyIsExchange(K, L, adj, c);
    SwapMultiset(Joined(L), Positions(K, L, adj, c).0, Positions(K, L, adj, c).1);
  }

  /** Candidate `c` would move a taboo label (what the operators test with `inTab`). */
  predicate Taboo(K: Kind, L: Labeling, adj: seq<seq<nat>>, c: Key, taboo: seq<int>, size: int)
    requires Fits(adj, L) && ValidKey(K, L, adj, c) && size <= |taboo|
  {
    var p := Positions(K, L, adj, c);
    Utils.Occurs(Joined(L)[p.0], taboo, size) || Utils.Occurs(Joined(L)[p.1], taboo, size)
  }

  /** A candidate that moves no taboo label leaves every taboo label where it was. */
  lemma ApplyKeepsTaboo(K: Kind, L: Labeling, adj: seq<seq<nat>>, c: Key, taboo: seq<int>, size: int)
    requires Fits(adj, L) && ValidKey(K, L, adj, c) && size <= |taboo|
    requires !Taboo(K, L, adj, c, taboo, size)
    ensures forall k :: 0 <= k < |Joined(L)| && Utils.Occurs(Joined(L)[k], taboo, size) ==>
              Joined(Apply(K, L, adj, c))[k] == Joined(L)[k]
  {
    ApplyIsExchange(K, L, adj, c);
  }

  // ---------------------------------------------------------------- scan order

  /** (0, j), (1, j), ..., (m - 1, j): one run of an inner loop. */
  function Column(m: nat, j: nat): (r: seq<Key>)
    ensures |r| == m && forall i :: 0 <= i < m ==> r[i] == (i, j)
  {
    seq(m, i requires 0 <= i < m => (i, j))
  }

  /** The first i + 1 candidates of a column are its first i and then (i, j). */
  lemma ColumnPrefix(before: seq<Key>, m: nat, j: nat, i: nat)
    requires i < m
    ensures before + Column(m, j)[..i + 1] == (before + Column(m, j)[..i]) + [(i, j)]
  {
    assert Column(m, j)[..i + 1] == Column(m, j)[..i] + [(i, j)];
  }

  /** `for (j = 1; j < n; j++) for (i = 0; i < j; i++)`: the pairs i < j < n. */
  function TriKeys(n: nat): (r: seq<Key>)
    ensures forall t :: 0 <= t < |r| ==> r[t].0 < r[t].1 < n
  {
    if n == 0 then [] else TriKeys(n - 1) + Column(n - 1, n - 1)
  }

  /** The scan of `TriKeys(n)` may start from column 1: column 0 is empty. */
  lemma TriKeysStart(n: nat)
    ensures TriKeys(1) == [] && (n <= 1 ==> TriKeys(n) == [])
  {
    assert TriKeys(1) == TriKeys(0) + Column(0, 0);
  }

  /** One more run of the outer loop adds column j. */
  lemma TriKeysStep(j: nat)
    ensures TriKeys(j + 1) == TriKeys(j) + Column(j, j)
  {
  }

  /** No pair i < j < n is left out. */
  lemma {:induction false} TriKeysComplete(n: nat, i: nat, j: nat)
    requires i < j < n
    ensures (i, j) in TriKeys(n)
  {
    if j < n - 1 {
      TriKeysComplete(n - 1, i, j);
    } else {
      assert Column(n - 1, n - 1)[i] == (i, j);
    }
  }

  /** `for (j = 0; j < ne; j++) for (i = 0; i < nv; i++)`: every vertex i with every edge j. */
  function RectKeys(nv: nat, ne: nat): (r: seq<Key>)
    ensures forall t :: 0 <= t < |r| ==> r[t].0 < nv && r[t].1 < ne
  {
    if ne == 0 then [] else RectKeys(nv, ne - 1) + Column(nv, ne - 1)
  }

  /** One more run of the outer loop adds column j. */
  lemma RectKeysStep(nv: nat, j: nat)
    ensures RectKeys(nv, j + 1) == RectKeys(nv, j) + Column(nv, j)
  {
  }

  lemma {:induction false} RectKeysComplete(nv: nat, ne: nat, i: nat, j: nat)
    requires i < nv && j < ne
    ensures (i, j) in RectKeys(nv, ne)
  {
    if j < ne - 1 {
      RectKeysComplete(nv, ne - 1, i, j);
    } else {
      assert Column(nv, ne - 1)[i] == (i, j);
    }
  }

  /** The vertex x of an incident-edge operator exists. */
  predicate KindFits(K: Kind, adj: seq<seq<nat>>)
  {
    K.ByIssuedEdges? ==> K.x < |adj|
  }

  /** The candidates of each operator, in the order its loops try them. */
  function Keys(K: Kind, L: Labeling, adj: seq<seq<nat>>): (r: seq<Key>)
    requires KindFits(K, adj)
    ensures forall t :: 0 <= t < |r| ==> ValidKey(K, L, adj, r[t])
  {
    match K
    case ByVertex => TriKeys(|L.v|)
    case ByEdges => TriKeys(|L.e|)
    case ByVerticesAndEdges => RectKeys(|L.v|, |L.e|)
    case ByIssuedEdges(x) => TriKeys(|adj[x]| + 1)
  }

  /** Every pair of distinct positions of the neighbourhood is a candidate. */
  lemma KeysComplete(K: Kind, L: Labeling, adj: seq<seq<nat>>, c: Key)
    requires KindFits(K, adj) && ValidKey(K, L, adj, c)
    requires !K.ByVerticesAndEdges? ==> c.0 < c.1
    ensures c in Keys(K, L, adj)
  {
    match K
    case ByVertex => TriKeysComplete(|L.v|, c.0, c.1);
    case ByEdges => TriKeysComplete(|L.e|, c.0, c.1);
    case ByVerticesAndEdges => RectKeysComplete(|L.v|, |L.e|, c.0, c.1);
    case ByIssuedEdges(x) => TriKeysComplete(|adj[x]| + 1, c.0, c.1);
  }

  // ---------------------------------------------------------------- the scan

  /**
   * The best-improvement loop: from the current score and the indices (0, 0),
   * a candidate that is not skipped and scores strictly lower than the best so
   * far becomes the best.
   */
  function Scan(init: nat, keys: seq<Key>, score: Key -> nat, skip: Key -> bool): (r: (nat, Key))
    ensures r.1 == (0, 0) || r.1 in keys
  {
    if keys == [] then (init, (0, 0))
    else
      var prev := Scan(init, keys[..|keys| - 1], score, skip);
      var c := keys[|keys| - 1];
      if !skip(c) && score(c) < prev.0 then (score(c), c) else prev
  }

  /** One more candidate at the end of the scan. */
  lemma ScanAppend(init: nat, keys: seq<Key>, c: Key, score: Key -> nat, skip: Key -> bool)
    ensures Scan(init, keys + [c], score, skip) ==
            var prev := Scan(init, keys, score, skip);
            if !skip(c) && score(c) < prev.0 then (score(c), c) else prev
  {
    assert (keys + [c])[..|keys|] == keys;
  }

  /**
   * What the scan finds: a score no higher than the start and no higher
   * than any candidate's; the start itself only with (0, 0); and otherwise
   * the first candidate reaching that score, every earlier one scoring higher.
   */
  lemma {:induction false} ScanSpec(init: nat, keys: seq<Key>, score: Key -> nat, skip: Key -> bool)
    ensures Scan(init, keys, score, skip).0 <= init
    ensures Scan(init, keys, score, skip).0 == init ==> Scan(init, keys, score, skip).1 == (0, 0)
    ensures forall t :: 0 <= t < |keys| && !skip(keys[t]) ==> score(keys[t]) >= Scan(init, keys, score, skip).0
    ensures Scan(init, keys, score, skip).0 < init ==>
              exists p :: 0 <= p < |keys| && keys[p] == Scan(init, keys, score, skip).1 && !skip(keys[p]) &&
                score(keys[p]) == Scan(init, keys, score, skip).0 &&
                forall t :: 0 <= t < p && !skip(keys[t]) ==> score(keys[t]) > Scan(init, keys, score, skip).0
  {
    if keys != [] {
      var n := |keys| - 1;
      var ks := keys[..n];
      ScanSpec(init, ks, score, skip);
      var prev := Scan(init, ks, score, skip);
      var r := Scan(init, keys, score, skip);
      var c := keys[n];
      assert forall t :: 0 <= t < n ==> ks[t] == keys[t];
      if !skip(c) && score(c) < prev.0 {
        assert r == (score(c), c);
        assert forall t :: 0 <= t < n && !skip(keys[t]) ==> score(keys[t]) >= prev.0 > r.0;
      } else {
        assert r == prev;
        if r.0 < init {
          var p :| 0 <= p < n && ks[p] == r.1 && !skip(ks[p]) && score(ks[p]) == r.0 &&
                   forall t :: 0 <= t < p && !skip(ks[t]) ==> score(ks[t]) > r.0;
          assert keys[p] == r.1;
        }
      }
    }
  }

  /** The score of the labeling candidate c leads to (0 outside the operator's candidates). */
  function Attempt(P: Problem, K: Kind, L: Labeling, c: Key): nat
  {
    if Defined(P, L) && ValidKey(K, L, P.adj, c) then Score(P, Apply(K, L, P.adj, c)) else 0
  }

  /** The score of candidate c, for the scan. */
  function Trial(P: Problem, K: Kind, L: Labeling): Key -> nat
  {
    c => Attempt(P, K, L, c)
  }

  /** Candidate c would move a taboo label. */
  predicate Banned(K: Kind, L: Labeling, adj: seq<seq<nat>>, taboo: seq<int>, size: int, c: Key)
  {
    Fits(adj, L) && ValidKey(K, L, adj, c) && size <= |taboo| && Taboo(K, L, adj, c, taboo, size)
  }

  /** Candidate c is skipped: it would move a taboo label. */
  function Skip(K: Kind, L: Labeling, adj: seq<seq<nat>>, taboo: seq<int>, size: int): Key -> bool
  {
    c => Banned(K, L, adj, taboo, size, c)
  }

  /**
   * `score` and `skip` agree with Trial and Skip at every candidate whose
   * score or taboo test is taken (stated per candidate, so that a scan
   * loop can carry them without unfolding the score of every candidate).
   */
  ghost predicate ScanFns(score: Key -> nat, skip: Key -> bool, P: Problem, K: Kind, L: Labeling, taboo: seq<int>, size: int)
  {
    (forall c {:trigger Attempt(P, K, L, c)} :: score(c) == Attempt(P, K, L, c)) &&
    (forall c {:trigger Banned(K, L, P.adj, taboo, size, c)} :: skip(c) == Banned(K, L, P.adj, taboo, size, c))
  }

  lemma TrialScanFns(P: Problem, K: Kind, L: Labeling, taboo: seq<int>, size: int)
    ensures ScanFns(Trial(P, K, L), Skip(K, L, P.adj, taboo, size), P, K, L, taboo, size)
  {
  }

  /** The scan of the operator's own candidates from the current score. */
  function Best(P: Problem, K: Kind, L: Labeling, taboo: seq<int>, size: int): (nat, Key)
    requires Defined(P, L) && KindFits(K, P.adj)
  {
    Scan(Score(P, L), Keys(K, L, P.adj), Trial(P, K, L), Skip(K, L, P.adj, taboo, size))
  }

  /**
   * The operator as written: the best candidate is applied unless it is
   * (0, 0), which stands for "the current labeling is the best".
   */
  function Step(P: Problem, K: Kind, L: Labeling, taboo: seq<int>, size: int): (r: (bool, Labeling))
    requires Defined(P, L) && KindFits(K, P.adj)
  {
    var b := Best(P, K, L, taboo, size);
    if b.1 == (0, 0) then (false, L) else (true, Apply(K, L, P.adj, b.1))
  }

  /** The operator as intended: the best candidate is applied exactly when it scores lower. */
  function StepFixed(P: Problem, K: Kind, L: Labeling, taboo: seq<int>, size: int): (r: (bool, Labeling))
    requires Defined(P, L) && KindFits(K, P.adj)
  {
    var b := Best(P, K, L, taboo, size);
    if b.0 < Score(P, L) then (true, Apply(K, L, P.adj, b.1)) else (false, L)
  }

  /** Both operators on a vertex and an edge, spelled out: the exchange is SwapVE at the best candidate. */
  lemma StepVertexEdge(P: Problem, L: Labeling, taboo: seq<int>, size: int, b: (nat, Key))
    requires Defined(P, L) && size <= |taboo| && b == Best(P, ByVerticesAndEdges, L, taboo, size)
    ensures b.1 != (0, 0) || b.0 < Score(P, L) ==> b.1.0 < |L.v| && b.1.1 < |L.e|
    ensures b.1 != (0, 0) ==> Step(P, ByVerticesAndEdges, L, taboo, size) == (true, SwapVE(L, b.1.0, b.1.1))
    ensures b.1 == (0, 0) ==> Step(P, ByVerticesAndEdges, L, taboo, size) == (false, L)
    ensures b.0 < Score(P, L) ==> StepFixed(P, ByVerticesAndEdges, L, taboo, size) == (true, SwapVE(L, b.1.0, b.1.1))
    ensures !(b.0 < Score(P, L)) ==> StepFixed(P, ByVerticesAndEdges, L, taboo, size) == (false, L)
  {
    if b.0 < Score(P, L) {
      BestFound(P, ByVerticesAndEdges, L, taboo, size);
    }
  }

  /** In the three operators whose candidates satisfy i < j, the sentinel is never a candidate. */
  lemma SentinelHarmless(P: Problem, K: Kind, L: Labeling, taboo: seq<int>, size: int)
    requires Defined(P, L) && KindFits(K, P.adj) && !K.ByVerticesAndEdges?
    ensures Step(P, K, L, taboo, size) == StepFixed(P, K, L, taboo, size)
  {
    var keys := Keys(K, L, P.adj);
    assert forall t :: 0 <= t < |keys| ==> keys[t].0 < keys[t].1;
    ScanSpec(Score(P, L), keys, Trial(P, K, L), Skip(K, L, P.adj, taboo, size));
  }

  /** No candidate the operator may try scores below what the scan keeps. */
  lemma BestMinimal(P: Problem, K: Kind, L: Labeling, taboo: seq<int>, size: int)
    requires Defined(P, L) && KindFits(K, P.adj) && size <= |taboo|
    ensures forall c :: c in Keys(K, L, P.adj) && !Taboo(K, L, P.adj, c, taboo, size) ==>
              Score(P, Apply(K, L, P.adj, c)) >= Best(P, K, L, taboo, size).0
  {
    var keys := Keys(K, L, P.adj);
    var score, skip := Trial(P, K, L), Skip(K, L, P.adj, taboo, size);
    ScanSpec(Score(P, L), keys, score, skip);
    forall c | c in keys && !Taboo(K, L, P.adj, c, taboo, size)
      ensures Score(P, Apply(K, L, P.adj, c)) >= Best(P, K, L, taboo, size).0
    {
      var t :| 0 <= t < |keys| && keys[t] == c;
      assert !skip(keys[t]);
    }
  }

  /** A lower score kept by the scan is that of an allowed candidate. */
  lemma BestFound(P: Problem, K: Kind, L: Labeling, taboo: seq<int>, size: int)
    requires Defined(P, L) && KindFits(K, P.adj) && size <= |taboo|
    requires Best(P, K, L, taboo, size).0 < Score(P, L)
    ensures var c := Best(P, K, L, taboo, size).1;
            c in Keys(K, L, P.adj) && !Taboo(K, L, P.adj, c, taboo, size) &&
            Score(P, Apply(K, L, P.adj, c)) == Best(P, K, L, taboo, size).0
  {
    var keys := Keys(K, L, P.adj);
    var score, skip := Trial(P, K, L), Skip(K, L, P.adj, taboo, size);
    ScanSpec(Score(P, L), keys, score, skip);
    var b := Best(P, K, L, taboo, size);
    var p :| 0 <= p < |keys| && keys[p] == b.1 && !skip(keys[p]) && score(keys[p]) == b.0 &&
             forall t :: 0 <= t < p && !skip(keys[t]) ==> score(keys[t]) > b.0;
  }

  /**
   * The intended operator, when it reports success: the labeling is an allowed
   * candidate's, strictly better than before and at least as good as every
   * other allowed candidate's, and only rearranges the labels.
   */
  lemma StepFixedImproves(P: Problem, K: Kind, L: Labeling, taboo: seq<int>, size: int)
    requires Defined(P, L) && KindFits(K, P.adj) && size <= |taboo|
    requires StepFixed(P, K, L, taboo, size).0
    ensures var r := StepFixed(P, K, L, taboo, size).1;
            Score(P, r) < Score(P, L) && multiset(Joined(r)) == multiset(Joined(L)) &&
            (exists c :: c in Keys(K, L, P.adj) && !Taboo(K, L, P.adj, c, taboo, size) && r == Apply(K, L, P.adj, c)) &&
            forall c :: c in Keys(K, L, P.adj) && !Taboo(K, L, P.adj, c, taboo, size) ==>
              Score(P, Apply(K, L, P.adj, c)) >= Score(P, r)
  {
    BestFound(P, K, L, taboo, size);
    BestMinimal(P, K, L, taboo, size);
    ApplyPermutes(K, L, P.adj, Best(P, K, L, taboo, size).1);
  }

  /** The intended operator, when it reports failure: nothing changes and no allowed candidate is better. */
  lemma StepFixedStays(P: Problem, K: Kind, L: Labeling, taboo: seq<int>, size: int)
    requires Defined(P, L) && KindFits(K, P.adj) && size <= |taboo|
    requires !StepFixed(P, K, L, taboo, size).0
    ensures StepFixed(P, K, L, taboo, size).1 == L
    ensures forall c :: c in Keys(K, L, P.adj) && !Taboo(K, L, P.adj, c, taboo, size) ==>
              Score(P, Apply(K, L, P.adj, c)) >= Score(P, L)
  {
    BestMinimal(P, K, L, taboo, size);
  }

  /** A candidate that moves no taboo label and scores lower: the operator is not at a local optimum. */
  predicate Improvable(P: Problem, K: Kind, L: Labeling, taboo: seq<int>, size: int)
    requires Defined(P, L) && KindFits(K, P.adj) && size <= |taboo|
  {
    exists c :: c in Keys(K, L, P.adj) && !Taboo(K, L, P.adj, c, taboo, size) &&
      Score(P, Apply(K, L, P.adj, c)) < Score(P, L)
  }

  /** The intended operator reports an improvement exactly when one exists. */
  lemma StepFixedFinds(P: Problem, K: Kind, L: Labeling, taboo: seq<int>, size: int)
    requires Defined(P, L) && KindFits(K, P.adj) && size <= |taboo|
    ensures StepFixed(P, K, L, taboo, size).0 <==> Improvable(P, K, L, taboo, size)
  {
    if StepFixed(P, K, L, taboo, size).0 {
      BestFound(P, K, L, taboo, size);
    } else {
      BestMinimal(P, K, L, taboo, size);
    }
  }

  /**
   * `bestGraphByVerticesAndEdges` tries vertex 0 with edge 0 as its first
   * candidate, so the sentinel is a real move: the operator as written differs
   * from the intended one exactly when that move is the best one.
   */
  lemma SentinelVerticesAndEdges(P: Problem, L: Labeling, taboo: seq<int>, size: int)
    requires Defined(P, L)
    ensures Step(P, ByVerticesAndEdges, L, taboo, size) != StepFixed(P, ByVerticesAndEdges, L, taboo, size) <==>
            Best(P, ByVerticesAndEdges, L, taboo, size).1 == (0, 0) && Best(P, ByVerticesAndEdges, L, taboo, size).0 < Score(P, L)
  {
    var K := ByVerticesAndEdges;
    ScanSpec(Score(P, L), Keys(K, L, P.adj), Trial(P, K, L), Skip(K, L, P.adj, taboo, size));
    var b := Best(P, K, L, taboo, size);
    if b.1 == (0, 0) && b.0 < Score(P, L) {
      assert Apply(K, L, P.adj, (0, 0)).v[0] == L.e[0];
      assert Score(P, Apply(K, L, P.adj, (0, 0))) != Score(P, L);
    }
  }

  /** The target-3 magic score of two weights. */
  lemma TwoWeights(a: int, b: int)
    ensures AbsDeviation([a, b], 3, 0) == Abs(a - 3) + Abs(b - 3)
  {
    assert [a, b][..1] == [a] && [a][..0] == [];
    assert AbsDeviation([a], 3, 0) == AbsDeviation([], 3, 0) + Abs(a - 3 - 0 * 0) == Abs(a - 3);
    assert AbsDeviation([a, b], 3, 0) == AbsDeviation([a], 3, 0) + Abs(b - 3 - 1 * 0);
  }

  /** On the graph of one edge between x and y, with magic constant 3: the score of a labeling. */
  lemma OneEdgeScore(P: Problem, L: Labeling)
    requires P == Problem(Magic(3, 0), [[0], [0]], ["x", "y"])
    requires |L.v| == 2 && |L.e| == 1
    ensures Defined(P, L)
    ensures Score(P, L) == Abs(L.v[0] + L.e[0] - 3) + Abs(L.v[1] + L.e[0] - 3)
  {
    assert EdgeSum(L.e, [0]) == L.e[0] by {
      assert [0][..0] == [];
    }
    var w := Weights(L, P.adj);
    assert w == [L.v[0] + L.e[0], L.v[1] + L.e[0]];
    TwoWeights(w[0], w[1]);
  }

  /** The scores of the example below: before, and after each of its two candidates. */
  lemma CounterexampleScores(P: Problem, L: Labeling, L0: Labeling, L1: Labeling)
    requires P == Problem(Magic(3, 0), [[0], [0]], ["x", "y"])
    requires L == Labeling([1, 2], [3]) && L0 == Labeling([3, 2], [1]) && L1 == Labeling([1, 3], [2])
    ensures Defined(P, L) && Defined(P, L0) && Defined(P, L1)
    ensures Score(P, L) == 3 && Score(P, L0) == 1 && Score(P, L1) == 2
  {
    OneEdgeScore(P, L);
    OneEdgeScore(P, L0);
    OneEdgeScore(P, L1);
  }

  /**
   * Two vertices joined by one edge, labels 1, 2 and 3, target: every weight 3.
   * The weights are 4 and 5 (score 3); exchanging vertex 0 with the edge gives
   * weights 4 and 3 (score 1), vertex 1 with the edge 3 and 5 (score 2). The
   * best move is (0, 0), so the operator as written reports no improvement.
   */
  lemma SentinelCounterexample()
    ensures var P := Problem(Magic(3, 0), [[0], [0]], ["x", "y"]);
            var L := Labeling([1, 2], [3]);
            Defined(P, L) && Improvable(P, ByVerticesAndEdges, L, [], 0) &&
            !Step(P, ByVerticesAndEdges, L, [], 0).0 && StepFixed(P, ByVerticesAndEdges, L, [], 0).0
  {
    var P := Problem(Magic(3, 0), [[0], [0]], ["x", "y"]);
    var L := Labeling([1, 2], [3]);
    var K := ByVerticesAndEdges;
    CounterexampleBest(P, L);
    assert (0, 0) in Keys(K, L, P.adj);
    assert !Taboo(K, L, P.adj, (0, 0), [], 0);
  }

  /** The scan of the example: both candidates are tried and (0, 0) wins with score 1. */
  lemma CounterexampleBest(P: Problem, L: Labeling)
    requires P == Problem(Magic(3, 0), [[0], [0]], ["x", "y"]) && L == Labeling([1, 2], [3])
    ensures Defined(P, L) && KindFits(ByVerticesAndEdges, P.adj) && Score(P, L) == 3
    ensures Keys(ByVerticesAndEdges, L, P.adj) == [(0, 0), (1, 0)]
    ensures Score(P, Apply(ByVerticesAndEdges, L, P.adj, (0, 0))) == 1
    ensures Best(P, ByVerticesAndEdges, L, [], 0) == (1, (0, 0))
  {
    var K := ByVerticesAndEdges;
    var L0, L1 := Labeling([3, 2], [1]), Labeling([1, 3], [2]);
    assert Apply(K, L, P.adj, (0, 0)) == L0;
    assert Apply(K, L, P.adj, (1, 0)) == L1;
    CounterexampleScores(P, L, L0, L1);
    assert Keys(K, L, P.adj) == [(0, 0), (1, 0)] by {
      assert |RectKeys(2, 0)| == 0;
      assert RectKeys(2, 1) == [] + Column(2, 0);
    }
    var score, skip := Trial(P, K, L), Skip(K, L, P.adj, [], 0);
    assert !skip((0, 0)) && !skip((1, 0));
    assert score((0, 0)) == 1 && score((1, 0)) == 2;
    ScanTwo(3, (0, 0), (1, 0), score, skip);
  }

  /** A scan of two candidates that both count, the first strictly better than init and no worse than the second. */
  lemma ScanTwo(init: nat, a: Key, b: Key, score: Key -> nat, skip: Key -> bool)
    requires !skip(a) && !skip(b) && score(a) < init && score(a) <= score(b)
    ensures Scan(init, [a, b], score, skip) == (score(a), a)
  {
    assert [a, b][..1] == [a] && [a][..0] == [];
    assert Scan(init, [], score, skip) == (init, (0, 0));
    assert Scan(init, [a], score, skip) == (score(a), a);
  }

  // ---------------------------------------------------------------- what every step keeps

  /** From L0 to L every taboo label stays on its vertex or edge. */
  predicate KeepsTaboo(L0: Labeling, L: Labeling, taboo: seq<int>, size: int)
    requires size <= |taboo|
  {
    |L.v| == |L0.v| && |L.e| == |L0.e| &&
    (forall i :: 0 <= i < |L0.v| && Utils.Occurs(L0.v[i], taboo, size) ==> L.v[i] == L0.v[i]) &&
    (forall i :: 0 <= i < |L0.e| && Utils.Occurs(L0.e[i], taboo, size) ==> L.e[i] == L0.e[i])
  }

  /** Keeping the taboo labels composes: a taboo label kept twice is kept. */
  lemma KeepsTabooTrans(L0: Labeling, L1: Labeling, L2: Labeling, taboo: seq<int>, size: int)
    requires size <= |taboo| && KeepsTaboo(L0, L1, taboo, size) && KeepsTaboo(L1, L2, taboo, size)
    ensures KeepsTaboo(L0, L2, taboo, size)
  {
    forall i | 0 <= i < |L0.v| && Utils.Occurs(L0.v[i], taboo, size) ensures L2.v[i] == L0.v[i] {
      assert Utils.Occurs(L1.v[i], taboo, size);
    }
    forall i | 0 <= i < |L0.e| && Utils.Occurs(L0.e[i], taboo, size) ensures L2.e[i] == L0.e[i] {
      assert Utils.Occurs(L1.e[i], taboo, size);
    }
  }

  /** The same property of two labelings, read on Joined. */
  lemma KeepsTabooJoined(L0: Labeling, L: Labeling, taboo: seq<int>, size: int)
    requires size <= |taboo| && |L.v| == |L0.v| && |L.e| == |L0.e|
    requires forall k :: 0 <= k < |Joined(L0)| && Utils.Occurs(Joined(L0)[k], taboo, size) ==> Joined(L)[k] == Joined(L0)[k]
    ensures KeepsTaboo(L0, L, taboo, size)
  {
    var n := |L0.v|;
    forall i | 0 <= i < |L0.v| && Utils.Occurs(L0.v[i], taboo, size) ensures L.v[i] == L0.v[i] {
      assert Joined(L0)[i] == L0.v[i] && Joined(L)[i] == L.v[i];
    }
    forall i | 0 <= i < |L0.e| && Utils.Occurs(L0.e[i], taboo, size) ensures L.e[i] == L0.e[i] {
      assert Joined(L0)[n + i] == L0.e[i] && Joined(L)[n + i] == L.e[i];
    }
  }

  /**
   * One step of an operator, as written: when it reports success the score
   * went strictly down, otherwise nothing changed; either way the labels are
   * only rearranged and no taboo label moved.
   */
  lemma StepProgress(P: Problem, K: Kind, L: Labeling, taboo: seq<int>, size: int)
    requires Defined(P, L) && KindFits(K, P.adj) && size <= |taboo|
    ensures var r := Step(P, K, L, taboo, size);
            Defined(P, r.1) && multiset(Joined(r.1)) == multiset(Joined(L)) && KeepsTaboo(L, r.1, taboo, size) &&
            (r.0 ==> Score(P, r.1) < Score(P, L)) && (!r.0 ==> r.1 == L)
  {
    var keys, score, skip := Keys(K, L, P.adj), Trial(P, K, L), Skip(K, L, P.adj, taboo, size);
    ScanSpec(Score(P, L), keys, score, skip);
    var b := Best(P, K, L, taboo, size);
    if b.1 != (0, 0) {
      var p :| 0 <= p < |keys| && keys[p] == b.1 && !skip(keys[p]) && score(keys[p]) == b.0 &&
               forall t :: 0 <= t < p && !skip(keys[t]) ==> score(keys[t]) > b.0;
      ApplyPermutes(K, L, P.adj, b.1);
      ApplyKeepsTaboo(K, L, P.adj, b.1, taboo, size);
      KeepsTabooJoined(L, Apply(K, L, P.adj, b.1), taboo, size);
    }
  }

  /** The same for the intended operator. */
  lemma StepFixedProgress(P: Problem, K: Kind, L: Labeling, taboo: seq<int>, size: int)
    requires Defined(P, L) && KindFits(K, P.adj) && size <= |taboo|
    ensures var r := StepFixed(P, K, L, taboo, size);
            Defined(P, r.1) && multiset(Joined(r.1)) == multiset(Joined(L)) && KeepsTaboo(L, r.1, taboo, size) &&
            (r.0 ==> Score(P, r.1) < Score(P, L)) && (!r.0 ==> r.1 == L && !Improvable(P, K, L, taboo, size))
  {
    StepFixedFinds(P, K, L, taboo, size);
    if StepFixed(P, K, L, taboo, size).0 {
      var b := Best(P, K, L, taboo, size);
      BestFound(P, K, L, taboo, size);
      ApplyPermutes(K, L, P.adj, b.1);
      ApplyKeepsTaboo(K, L, P.adj, b.1, taboo, size);
      KeepsTabooJoined(L, Apply(K, L, P.adj, b.1), taboo, size);
    }
  }

  /** For the incident-edge operator the scanned steps of both versions agree, so the search stops only at a local optimum. */
  lemma IssuedStepProgress(P: Problem, x: nat, L: Labeling, taboo: seq<int>, size: int)
    requires Defined(P, L) && x < |P.adj| && size <= |taboo|
    ensures var r := Step(P, ByIssuedEdges(x), L, taboo, size);
            Defined(P, r.1) && multiset(Joined(r.1)) == multiset(Joined(L)) && KeepsTaboo(L, r.1, taboo, size) &&
            (r.0 ==> Score(P, r.1) < Score(P, L)) &&
            (!r.0 ==> r.1 == L && !Improvable(P, ByIssuedEdges(x), L, taboo, size))
  {
    SentinelHarmless(P, ByIssuedEdges(x), L, taboo, size);
    StepFixedProgress(P, ByIssuedEdges(x), L, taboo, size);
  }
}
