/**
 * The search drivers of Solver.c.
 *
 * `attemptSolveVertexAndIssuedEdges` repeatedly improves the neighbourhood of
 * a random vertex, and after more than three fruitless draws sweeps every
 * vertex once; it stops when the score is within the precision or a sweep
 * finds nothing. `attemptSolveWithThreshold` alternates the three exchange
 * searches (falling back on a random exchange) with that vertex descent,
 * and gives up after more than `timeout` rounds.
 */
module Driver {
  import opened Seqs
  import opened Scores
  import opened Graphs
  import opened Labelings
  import opened Moves
  import opened Perturb
  import opened Solving

  /** `timeout` of Solver.c: the number of rounds before giving up. */
  const Timeout: nat := 200000
  /** `randomTimeout`: the fruitless random draws tolerated before a full sweep. */
  const RandomTimeout: nat := 3

  // ---------------------------------------------------------------- the sweep over all vertices

  /**
   * What holds after vertices 0..x-1 of a sweep from L0 have each tried
   * their neighbourhood, c of them successfully, leaving L: the labels are
   * only rearranged and the taboo ones kept; after a success the score is
   * lower, and with none the labels are L0 and no neighbourhood tried so far
   * can be improved.
   */
  predicate SweepInv(P: Problem, L0: Labeling, c: nat, L: Labeling, x: nat, taboo: seq<int>, size: int)
    requires Defined(P, L0) && x <= |P.adj| && size <= |taboo|
  {
    Defined(P, L) && multiset(Joined(L)) == multiset(Joined(L0)) && KeepsTaboo(L0, L, taboo, size) &&
    (c > 0 ==> Score(P, L) < Score(P, L0)) &&
    (c == 0 ==> L == L0 && Settled(P, L0, x, taboo, size))
  }

  /** No neighbourhood of a vertex below n holds an improving, non-taboo exchange. */
  predicate Settled(P: Problem, L: Labeling, n: nat, taboo: seq<int>, size: int)
    requires Defined(P, L) && n <= |P.adj| && size <= |taboo|
  {
    forall x :: 0 <= x < n ==> !Improvable(P, ByIssuedEdges(x), L, taboo, size)
  }

  /** Nothing is tried yet. */
  lemma SweepStart(P: Problem, L0: Labeling, taboo: seq<int>, size: int)
    requires Defined(P, L0) && size <= |taboo|
    ensures SweepInv(P, L0, 0, L0, 0, taboo, size)
  {
  }

  /** Vertex x tries its neighbourhood: the invariant moves on to x + 1, counting a success. */
  lemma SweepAdvance(P: Problem, L0: Labeling, c: nat, L: Labeling, x: nat, found: bool, L1: Labeling,
                     taboo: seq<int>, size: int)
    requires Defined(P, L0) && x < |P.adj| && size <= |taboo|
    requires SweepInv(P, L0, c, L, x, taboo, size)
    requires (found, L1) == Step(P, ByIssuedEdges(x), L, taboo, size)
    ensures SweepInv(P, L0, c + (if found then 1 else 0), L1, x + 1, taboo, size)
  {
    IssuedStepProgress(P, x, L, taboo, size);
    KeepsTabooTrans(L0, L, L1, taboo, size);
    assert multiset(Joined(L1)) == multiset(Joined(L)) == multiset(Joined(L0));
    if c == 0 && !found {
      assert L1 == L == L0;
      StuckExtend(P, L0, x, taboo, size);
    } else if found {
      assert Score(P, L1) < Score(P, L);
    } else {
      assert L1 == L;
    }
  }

  /** No neighbourhood below x + 1 can be improved, given that none below x and x's cannot. */
  lemma StuckExtend(P: Problem, L: Labeling, x: nat, taboo: seq<int>, size: int)
    requires Defined(P, L) && x < |P.adj| && size <= |taboo|
    requires Settled(P, L, x, taboo, size) && !Improvable(P, ByIssuedEdges(x), L, taboo, size)
    ensures Settled(P, L, x + 1, taboo, size)
  {
    forall y | 0 <= y < x + 1 ensures !Improvable(P, ByIssuedEdges(y), L, taboo, size) {
      if y != x {
        assert 0 <= y < x;
      }
    }
  }

  /**
   * The `for (alerte ...)` loop: every vertex in turn improves its
   * neighbourhood, and `control` counts the successes. The labels are only
   * rearranged, taboo ones kept; a success lowers the score, and when there
   * is none the labels are as they were and no vertex neighbourhood holds an
   * improving, non-taboo exchange.
   */
  method Sweep(s: Solver, obj: Objective, taboo: seq<int>, size: int) returns (control: nat)
    requires s.Valid() && Defined(s.Prob(obj), s.Labels()) && size <= |taboo|
    modifies s.g.vertices, s.g.edges
    ensures |s.Prob(obj).adj| == s.g.nbv
    ensures SweepInv(s.Prob(obj), old(s.Labels()), control, s.Labels(), s.g.nbv, taboo, size)
    ensures SkeletonOf(s.g) == old(SkeletonOf(s.g))
  {
    ghost var P, L0 := s.Prob(obj), s.Labels();
    var nbv := s.g.nbv;
    SweepStart(P, L0, taboo, size);
    control := 0;
    var alerte := 0;
    ghost var cur := L0;
    ghost var K0 := SkeletonOf(s.g);
    while alerte < nbv
      invariant 0 <= alerte <= nbv && |P.adj| == nbv && cur == s.Labels() && SkeletonOf(s.g) == K0
      invariant SweepInv(P, L0, control, cur, alerte, taboo, size)
    {
      var found;
      found, cur := SweepVertex(s, obj, alerte, taboo, size, L0, control, cur);
      if found {
        control := control + 1;
      }
      alerte := alerte + 1;
    }
  }

  /** One turn of the sweep loop: vertex x improves its neighbourhood. */
  method SweepVertex(s: Solver, obj: Objective, x: nat, taboo: seq<int>, size: int,
                     ghost L0: Labeling, ghost c: nat, ghost L: Labeling)
    returns (found: bool, ghost L1: Labeling)
    requires s.Valid() && Defined(s.Prob(obj), L0) && size <= |taboo| && x < s.g.nbv && L == s.Labels()
    requires SweepInv(s.Prob(obj), L0, c, L, x, taboo, size)
    modifies s.g.vertices, s.g.edges
    ensures L1 == s.Labels()
    ensures SweepInv(s.Prob(obj), L0, c + (if found then 1 else 0), L1, x + 1, taboo, size)
    ensures SkeletonOf(s.g) == old(SkeletonOf(s.g))
  {
    ghost var P := s.Prob(obj);
    found := s.BestGraphByVertexAndIssuedEdges(obj, x, taboo, size);
    L1 := s.Labels();
    SweepAdvance(P, L0, c, L, x, found, L1, taboo, size);
  }

  // ---------------------------------------------------------------- attemptSolveVertexAndIssuedEdges

  /**
   * L is reached from L0 by the descent: the labels are only rearranged,
   * the taboo ones kept, and the score is no higher.
   */
  predicate Descended(P: Problem, L0: Labeling, L: Labeling, taboo: seq<int>, size: int)
    requires Defined(P, L0) && size <= |taboo|
  {
    Defined(P, L) && Rearranged(L0, L, taboo, size) && Score(P, L) <= Score(P, L0)
  }

  lemma DescendedRefl(P: Problem, L: Labeling, taboo: seq<int>, size: int)
    requires Defined(P, L) && size <= |taboo|
    ensures Descended(P, L, L, taboo, size)
  {
  }

  lemma DescendedTrans(P: Problem, L0: Labeling, L1: Labeling, L2: Labeling, taboo: seq<int>, size: int)
    requires Defined(P, L0) && size <= |taboo|
    requires Descended(P, L0, L1, taboo, size) && Descended(P, L1, L2, taboo, size)
    ensures Descended(P, L0, L2, taboo, size)
  {
    RearrangedTrans(L0, L1, L2, taboo, size);
  }

  /**
   * `attemptSolveVertexAndIssuedEdges`: while the score exceeds the precision,
   * a random vertex improves its neighbourhood; once more than `randomTimeout`
   * draws in a row found nothing, every vertex is tried, and if none finds
   * anything the descent stops. The random index is any vertex; the source
   * draws it with `rand() % nbv`, so it needs a vertex whenever it searches.
   * At the end the score is within the precision, or no vertex neighbourhood
   * holds an improving, non-taboo exchange.
   */
  method AttemptSolveVertexAndIssuedEdges(s: Solver, obj: Objective, precision: int, taboo: seq<int>, size: int)
    requires s.Valid() && Defined(s.Prob(obj), s.Labels()) && size <= |taboo|
    requires s.g.nbv > 0 || Score(s.Prob(obj), s.Labels()) <= Threshold(obj, s.g.nbv, precision)
    modifies s.g.vertices, s.g.edges
    ensures Descended(s.Prob(obj), old(s.Labels()), s.Labels(), taboo, size)
    ensures Score(s.Prob(obj), s.Labels()) <= Threshold(obj, s.g.nbv, precision) ||
            Settled(s.Prob(obj), s.Labels(), s.g.nbv, taboo, size)
    ensures SkeletonOf(s.g) == old(SkeletonOf(s.g))
  {
    ghost var P, L0 := s.Prob(obj), s.Labels();
    var thr := Threshold(obj, s.g.nbv, precision);
    DescendedRefl(P, L0, taboo, size);
    var iterCount := 0;
    var magicValue := s.Evaluate(obj);
    ghost var K0 := SkeletonOf(s.g);
    while magicValue > thr
      invariant s.Valid() && Descended(P, L0, s.Labels(), taboo, size) && magicValue == Score(P, s.Labels())
      invariant 0 <= iterCount <= RandomTimeout + 1 && SkeletonOf(s.g) == K0
      decreases magicValue, RandomTimeout + 1 - iterCount
    {
      var stop;
      stop, iterCount, magicValue := DescentTurn(s, obj, iterCount, taboo, size, L0);
      if stop {
        // Nothing was found: no better solution exists in these neighbourhoods.
        return;
      }
    }
  }

  /**
   * One turn of the descent loop, continuing a descent from L0: a round and
   * the new score.
   */
  method DescentTurn(s: Solver, obj: Objective, iterCount: nat, taboo: seq<int>, size: int, ghost L0: Labeling)
    returns (stop: bool, next: nat, magicValue: nat)
    requires s.Valid() && Defined(s.Prob(obj), L0) && size <= |taboo| && Descended(s.Prob(obj), L0, s.Labels(), taboo, size)
    requires s.g.nbv > 0 && iterCount <= RandomTimeout + 1
    modifies s.g.vertices, s.g.edges
    ensures Descended(s.Prob(obj), L0, s.Labels(), taboo, size)
    ensures stop ==> Settled(s.Prob(obj), s.Labels(), s.g.nbv, taboo, size)
    ensures !stop ==> magicValue == Score(s.Prob(obj), s.Labels()) && next <= RandomTimeout + 1 &&
                      (magicValue < Score(s.Prob(obj), old(s.Labels())) ||
                       (s.Labels() == old(s.Labels()) && next == iterCount + 1))
    ensures SkeletonOf(s.g) == old(SkeletonOf(s.g))
  {
    ghost var P, L := s.Prob(obj), s.Labels();
    assert Defined(P, L);
    stop, next := DescentRound(s, obj, iterCount, taboo, size);
    ghost var L1 := s.Labels();
    assert s.Valid() && s.Prob(obj) == P && Descended(P, L, L1, taboo, size);
    DescendedTrans(P, L0, L, L1, taboo, size);
    magicValue := 0;
    if !stop {
      magicValue := s.Evaluate(obj);
    }
  }

  /**
   * One round of the descent: the sweep when the random draws have run
   * out, stopping if it finds nothing, then one random vertex. The new state
   * has a lower score, or the same labels and one more fruitless draw.
   */
  method DescentRound(s: Solver, obj: Objective, iterCount: nat, taboo: seq<int>, size: int)
    returns (stop: bool, next: nat)
    requires s.Valid() && Defined(s.Prob(obj), s.Labels()) && size <= |taboo|
    requires s.g.nbv > 0 && iterCount <= RandomTimeout + 1
    modifies s.g.vertices, s.g.edges
    ensures Descended(s.Prob(obj), old(s.Labels()), s.Labels(), taboo, size)
    ensures stop ==> Settled(s.Prob(obj), s.Labels(), s.g.nbv, taboo, size)
    ensures !stop ==> next <= RandomTimeout + 1 &&
                      (Score(s.Prob(obj), s.Labels()) < Score(s.Prob(obj), old(s.Labels())) ||
                       (s.Labels() == old(s.Labels()) && next == iterCount + 1))
    ensures SkeletonOf(s.g) == old(SkeletonOf(s.g))
  {
    ghost var P, L0 := s.Prob(obj), s.Labels();
    next := iterCount;
    ghost var L := L0;
    if next > RandomTimeout {
      var stuck := FullSweep(s, obj, taboo, size);
      if stuck {
        return true, next;
      }
      next := 0;
      L := s.Labels();
    }
    var found := RandomDraw(s, obj, taboo, size);
    DescendedTrans(P, L0, L, s.Labels(), taboo, size);
    if !found {
      next := next + 1;
    }
    stop := false;
  }

  /** What a finished sweep leaves: a descent, stuck everywhere when nothing was found. */
  lemma SweepOutcome(P: Problem, L0: Labeling, c: nat, L: Labeling, taboo: seq<int>, size: int)
    requires Defined(P, L0) && size <= |taboo|
    requires SweepInv(P, L0, c, L, |P.adj|, taboo, size)
    ensures Descended(P, L0, L, taboo, size)
    ensures c == 0 ==> L == L0 && Settled(P, L, |P.adj|, taboo, size)
    ensures c > 0 ==> Score(P, L) < Score(P, L0)
  {
  }

  /** The sweep with its outcome read off: `stuck` when no vertex found anything. */
  method FullSweep(s: Solver, obj: Objective, taboo: seq<int>, size: int) returns (stuck: bool)
    requires s.Valid() && Defined(s.Prob(obj), s.Labels()) && size <= |taboo|
    modifies s.g.vertices, s.g.edges
    ensures Descended(s.Prob(obj), old(s.Labels()), s.Labels(), taboo, size)
    ensures stuck ==> s.Labels() == old(s.Labels()) &&
                      Settled(s.Prob(obj), s.Labels(), s.g.nbv, taboo, size)
    ensures !stuck ==> Score(s.Prob(obj), s.Labels()) < Score(s.Prob(obj), old(s.Labels()))
    ensures SkeletonOf(s.g) == old(SkeletonOf(s.g))
  {
    ghost var P, L0 := s.Prob(obj), s.Labels();
    var control := Sweep(s, obj, taboo, size);
    SweepOutcome(P, L0, control, s.Labels(), taboo, size);
    stuck := control == 0;
  }

  /** `rand() % nbv` picks a vertex, which improves its neighbourhood. */
  method RandomDraw(s: Solver, obj: Objective, taboo: seq<int>, size: int) returns (found: bool)
    requires s.Valid() && Defined(s.Prob(obj), s.Labels()) && size <= |taboo| && s.g.nbv > 0
    modifies s.g.vertices, s.g.edges
    ensures Descended(s.Prob(obj), old(s.Labels()), s.Labels(), taboo, size)
    ensures found ==> Score(s.Prob(obj), s.Labels()) < Score(s.Prob(obj), old(s.Labels()))
    ensures !found ==> s.Labels() == old(s.Labels())
    ensures SkeletonOf(s.g) == old(SkeletonOf(s.g))
  {
    ghost var P, L := s.Prob(obj), s.Labels();
    var randomIndex: nat :| randomIndex < s.g.nbv;
    IssuedStepProgress(P, randomIndex, L, taboo, size);
    found := s.BestGraphByVertexAndIssuedEdges(obj, randomIndex, taboo, size);
  }

  // ---------------------------------------------------------------- attemptSolveWithThreshold

  /** A score depends only on the shapes of the labels it reads. */
  lemma DefinedShape(P: Problem, L: Labeling, L': Labeling)
    requires Defined(P, L) && |L'.v| == |L.v| && |L'.e| == |L.e|
    ensures Defined(P, L')
  {
  }

  /** An exchange search whose sentinel cannot hurt: it finds an improvement or there is none. */
  lemma StepOutcome(P: Problem, K: Kind, L: Labeling, found: bool, L1: Labeling, taboo: seq<int>, size: int)
    requires Defined(P, L) && KindFits(K, P.adj) && size <= |taboo| && !K.ByVerticesAndEdges?
    requires (found, L1) == Step(P, K, L, taboo, size)
    ensures Descended(P, L, L1, taboo, size)
    ensures found ==> Score(P, L1) < Score(P, L)
    ensures !found ==> L1 == L && !Improvable(P, K, L, taboo, size)
  {
    SentinelHarmless(P, K, L, taboo, size);
    StepFixedProgress(P, K, L, taboo, size);
  }

  /**
   * The vertex-edge search as written: it lowers the score, or it changes
   * nothing and either no exchange improves or the best one is the sentinel
   * (vertex 0 with edge 0).
   */
  lemma SentinelStepOutcome(P: Problem, L: Labeling, found: bool, L1: Labeling, taboo: seq<int>, size: int)
    requires Defined(P, L) && size <= |taboo|
    requires (found, L1) == Step(P, ByVerticesAndEdges, L, taboo, size)
    ensures Descended(P, L, L1, taboo, size)
    ensures found ==> Score(P, L1) < Score(P, L)
    ensures !found ==> L1 == L && (!Improvable(P, ByVerticesAndEdges, L, taboo, size) ||
                                   Best(P, ByVerticesAndEdges, L, taboo, size).1 == (0, 0))
  {
    SentinelVerticesAndEdges(P, L, taboo, size);
    StepProgress(P, ByVerticesAndEdges, L, taboo, size);
    StepFixedProgress(P, ByVerticesAndEdges, L, taboo, size);
  }

  /** The same for the intended operator. */
  lemma StepFixedOutcome(P: Problem, K: Kind, L: Labeling, found: bool, L1: Labeling, taboo: seq<int>, size: int)
    requires Defined(P, L) && KindFits(K, P.adj) && size <= |taboo|
    requires (found, L1) == StepFixed(P, K, L, taboo, size)
    ensures Descended(P, L, L1, taboo, size)
    ensures found ==> Score(P, L1) < Score(P, L)
    ensures !found ==> L1 == L && !Improvable(P, K, L, taboo, size)
  {
    StepFixedProgress(P, K, L, taboo, size);
  }

  /**
   * The chain of `attemptSolveWithThreshold`: exchanges of two vertices,
   * then of two edges, then of a vertex and an edge, each tried only when the
   * previous one found nothing; when none helps, `newCloseGraph` exchanges
   * two random labels outside the taboo list. Either the score went down, or
   * the chain is stuck (no exchange of the three kinds improves the labeling,
   * except possibly the vertex-edge exchange the sentinel hides) and two free
   * labels at positions p and q were exchanged.
   */
  method ImproveOrPerturb(s: Solver, obj: Objective, taboo: seq<int>, size: int)
    returns (perturbed: bool, ghost p: nat, ghost q: nat)
    requires s.Valid() && Defined(s.Prob(obj), s.Labels()) && size <= |taboo| && TwoFree(s.Labels(), taboo, size)
    modifies s.g.vertices, s.g.edges
    ensures Defined(s.Prob(obj), s.Labels()) && Rearranged(old(s.Labels()), s.Labels(), taboo, size)
    ensures !perturbed ==> Score(s.Prob(obj), s.Labels()) < Score(s.Prob(obj), old(s.Labels()))
    ensures perturbed ==> Stuck(s.Prob(obj), old(s.Labels()), taboo, size)
    ensures perturbed ==> p != q && p < |EdgesFirst(old(s.Labels()))| && q < |EdgesFirst(old(s.Labels()))| &&
                          !Utils.Occurs(EdgesFirst(old(s.Labels()))[p], taboo, size) &&
                          !Utils.Occurs(EdgesFirst(old(s.Labels()))[q], taboo, size) &&
                          s.Labels() == CloseSwap(old(s.Labels()), p, q)
    ensures SkeletonOf(s.g) == old(SkeletonOf(s.g))
  {
    ghost var P, L0 := s.Prob(obj), s.Labels();
    var found := TryExchanges(s, obj, taboo, size);
    if found {
      return false, 0, 0;
    }
    p, q := s.NewCloseGraph(taboo, size);
    PerturbOutcome(P, L0, p, q, s.Labels(), taboo, size);
    perturbed := true;
  }

  /** The random exchange keeps the score defined and only rearranges free labels. */
  lemma PerturbOutcome(P: Problem, L0: Labeling, p: nat, q: nat, L1: Labeling, taboo: seq<int>, size: int)
    requires Defined(P, L0) && size <= |taboo| && p < |EdgesFirst(L0)| && q < |EdgesFirst(L0)|
    requires !Utils.Occurs(EdgesFirst(L0)[p], taboo, size) && !Utils.Occurs(EdgesFirst(L0)[q], taboo, size)
    requires L1 == CloseSwap(L0, p, q)
    ensures Defined(P, L1) && Rearranged(L0, L1, taboo, size)
  {
    CloseSwapProgress(L0, p, q, taboo, size);
    DefinedShape(P, L0, L1);
  }

  /**
   * Where the chain as written gives up: no exchange of two vertices or of
   * two edges improves L, and no exchange of a vertex and an edge does
   * either, unless the best one is vertex 0 with edge 0, which the sentinel
   * of `bestGraphByVerticesAndEdges` hides.
   */
  predicate Stuck(P: Problem, L: Labeling, taboo: seq<int>, size: int)
    requires Defined(P, L) && size <= |taboo|
  {
    !Improvable(P, ByVertex, L, taboo, size) && !Improvable(P, ByEdges, L, taboo, size) &&
    (!Improvable(P, ByVerticesAndEdges, L, taboo, size) || Best(P, ByVerticesAndEdges, L, taboo, size).1 == (0, 0))
  }

  /** Where the intended chain gives up: no exchange of any of the three kinds improves L. */
  predicate StuckFixed(P: Problem, L: Labeling, taboo: seq<int>, size: int)
    requires Defined(P, L) && size <= |taboo|
  {
    !Improvable(P, ByVertex, L, taboo, size) && !Improvable(P, ByEdges, L, taboo, size) &&
    !Improvable(P, ByVerticesAndEdges, L, taboo, size)
  }

  /** The labels are only rearranged, the taboo ones kept. */
  predicate Rearranged(L0: Labeling, L: Labeling, taboo: seq<int>, size: int)
    requires size <= |taboo|
  {
    multiset(Joined(L)) == multiset(Joined(L0)) && KeepsTaboo(L0, L, taboo, size)
  }

  lemma RearrangedTrans(L0: Labeling, L1: Labeling, L2: Labeling, taboo: seq<int>, size: int)
    requires size <= |taboo| && Rearranged(L0, L1, taboo, size) && Rearranged(L1, L2, taboo, size)
    ensures Rearranged(L0, L2, taboo, size)
  {
    KeepsTabooTrans(L0, L1, L2, taboo, size);
    assert multiset(Joined(L2)) == multiset(Joined(L1)) == multiset(Joined(L0));
  }

  /**
   * The three exchange searches of the chain, each run only when the
   * previous one found nothing; the last is `bestGraphByVerticesAndEdges`
   * as written, sentinel included.
   */
  method TryExchanges(s: Solver, obj: Objective, taboo: seq<int>, size: int) returns (found: bool)
    requires s.Valid() && Defined(s.Prob(obj), s.Labels()) && size <= |taboo|
    modifies s.g.vertices, s.g.edges
    ensures Descended(s.Prob(obj), old(s.Labels()), s.Labels(), taboo, size)
    ensures found ==> Score(s.Prob(obj), s.Labels()) < Score(s.Prob(obj), old(s.Labels()))
    ensures !found ==> s.Labels() == old(s.Labels()) && Stuck(s.Prob(obj), s.Labels(), taboo, size)
    ensures SkeletonOf(s.g) == old(SkeletonOf(s.g))
  {
    ghost var P, L0 := s.Prob(obj), s.Labels();
    found := s.BestGraphByVertex(obj, taboo, size);
    StepOutcome(P, ByVertex, L0, found, s.Labels(), taboo, size);
    if found {
      return;
    }
    found := s.BestGraphByEdges(obj, taboo, size);
    StepOutcome(P, ByEdges, L0, found, s.Labels(), taboo, size);
    if found {
      return;
    }
    found := s.BestGraphByVerticesAndEdges(obj, taboo, size);
    SentinelStepOutcome(P, L0, found, s.Labels(), taboo, size);
  }

  /**
   * The chain with the corrected vertex-edge search: when it finds nothing,
   * no exchange of any of the three kinds improves the labeling.
   */
  method TryExchangesFixed(s: Solver, obj: Objective, taboo: seq<int>, size: int) returns (found: bool)
    requires s.Valid() && Defined(s.Prob(obj), s.Labels()) && size <= |taboo|
    modifies s.g.vertices, s.g.edges
    ensures Descended(s.Prob(obj), old(s.Labels()), s.Labels(), taboo, size)
    ensures found ==> Score(s.Prob(obj), s.Labels()) < Score(s.Prob(obj), old(s.Labels()))
    ensures !found ==> s.Labels() == old(s.Labels()) && StuckFixed(s.Prob(obj), s.Labels(), taboo, size)
    ensures SkeletonOf(s.g) == old(SkeletonOf(s.g))
  {
    ghost var P, L0 := s.Prob(obj), s.Labels();
    found := s.BestGraphByVertex(obj, taboo, size);
    StepOutcome(P, ByVertex, L0, found, s.Labels(), taboo, size);
    if found {
      return;
    }
    found := s.BestGraphByEdges(obj, taboo, size);
    StepOutcome(P, ByEdges, L0, found, s.Labels(), taboo, size);
    if found {
      return;
    }
    found := s.BestGraphByVerticesAndEdgesFixed(obj, taboo, size);
    StepFixedOutcome(P, ByVerticesAndEdges, L0, found, s.Labels(), taboo, size);
  }

  /** What `createSolver(g)` reads off the graph: the incidence lists and the vertex names. */
  function GraphProblem(obj: Objective, g: Graph): Problem
    reads g, g.vertices, g.edges
    requires g.Valid()
  {
    var es := g.Edges();
    Problem(obj, seq(g.nbv, i requires 0 <= i => Incident(es, i)), Names(g.Vertices()))
  }

  /**
   * `attemptSolveWithThreshold`: a solver over g alternates the exchange
   * chain (or a random exchange) with the vertex descent until the score is
   * within the precision, and gives up, returning no solver, once more than
   * `timeout` rounds have run. Whatever the outcome, the labels of g are only
   * rearranged, the taboo ones kept; a solver is returned only when its score
   * is within the precision. The random exchange needs two labels outside
   * the taboo list and the descent a vertex, whenever the initial score is
   * above the precision.
   */
  method AttemptSolveWithThreshold(obj: Objective, g: Graph, precision: int, taboo: seq<int>, size: int)
    returns (r: Option<Solver>)
    requires g.Valid() && size <= |taboo| && Defined(GraphProblem(obj, g), g.Labels())
    requires Score(GraphProblem(obj, g), g.Labels()) <= Threshold(obj, g.nbv, precision) ||
             (g.nbv > 0 && TwoFree(g.Labels(), taboo, size))
    modifies g.vertices, g.edges
    ensures SkeletonOf(g) == old(SkeletonOf(g))
    ensures Defined(old(GraphProblem(obj, g)), g.Labels()) && Rearranged(old(g.Labels()), g.Labels(), taboo, size)
    ensures r.Some? ==> r.value.g == g && r.value.Valid() && r.value.Prob(obj) == old(GraphProblem(obj, g)) &&
                        Score(old(GraphProblem(obj, g)), g.Labels()) <= Threshold(obj, g.nbv, precision)
    ensures r.None? ==> Score(old(GraphProblem(obj, g)), g.Labels()) > Threshold(obj, g.nbv, precision)
  {
    ghost var P, L0, K0 := GraphProblem(obj, g), g.Labels(), SkeletonOf(g);
    var s := CreateSolver(obj, g);
    assert s.Prob(obj) == P && s.Labels() == L0;
    var solved := SolveLoop(s, obj, precision, taboo, size);
    ghost var L1 := g.Labels();
    assert s.Valid() && s.Prob(obj) == P && s.Labels() == L1 && SkeletonOf(g) == K0;
    assert Defined(P, L1) && Rearranged(L0, L1, taboo, size);
    if !solved {
      assert Score(P, L1) > Threshold(obj, g.nbv, precision);
      return None;
    }
    assert Score(P, L1) <= Threshold(obj, g.nbv, precision);
    return Some(s);
  }

  /** `createSolver(g)`, whose problem is the one g describes. */
  method CreateSolver(obj: Objective, g: Graph) returns (s: Solver)
    requires g.Valid()
    ensures fresh(s) && s.g == g && s.Valid() && s.Prob(obj) == GraphProblem(obj, g)
  {
    s := new Solver(g);
    assert s.tab == GraphProblem(obj, g).adj;
  }

  /** The loop of `attemptSolveWithThreshold` over a solver already built. */
  method SolveLoop(s: Solver, obj: Objective, precision: int, taboo: seq<int>, size: int) returns (solved: bool)
    requires s.Valid() && size <= |taboo| && Defined(s.Prob(obj), s.Labels())
    requires Score(s.Prob(obj), s.Labels()) <= Threshold(obj, s.g.nbv, precision) ||
             (s.g.nbv > 0 && TwoFree(s.Labels(), taboo, size))
    modifies s.g.vertices, s.g.edges
    ensures Defined(s.Prob(obj), s.Labels()) && Rearranged(old(s.Labels()), s.Labels(), taboo, size)
    ensures solved ==> Score(s.Prob(obj), s.Labels()) <= Threshold(obj, s.g.nbv, precision)
    ensures !solved ==> Score(s.Prob(obj), s.Labels()) > Threshold(obj, s.g.nbv, precision)
    ensures SkeletonOf(s.g) == old(SkeletonOf(s.g))
  {
    ghost var P, L0 := s.Prob(obj), s.Labels();
    var thr := Threshold(obj, s.g.nbv, precision);
    RearrangedRefl(L0, taboo, size);
    var i := 0;
    var magicValue := s.Evaluate(obj);
    ghost var K0 := SkeletonOf(s.g);
    while magicValue > thr
      invariant Defined(P, s.Labels()) && magicValue == Score(P, s.Labels()) && SkeletonOf(s.g) == K0
      invariant Rearranged(L0, s.Labels(), taboo, size)
      invariant i == 0 ==> s.Labels() == L0
      invariant i > 0 ==> Score(P, L0) > thr
      invariant 0 <= i <= Timeout + 1
      decreases Timeout + 1 - i
    {
      if i > Timeout {
        return false;
      }
      SolveRound(s, obj, precision, taboo, size, L0);
      i := i + 1;
      magicValue := s.Evaluate(obj);
    }
    return true;
  }

  /** One round of `attemptSolveWithThreshold`, from labels that still rearrange L0. */
  method SolveRound(s: Solver, obj: Objective, precision: int, taboo: seq<int>, size: int, ghost L0: Labeling)
    requires s.Valid() && Defined(s.Prob(obj), s.Labels()) && size <= |taboo|
    requires s.g.nbv > 0 && TwoFree(L0, taboo, size) && Rearranged(L0, s.Labels(), taboo, size)
    modifies s.g.vertices, s.g.edges
    ensures Defined(s.Prob(obj), s.Labels()) && Rearranged(L0, s.Labels(), taboo, size)
    ensures SkeletonOf(s.g) == old(SkeletonOf(s.g))
  {
    ghost var L := s.Labels();
    TwoFreeStays(L0, L, taboo, size);
    var perturbed, p, q := ImproveOrPerturb(s, obj, taboo, size);
    RearrangedTrans(L0, L, s.Labels(), taboo, size);
    ghost var L1 := s.Labels();
    AttemptSolveVertexAndIssuedEdges(s, obj, precision, taboo, size);
    RearrangedTrans(L0, L1, s.Labels(), taboo, size);
  }

  lemma RearrangedRefl(L: Labeling, taboo: seq<int>, size: int)
    requires size <= |taboo|
    ensures Rearranged(L, L, taboo, size)
  {
  }
}
