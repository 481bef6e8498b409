# Vertex-magic and vertex-antimagic labeling search, in Dafny

This project models the labeling search engine of a C program. The program
looks for total labelings of a graph: each vertex and each edge gets one of
the labels 1..nbv+nbe. The *weight* of a vertex is its own label plus the
labels of its incident edges. A labeling is

- *vertex-magic (VMT)* when all weights equal a constant k;
- *(a, d)-vertex-antimagic (VAT)* when the weights, sorted in ascending
  order, are a, a+d, a+2d, ...;
- a *magic rectangle* when the graph is the complete bipartite "rectangle"
  graph of a height x width table, every row vertex has weight u, and every
  column vertex has weight v.

The search keeps the skeleton of the graph (names, endpoints and counts)
fixed. It only moves labels around. It works as follows:

1. A score function measures the distance to the goal. There are seven
   "methods", and a score of 0 means the goal is reached.
2. Four best-improvement exchange operators try label exchanges:
   - two vertices;
   - two edges;
   - a vertex and an edge;
   - a vertex and its incident edges.

   Labels on a taboo list never move.
3. When every operator is stuck, a random exchange of two free labels
   perturbs the labeling, or an exchange of two labels that differ by one.
4. A driver alternates these steps until the score is within the requested
   precision or a round budget runs out.

Around the engine, the model covers:

- the graph container, with its capacities, lookups, incidence lists and
  edge deletion;
- the relabelling helpers;
- the generators of complete graphs, antiprisms and magic antiprisms;
- the rectangle structure and its table;
- the feasibility bounds on the magic constant;
- the public `solve*` entry points;
- the two word- and edge-lookup helpers of the graph editor.

## How the source is represented

| source | model |
|---|---|
| `Graph` (Graph.c) | class `Graphs.Graph` with arrays `vertices` and `edges` of capacity `nbvMax` and `nbeMax`, and counts `nbv` and `nbe` |
| `Vertex`, `Edge` | datatypes `Vertex(name, lab)` and `Edge(name, lab, u, v)` |
| `Solver` (Solver.c) | class `Solving.Solver`: the graph, the incidence lists `tab` built once by the constructor, and the vertex names |
| the labels of a graph | the value `Labeling(v, e)` (vertex labels, then edge labels) |
| each score method | a pure function in `Scores` that the `Solver` method is proved to compute; a lemma in `Scores` says when the score is 0 |
| each scan of an operator | a fold (`Moves.Scan`) over the candidates in the source's loop order; `Moves.Best` and `Moves.Step` describe the chosen move |
| `Rectangle` (Rectangle.c) | class `Rectangles.Rectangle` with a two-dimensional `table` and the graph |
| `parseWord`, `getEdgeByVertex` (Editor.c) | methods over `array<char>` and the graph |

Other choices in the model:

- **Endpoints.** Edge endpoints are vertex indices. The C edges keep
  copies of their end vertices and compare them by name pointer.
- **Randomness.** Each `rand()` becomes a nondeterministic choice of any
  index the C expression could yield.
- **Ghost outputs.** Some `ensures` clauses name the chosen index as a
  ghost out-parameter.
- **qsort.** `qsort` is modelled by its result, `Sorting.SortAsc` or
  `Sorting.SortDesc`. The sorted permutation of a sequence is unique, so
  the results agree.
- **Floats.** The float scores are modelled by their exact values on
  unbounded integers; C's `float` rounding is not modelled (see Left out).
  Method 2, the variance of the weights, is scaled by nbv² to the integer
  sum of (nbv·w_i - S)². Its precision threshold is scaled the same way (see
  `Scores.Threshold`). Both are zero exactly when the weights are all equal.
- **Integer division.** C's truncating division (`moyenne = res / (nb-1)`
  and the constants of `solveAntiMagicRect`) is `Utils.CDiv`. Dafny's `/`
  is Euclidean, so the two differ on negative operands.

## Model

| member | source | states |
|---|---|---|
| Utils.Cmp | Utils.c:7-9 | The result is negative, zero or positive exactly when a < b, a == b or a > b. |
| Utils.CmpInv | Utils.c:11-13 | The reverse order: negative exactly when a > b. It equals cmp(b, a) and -cmp(a, b). |
| Utils.PermuteTab | Utils.c:15-19 | The array afterwards is the old contents with entries i and j exchanged. |
| Utils.PermuteTabTwice | Utils.c:15-19 | Exchanging the same two entries twice restores the array, and an exchange keeps the multiset of entries. |
| Utils.MaxInTab | Utils.c:21-27 | The result is at least 1 and exceeds each of the first `size` entries. It is 1, or one more than one of those entries. |
| Utils.E10 | Utils.c:58-64 | 1 for e <= 0, and 10^e otherwise. |
| Utils.Fact | Utils.c:66-72 | The factorial of n, as a real; 1 for n <= 1. |
| Utils.Binom | Utils.c:74-80 | The product of n-k+1..n divided by k!; for k = 2 this is n(n-1)/2. |
| Utils.BinomTwo | Utils.c:74-80 | For k = 2 the real quotient equals the integer n(n-1)/2. |
| Utils.TabEquals | Utils.c:82-88 | True exactly when the sizes agree and the first t1 entries are equal. |
| Utils.InTab | Utils.c:97-102 | True exactly when elem is among the first `size` entries; false for size <= 0. |
| Utils.CDiv | Solver.c:240 | C's division: the remainder has the sign of the dividend and is smaller than the divisor in size. |
| Sorting.SortAsc | Solver.c:144 | `qsort` with `cmp`: sorted ascending and a permutation of the input. |
| Sorting.SortDesc | Solver.c:143 | `qsort` with `cmp_inv`: sorted descending and a permutation of the input. |
| Sorting.SortedUnique | Graph.c:603-604 | Two ascending sequences with the same multiset are equal, so any correct sort gives the same result. |
| Sorting.SortAscUnique | Graph.c:603-604 | Any ascending permutation of s is SortAsc(s). |
| Sorting.SortAscSame | Graph.c:603-613 | The ascending sorts of two sequences are equal exactly when their multisets are equal. |
| Sorting.SortDescAsReverse | Solver.c:143 | Any descending permutation of s is SortDesc(s). |
| Sorting.Qsort | Graph.c:603-604 | The result is sorted ascending and a permutation of the input. |
| Sorting.QsortDesc | Solver.c:143 | The result is sorted descending and a permutation of the input. |
| Decimal.NatToString | Graph.c:522 | `sprintf("%d")` of n >= 0 is a non-empty string of digits. |
| Decimal.DigitsOfNatToString | Graph.c:522 | Reading the numeral back gives n. |
| Decimal.NatToStringInjective | Graph.c:522 | Different numbers give different numerals, so names "e<k>" with different k are distinct. |
| Decimal.ScanInt | Rectangle.c:66-67 | `%d` of sscanf consumes at least one character when it succeeds, and no more than the string holds. |
| Decimal.ScanNatToString | Rectangle.c:66-67 | `%d` reads back what `%d` wrote and stops at the first non-digit. |
| Decimal.ScanNegated | Rectangle.c:66-67 | `%d` reads '-' followed by a numeral as the negated number. |
| Editor.WordEnd | Editor.c:533-545 | The word length is at most the limit and the string length, and the word holds no separator. Short of the limit and the string end, the next character is a separator. |
| Editor.WordEndJoined | Editor.c:533-545 | A separator-free word followed by a separator is cut back whole. |
| Editor.WordEndAtLimit | Editor.c:533-545 | A separator-free word as long as the limit is cut at the limit, whatever follows it. |
| Editor.ParseWord | Editor.c:533-545 | Copies the word starting at `start` into `word`, ends it with '\0', and returns its length plus 1. Later entries of `word` are untouched. |
| Editor.SeparatorEnds | Editor.c:537-541 | A separator-free prefix that ends at a separator, or at the limit, is the word. |
| Editor.GetEdgeByVertex | Editor.c:547-555 | Returns the first listed edge with an endpoint of the given name, or None when no listed edge has one. |
| Editor.IncidentEdgeByName | Editor.c:547-555 | Over the incident list of x, no edge is found exactly when no edge touching x has an endpoint of that name. |
| Graphs.Incident | Graph.c:323-341 | The incident list of x holds exactly the indices of the edges touching x, in increasing order. |
| Graphs.Renamed | Graph.c:126-135 | Entry i keeps its label and endpoints and is renamed "e<i>". |
| Graphs.RenamedDistinct | Graph.c:126-135 | After renaming, no two edges share a name. |
| Graphs.Graph.LabelsOfArrays | Graph.c:29-42 | The labeling of the graph is read off the first nbv vertices and the first nbe edges. |
| Graphs.Graph.constructor | Graph.c:29-42 | `createGraph`: an empty graph with the given name, room for nbvMax vertices and nbvMax(nbvMax-1)/2 edges. |
| Graphs.Graph.AddVertex | Graph.c:74-87 | When there is room, appends the vertex and reports success. When the graph is full, it changes nothing and reports failure. |
| Graphs.Graph.AddEdge | Graph.c:89-103 | The same for edges, against nbeMax. |
| Graphs.Graph.GetVertex | Graph.c:44-51 | Returns the first vertex with the name, or None when none of the nbv vertices has it. |
| Graphs.Graph.GetEdge | Graph.c:53-58 | Returns the first edge with the name, or None when none of the nbe edges has it. |
| Graphs.Graph.GetIssuedEdges | Graph.c:323-341 | Returns exactly the increasing list of indices of the edges touching x. |
| Graphs.Graph.CopyWithout | Graph.c:126-135 | The new buffer holds the other edges in order, each renamed after its new position. |
| Graphs.Graph.DeleteEdge | Graph.c:119-138 | Out of range, nothing changes. Otherwise the edge is removed, the others keep their order and are renamed "e<i>", and the capacity is kept. |
| Graphs.Graph.DeleteEdgeAsWritten | Graph.c:119-138 | As written: the removal is correct, but the new buffer has room for only nbe edges, so the graph breaks its capacity invariant (see Findings). |
| Labelings.SkeletonKept | Graph.c:253-321 | When only labels changed in place, the skeleton (names, endpoints and counts) is unchanged. |
| Labelings.TakeFromPool | Graph.c:263-269 | Drawing entry `curr` from the pool of unused labels returns that label. The drawn label plus the shortened pool is the old pool. |
| Labelings.DrawVertices | Graph.c:263-269 | Each vertex gets a label drawn from the pool; what was drawn plus what remains is the original pool. |
| Labelings.LabelEdges | Graph.c:271-279 | The edges receive the remaining pool, so vertex and edge labels together are the original pool. |
| Labelings.RelabelGraph | Graph.c:253-280 | `relabelGraph`: afterwards the labels of the vertices and edges are a permutation of 1..nbv+nbe, and nothing but labels changed. |
| Labelings.FindInPool | Graph.c:292-302 | Finds the first pool position holding the wanted label. |
| Labelings.PlaceVertices | Graph.c:292-302 | The first `taille` vertices receive the given labels. Each placed label leaves the pool by a swap with its last entry, so the pool keeps avoiding the placed labels; for distinct labels, placed labels plus pool are 1..n. |
| Labelings.PlaceVertex | Graph.c:294-301 | One vertex: the wanted label is found in the whole array (past the pool when it was already placed), the vertex takes it, and the pool shrinks by one with the same guarantees. |
| Labelings.RelabelEdgesGraph | Graph.c:281-321 | `relabelEdgesGraph`: the first `taille` vertices carry the given labels, repeated ones included. Every later label is in 1..nbv+nbe, distinct, and not one of the given labels. When the given labels are distinct, all labels are a permutation of 1..nbv+nbe. Only labels change. |
| Labelings.SameLabeling | Graph.c:590-617 | True exactly when the two graphs have as many vertices and the same multiset of vertex labels. |
| Generators.Run | Graph.c:623-626 | The count vertices named prefix+"<base+i>" with consecutive labels. |
| Generators.AddRun | Graph.c:623-626 | Appends that run of vertices to the graph. |
| Generators.Row | Graph.c:629-633 | The edges from vertex i to every later vertex, in order, with their labels. |
| Generators.RowsLength | Graph.c:628-634 | The first m rows hold m(2·size-m-1)/2 edges. |
| Generators.CompleteCount | Graph.c:628-634 | The complete graph has size(size-1)/2 edges, which fits the capacity createGraph gives it. |
| Generators.CompletePairs | Graph.c:628-634 | Every edge joins i < j, no pair occurs twice, and every pair i < j occurs. |
| Generators.CompleteLabels | Graph.c:619-636 | Vertex labels then edge labels are exactly 1..size+size(size-1)/2. |
| Generators.CompleteEdgeLabels | Graph.c:631 | Edge k has label size+k+1. |
| Generators.CompleteNames | Graph.c:630 | Edge k is named "e<k>". |
| Generators.NamedDistinct | Graph.c:630 | Edges named "e<k>" in order have pairwise different names. |
| Generators.CreateCompleteGraph | Graph.c:619-636 | The graph "CompleteGraph" has vertices v0..v(size-1) labelled 1..size and exactly the complete edge list. |
| Generators.AddCompleteEdges | Graph.c:628-634 | Adds all rows of edges. |
| Generators.AddRow | Graph.c:629-633 | Adds the edges of row i and advances the label counter by their number. |
| Antiprisms.AntiprismNames | Graph.c:520-553 | With the last edge named "e<4n-1>", the edges are named e0..e(4n-1): no two alike. |
| Antiprisms.AntiprismDuplicateName | Graph.c:551-553 | As written, the last edge takes the name of edge 3n-1 (see Findings). |
| Antiprisms.AntiprismLabels | Graph.c:504-556 | Vertex labels then edge labels are exactly 1..6n. |
| Antiprisms.VertexLabels | Graph.c:508-518 | The 2n vertices x1..xn, y1..yn carry 1..2n. |
| Antiprisms.EdgeLabels | Graph.c:520-553 | Edge k carries 2n+k+1. |
| Antiprisms.BuildAntiprism | Graph.c:504-556 | Builds the vertices and the 4n edges (inner cycle, outer cycle, links, cross links). Edges past the capacity are refused, and for n >= 3 all fit. |
| Antiprisms.CreateAntiprismAsWritten | Graph.c:504-556 | The graph as the source builds it, with the duplicated last name. |
| Antiprisms.CreateAntiprism | Graph.c:504-556 | The corrected antiprism: the same graph with the last edge named "e<4n-1>". |
| Antiprisms.AntiprismRoom | Graph.c:505 | For n >= 3 the 4n edges fit the capacity 2n(2n-1)/2. |
| Antiprisms.AntiprismIncident | Graph.c:520-553 | Every vertex of the antiprism has exactly four incident edges, listed in closed form. |
| Antiprisms.VmtWeight | Graph.c:558-588 | For odd n >= 3, every vertex weight under the oddAntiprismVMT labels is 16n+3. |
| Antiprisms.OddAntiprismMagic | Graph.c:558-588 | For odd n >= 3, that labeling is vertex-magic with constant 16n+3. |
| Antiprisms.VmtPermutation | Graph.c:558-588 | For odd n >= 3, the labels used are exactly 1..6n. |
| Antiprisms.LabelVertices | Graph.c:560-562 | Vertex i gets label 2i+1. |
| Antiprisms.LabelInnerCycle | Graph.c:563-567 | The inner cycle edges get 4n+1, 4n+3, ... |
| Antiprisms.LabelOuterEven | Graph.c:568-572 | The even outer edges get 2n+2, 2n+6, ..., and the counter ends past them. |
| Antiprisms.LabelOuterOdd | Graph.c:573-576 | The odd outer edges continue the counter in steps of 4. |
| Antiprisms.LabelLinks | Graph.c:577-581 | The links get 6n, 6n-4, ..., and the counter ends at 2n. |
| Antiprisms.LabelCrossLinks | Graph.c:582-585 | The cross links get 2n, 2n-2, ... |
| Antiprisms.LabelEdges | Graph.c:563-585 | All 4n edges get the closed-form labels. |
| Antiprisms.OddAntiprismVMT | Graph.c:558-588 | `oddAntiprismVMT`: the antiprism as `createAntiprism` builds it, duplicated last name included, with those labels. For odd n, all weights are 16n+3 and the labels are 1..6n. |
| Rectangles.ScanSideName | Rectangle.c:66-67 | The name "v<side>,<i>" scans back to (side, i). |
| Rectangles.Cell | Rectangle.c:54-98 | The corrected cell of an edge: defined only when the as-written check passes and both indices are non-negative. It is then inside the table. |
| Rectangles.NegativeIndexAccepted | Rectangle.c:69-94 | As written, a row name with index -2 or lower passes the checks and yields a negative row (see Findings). |
| Rectangles.ScanMinusTwo | Rectangle.c:66-67 | "v0,-2" scans as (0, -2). |
| Rectangles.RowColumnCell | Rectangle.c:77-95 | A row vertex i and a column vertex j inside the table give cell (i, j). |
| Rectangles.RectEdgeCell | Rectangle.c:33-44 | Edge k of a fresh rectangle lies in cell (k / width, k % width), whose table entry is its label. |
| Rectangles.RectCapacity | Rectangle.c:18-44 | height·width edges fit the capacity of a graph on height+width vertices. |
| Rectangles.UpdateAfterCreate | Rectangle.c:33-98 | On a fresh rectangle every edge has a cell, and updating the table leaves it as built. |
| Rectangles.CreateRectangle | Rectangle.c:11-52 | Graph "RECTANGLE_<name>" with row vertices v0,i, column vertices v1,j, and edge e<k> labelled k+1 joining the row and column of cell k. The table is numbered 1..height·width in row-major order. |
| Rectangles.BuildGraph | Rectangle.c:11-44 | The graph and the table before they are packed into a Rectangle. |
| Rectangles.AddSide | Rectangle.c:19-31 | Appends the vertices of one side, labelled 0. |
| Rectangles.AddCells | Rectangle.c:33-44 | Adds all cell edges and numbers the table. |
| Rectangles.AddCellRow | Rectangle.c:35-43 | Adds row i's edges and numbers row i. Other rows are untouched. |
| Rectangles.Rectangle.GetVal | Rectangle.c:111-117 | table[i][j] inside the table. Out of bounds it fails (None) where the source exits. |
| Rectangles.Rectangle.GetLine | Rectangle.c:119-124 | A fresh copy of row i. |
| Rectangles.Rectangle.GetColumn | Rectangle.c:126-132 | A fresh array holding column j. |
| Rectangles.Rectangle.WriteEdge | Rectangle.c:58-95 | One iteration of `updateRectangle`: edge k's label is written into its cell when it has one, and nothing is written otherwise. |
| Rectangles.Rectangle.Store | Rectangle.c:85-94 | One table entry is set and the rest kept. |
| Rectangles.Rectangle.UpdateRectangle | Rectangle.c:54-98 | Succeeds exactly when every edge joins a row vertex to a column vertex inside the table. The table is then the old table with each edge's label written into its cell, in edge order. |
| Scores.Ordered | Solver.c:143-144 | The weights are sorted by the sign of the step. The result is a permutation of the weights. |
| Scores.AbsDeviationZero | Solver.c:145-148 | The sum of abs(w_i - k - i·d) is 0 exactly when w_i = k + i·d for every i. |
| Scores.MagicFormulaZero | Solver.c:128-151 | `magicFormula` is 0 exactly when the ordered weights are k, k+d, k+2d, ... |
| Scores.MagicFormulaDetectsMagic | Solver.c:128-151 | With step 0, the score is 0 exactly when every weight equals k. |
| Scores.MagicFormulaDetectsAntimagic | Solver.c:128-151 | With step d > 0, the score is 0 exactly when the weights are (a, d)-antimagic. |
| Scores.GapDeviationZero | Solver.c:207-209 | The sum of squared gap deviations is 0 exactly when every gap equals d. |
| Scores.KnownStepZero | Solver.c:187-211 | `antimagicFormulaKnownStep` is 0 exactly when the ordered weights have gaps d. For d > 0 that means (min weight, d)-antimagic. |
| Scores.MeanGapOfProgression | Solver.c:237-240 | For a progression of step d, the truncated mean gap is d. |
| Scores.UnknownConstZero | Solver.c:218-247 | `antimagicFormulaUnknownConst` is 0 exactly when the sorted weights form an arithmetic progression. |
| Scores.MeanGapDeviationZero | Solver.c:237-246 | The gaps deviate from the mean gap by 0 exactly when all gaps equal the first one. |
| Scores.ProgDeviationZero | Solver.c:271-274 | The sum of squared deviations from a + i·d is 0 exactly when every term is on the progression. |
| Scores.KnownConstZero | Solver.c:248-276 | `antimagicFormulaKnownConst` is 0 exactly when the weights are (a, d)-antimagic with d the truncated mean gap, and no other step d can make them (a, d)-antimagic. |
| Scores.AdjacentEqualZero | Solver.c:295-297 | On a sorted sequence, the count of equal neighbours is 0 exactly when all entries are distinct. |
| Scores.AllDifferentZero | Solver.c:277-299 | `allDifferentFormula` is 0 exactly when all weights are distinct. |
| Scores.AntimagicConstCorrect | Solver.c:307-331 | `getAntimagicConst` returns the (a, d) of the weights when they are antimagic. A non-(0,0) result is a correct (a, d). |
| Scores.AntimagicStepCorrect | Solver.c:339-361 | `IsAntimagicStep` returns a when the weights are (a, d)-antimagic. A non-zero result is such an a. |
| Scores.ScaledSquaresZero | Solver.c:176-178 | The sum of (n·w_i - S)² is 0 exactly when n·w_i = S for all i. |
| Scores.VarianceZero | Solver.c:158-180 | The scaled variance is 0 exactly when all weights are equal. |
| Scores.OfSideAllEqual | Solver.c:407-448 | Every weight on one side equals c exactly when every vertex of that side has weight c. |
| Scores.RectangleFormulaZero | Solver.c:407-448 | With zero steps, `magicFormulaRectangle` is 0 exactly when rows weigh u and columns weigh v. |
| Solving.SwapVertexLabels | Solver.c:86-119 | Exchanges two vertex labels. Only labels change. |
| Solving.SwapEdgeLabels | Solver.c:86-119 | Exchanges two edge labels. Only labels change. |
| Solving.SwapVertexEdgeLabels | Solver.c:86-119 | Exchanges a vertex label with an edge label. Only labels change. |
| Solving.ChecksumLabel | Solver.c:15-31 | True exactly when twice the sum of all labels is (nbv+nbe)(nbv+nbe+1). |
| Solving.ChecksumOfPermutation | Solver.c:15-31 | A permutation of 1..n passes the checksum. |
| Solving.ChecksumNotSufficient | Solver.c:15-31 | The converse fails: [2, 2, 2] passes the checksum without being a permutation of 1..3. |
| Solving.Arrange | Solver.c:143-144 | The weights ordered by the sign of the step. |
| Solving.AbsDeviations | Solver.c:145-148 | The loop computes the sum of absolute deviations. |
| Solving.GapSquares | Solver.c:207-209 | The loop computes the sum of squared gap deviations. |
| Solving.MeanOfGaps | Solver.c:237-240 | For any number of weights other than one, the loop computes the truncated mean gap. With one weight C divides 0 by 0 and converts the result to int, so the value is left arbitrary. |
| Solving.ProgSquares | Solver.c:271-274 | The loop computes the sum of squared deviations from a + i·d. |
| Solving.CountAdjacentEqual | Solver.c:295-297 | The loop counts equal neighbours. |
| Solving.ScaledSquareSum | Solver.c:176-178 | The loop computes the scaled squared deviations. |
| Solving.SplitSides | Solver.c:407-448 | Splits the weights into the "v0" (row) side and the "v1" (column) side. |
| Solving.AllGaps | Solver.c:339-361 | True exactly when every gap equals d. |
| Solving.ConstAndStep | Solver.c:307-331 | Returns the progression constant and step of the weights. |
| Solving.Solver.constructor | Solver.c:33-42 | `createSolver`: tab[i] is the incident list of vertex i, and names are the vertex names. |
| Solving.Solver.ComputeWeights | Solver.c:135-141 | Weight i is vertex i's label plus the labels of its incident edges. |
| Solving.Solver.ComputeEdgeWeights | Solver.c:407-448 | The rectangle weights, over edges only. |
| Solving.Solver.MagicFormula | Solver.c:128-151 | The score of method 0 on the current labels. |
| Solving.Solver.MagicFormulaUnknownConst | Solver.c:158-180 | The score of method 2, scaled by nbv². |
| Solving.Solver.AntimagicFormulaKnownStep | Solver.c:187-211 | The score of method 3. |
| Solving.Solver.AntimagicFormulaUnknownConst | Solver.c:218-247 | The score of method 4, for every graph. With fewer than two vertices it is 0. |
| Solving.Solver.AntimagicFormulaKnownConst | Solver.c:248-276 | The score of method 5, for every graph. With one vertex it is (w_0 - a)², whatever `moyenne` is. |
| Solving.Solver.AllDifferentFormula | Solver.c:277-299 | The score of method 6. |
| Solving.Solver.MagicFormulaRectangle | Solver.c:407-448 | The score of method 1. |
| Solving.Solver.Evaluate | Solver.c:1073-1087 | The score of the chosen method on the current labels. |
| Solving.Solver.IsMagic | Solver.c:456-467 | True exactly when every weight equals k. |
| Solving.Solver.IsMagicUnknownConst | Solver.c:474-487 | True exactly when all weights are equal. |
| Solving.Solver.IsMagicRect | Solver.c:1166-1178 | True exactly when every "v0" vertex weighs u and every "v1" vertex weighs v. |
| Solving.Solver.IsAntimagic | Solver.c:370-396 | True exactly when the sorted weights are a, a+d, ... |
| Solving.Solver.IsAntimagicStep | Solver.c:339-361 | Computes `AntimagicStep` of the current weights: by Scores.AntimagicStepCorrect, a non-zero result is the constant a of an (a, d)-antimagic labeling. |
| Solving.Solver.GetAntimagicConst | Solver.c:307-331 | Computes `AntimagicConst` of the current weights: by Scores.AntimagicConstCorrect, a result other than (0, 0) is a correct (a, d). |
| Solving.Solver.PermuteIssuedEdges | Solver.c:86-119 | Exchanges positions a and b of vertex x's neighbourhood (0 = x itself, p > 0 = its (p-1)-th incident edge). |
| Solving.Solver.Move | Solver.c:86-119 | Applies an operator's exchange to the graph. |
| Solving.Solver.Try | Solver.c:505-571 | A trial move: the score after the exchange. The graph is restored afterwards. |
| Solving.Solver.IsTaboo | Solver.c:505-571 | The exchange touches a label on the taboo list. |
| Solving.Solver.ScanTri | Solver.c:505-571 | The scan over pairs i < j gives exactly the fold `Best` in source order. The labels are unchanged. |
| Solving.Solver.ScanRect | Solver.c:743-801 | The scan over every (vertex, edge) pair gives exactly `Best`. The labels are unchanged. |
| Solving.Solver.BestGraphByVertex | Solver.c:505-571 | Applies the best improving non-taboo exchange of two vertices, or none. Only labels change. |
| Solving.Solver.BestGraphByEdges | Solver.c:668-725 | The same for two edges. |
| Solving.Solver.BestGraphByVertexAndIssuedEdges | Solver.c:590-650 | The same within vertex x's neighbourhood. |
| Solving.Solver.BestGraphByVerticesAndEdges | Solver.c:743-801 | As written, with the (0, 0) sentinel (see Findings). |
| Solving.Solver.BestGraphByVerticesAndEdgesFixed | Solver.c:743-801 | The corrected vertex-edge exchange: it moves exactly when some non-taboo exchange improves the score. |
| Solving.Solver.NewCloseGraph | Solver.c:892-944 | Exchanges two different non-taboo labels at positions p and q (edges first, then vertices). |
| Solving.Solver.CloseExchange | Solver.c:919-943 | The four branches together exchange entries numv1 and numv2 of the edges-then-vertices sequence. |
| Solving.Solver.FindNearVertex | Solver.c:965-971 | The first vertex whose label differs from x by exactly one, or None. |
| Solving.Solver.FindNearEdge | Solver.c:972-978 | The first edge whose label differs from x by exactly one, or None. |
| Solving.Solver.SwapWithNear | Solver.c:962-996 | The chosen element exchanges its label with the first neighbour label (vertices first). Otherwise nothing changes. |
| Solving.Solver.FindNearBelow | Solver.c:1001-1007 | The first earlier edge whose label differs by one from edge i's label. |
| Solving.Solver.FindNearEdges | Solver.c:999-1008 | The first pair j < i, in the source's scan order, of edge labels one apart, or None when there is no such pair. |
| Solving.Solver.SwapNearEdges | Solver.c:998-1009 | Exchanges that first pair, or changes nothing when there is none. |
| Solving.Solver.NewVeryCloseGraph | Solver.c:952-1011 | `newVeryCloseGraph` in both modes: a drawn element swaps with its first neighbour label, or the first adjacent pair of edge labels is swapped. |
| Solving.Solver.SwapDrawnNear | Solver.c:959-997 | The random mode, for any drawn element. |
| Moves.ApplyIsExchange | Solver.c:86-119 | Every operator move exchanges two entries of the joined vertex-then-edge labels. |
| Moves.ApplyTwice | Solver.c:86-119 | Applying the same move twice restores the labels, which is how each trial is undone. |
| Moves.ApplyPermutes | Solver.c:86-119 | A move keeps the multiset of labels. |
| Moves.ApplyKeepsTaboo | Solver.c:505-818 | A non-taboo move leaves every taboo label in place. |
| Moves.TriKeysComplete | Solver.c:505-571 | The upper-triangular scan visits every pair i < j. |
| Moves.RectKeysComplete | Solver.c:743-801 | The cross-product scan visits every (vertex, edge) pair. |
| Moves.KeysComplete | Solver.c:505-818 | Each operator's scan visits every valid candidate. |
| Moves.ScanSpec | Solver.c:505-818 | The fold returns a score at most the initial one and no larger than any non-skipped candidate's. When it improves, it returns the first candidate reaching that score. |
| Moves.BestMinimal | Solver.c:505-818 | No non-taboo candidate scores below the chosen best. |
| Moves.BestFound | Solver.c:505-818 | When the best improves on the current score, it is a real non-taboo candidate that scores exactly that. |
| Moves.StepFixedImproves | Solver.c:505-818 | A successful step lowers the score and keeps the label multiset. It applies a non-taboo candidate that is minimal among all. |
| Moves.StepFixedStays | Solver.c:505-818 | A failed step leaves the labels, and no candidate improves on them. |
| Moves.StepFixedFinds | Solver.c:505-818 | A step succeeds exactly when some non-taboo candidate improves the score. |
| Moves.SentinelHarmless | Solver.c:505-725 | For the three other operators the (0, 0) test is harmless, because (0, 0) is never a candidate. |
| Moves.SentinelVerticesAndEdges | Solver.c:790-794 | The as-written vertex-edge step differs from the corrected one exactly when the best candidate is (0, 0) and improves. |
| Moves.SentinelCounterexample | Solver.c:790-794 | On a two-vertex, one-edge graph, an improving exchange exists, but the as-written step reports none. |
| Moves.CounterexampleBest | Solver.c:743-801 | In that example the best candidate is (0, 0), with score 1 against 3. |
| Moves.StepProgress | Solver.c:505-818 | Any step keeps the label multiset and the taboo labels, and lowers the score when it reports success. |
| Moves.StepFixedProgress | Solver.c:505-818 | The same for the corrected step. A failure means no improving exchange exists. |
| Moves.IssuedStepProgress | Solver.c:590-650 | The same for the neighbourhood operator of vertex x. |
| Moves.StepVertexEdge | Solver.c:743-801 | What the as-written and the corrected vertex-edge step apply, in terms of the best candidate. |
| Perturb.CloseSwapIsExchange | Solver.c:919-943 | `newCloseGraph`'s exchange is a swap of two entries of the edges-then-vertices labels. |
| Perturb.CloseSwapPermutes | Solver.c:919-943 | It keeps the label multiset, and doing it twice restores the labels. |
| Perturb.CloseSwapKeepsTaboo | Solver.c:900-917 | With both drawn labels outside the taboo list, no taboo label moves. |
| Perturb.CloseSwapProgress | Solver.c:892-944 | The random exchange keeps the label multiset and the taboo labels. |
| Perturb.TwoFreeStays | Solver.c:900-917 | Rearranging labels keeps two free (non-taboo) positions available, so the draw loops can end. |
| Perturb.FirstNear | Solver.c:965-978 | The first index whose label differs from x by one, or None when there is none. |
| Perturb.VeryCloseSpec | Solver.c:959-997 | Random mode: either the drawn element swapped with a label one apart, or no such label exists and nothing changed. |
| Perturb.NearBelowFound | Solver.c:998-1008 | The deterministic mode finds the first one-apart edge pair in scan order. |
| Bounds.CeilDiv | Solver.c:1185 | The least r with a <= r·n. |
| Bounds.FloorDiv | Solver.c:1194 | The greatest r with r·n <= a. |
| Bounds.FloorOfQuotient | Solver.c:1193-1194 | `floor` of the exact quotient is FloorDiv. |
| Bounds.CeilOfQuotient | Solver.c:1185 | `ceil` of the exact quotient is CeilDiv. |
| Bounds.GetMinMagicConst | Solver.c:1182-1188 | ceil((C(n+m+1, 2) + C(m+1, 2)) / n). |
| Bounds.GetMaxMagicConst | Solver.c:1190-1197 | floor((2·C(n+m+1, 2) - C(n+1, 2)) / n). |
| Bounds.IncidenceOf | Solver.c:33-42 | Entry x is the incident list of x. |
| Bounds.Handshake | Solver.c:135-141 | Over a loopless graph, the edge parts of all weights sum to twice the edge labels. |
| Bounds.WeightsSum | Solver.c:135-141 | The weights sum to the vertex labels plus twice the edge labels. |
| Bounds.MagicSum | Solver.c:456-467 | A k-magic weight sequence sums to n·k. |
| Bounds.MagicConstInBounds | Solver.c:1182-1197 | Any k-VMT labeling by 1..n+m of a loopless graph has getMinMagicConst <= k <= getMaxMagicConst, so rejecting k outside loses no solution. |
| Bounds.ConstArith | Solver.c:1182-1197 | The arithmetic step of that bound. |
| Driver.SweepAdvance | Solver.c:842-846 | One more vertex of the full sweep keeps the sweep invariant. |
| Driver.StuckExtend | Solver.c:848-850 | A fruitless vertex extends the set of settled neighbourhoods. |
| Driver.Sweep | Solver.c:840-847 | The sweep over all vertices, with its success count. |
| Driver.SweepVertex | Solver.c:843-845 | One vertex of the sweep. |
| Driver.DescendedTrans | Solver.c:839-882 | Descents compose. |
| Driver.SweepOutcome | Solver.c:840-853 | With no success the labels are unchanged and settled. With some success the score went down. |
| Driver.AttemptSolveVertexAndIssuedEdges | Solver.c:820-884 | The descent keeps the label multiset and the taboo labels. It ends within the precision, or when no vertex neighbourhood holds an improving exchange. |
| Driver.DescentTurn | Solver.c:839-882 | One turn lowers the score or counts one more fruitless draw, or stops settled. |
| Driver.DescentRound | Solver.c:840-866 | One round of the descent, the same way. |
| Driver.FullSweep | Solver.c:840-853 | Reports stuck exactly with unchanged, settled labels; otherwise the score went down. |
| Driver.RandomDraw | Solver.c:857-866 | A random vertex: the score goes down, or nothing changes. |
| Driver.StepOutcome | Solver.c:505-725 | What one operator call does to the descent. |
| Driver.StepFixedOutcome | Solver.c:743-801 | The same for the corrected vertex-edge operator. |
| Driver.SentinelStepOutcome | Solver.c:743-801 | What the as-written vertex-edge operator does to the descent: a success lowers the score; a failure leaves the labels, with no improving candidate or the (0, 0) best. |
| Driver.ImproveOrPerturb | Solver.c:1098-1108 | The as-written operator chain lowers the score. Otherwise the operators are stuck (the vertex-edge one possibly only by its (0, 0) sentinel) and two free labels are exchanged. |
| Driver.PerturbOutcome | Solver.c:1105 | The random exchange only rearranges free labels. |
| Driver.RearrangedTrans | Solver.c:1089-1130 | Rearrangements compose. |
| Driver.TryExchanges | Solver.c:1098-1104 | The three operators as written, in order. Either the score went down, or no vertex exchange and no edge exchange improves, and the vertex-edge operator either has no improving exchange or has (0, 0) as its best. |
| Driver.TryExchangesFixed | Solver.c:1098-1104 | The same chain with the corrected vertex-edge operator: either the score went down, or no exchange of any kind improves. |
| Driver.AttemptSolveWithThreshold | Solver.c:1064-1134 | The labels are only rearranged, taboo labels kept, and the skeleton unchanged. A solver is returned exactly when the final score is within the precision. |
| Driver.CreateSolver | Solver.c:33-42 | The solver's problem is the one the graph describes. |
| Driver.SolveLoop | Solver.c:1089-1130 | The round loop with its budget: it reports success exactly when the score is within the precision. |
| Driver.SolveRound | Solver.c:1098-1111 | One round keeps labels a rearrangement of the start. |
| Entry.Search | Solver.c:1153-1157 | `attemptSolve` with precision 0: it succeeds exactly when the final score is 0, and the labels are rearranged with the skeleton kept. |
| Entry.MagicSolved | Solver.c:1210-1212 | Under method 0 with step 0, the score is 0 exactly when the weights are k-magic: the source's assert holds on success. |
| Entry.MagicStepSolved | Solver.c:1281 | The score with step d is 0 exactly when the ordered weights are a, a+d, ... |
| Entry.UnknownConstSolved | Solver.c:1241-1243 | Under method 2 the score is 0 exactly when all weights are equal: the source's assert holds on success. |
| Entry.KnownStepSolved | Solver.c:1288 | Under method 3 the score is 0 exactly when the ordered weights have gaps d. |
| Entry.ProgressionSolved | Solver.c:1294 | Under method 4, with two or more vertices, the score is 0 exactly when the weights are an arithmetic progression; with fewer it is 0. |
| Entry.RectSolved | Solver.c:1310-1332 | Under method 1 the score is 0 exactly when the row sums, ordered, start at u and go by du, and the column sums start at v and go by dv. With zero steps it is 0 exactly when the rows weigh u and the columns v. |
| Entry.SolveVmtWithConst | Solver.c:1199-1215 | Rejects k outside [getMinMagicConst, getMaxMagicConst] without touching labels. A returned graph is k-magic; within the bounds, failure means the final weights are not k-magic. A lone vertex is accepted. |
| Entry.MagicStart | Solver.c:1199-1238 | A graph with two labels to exchange, or already k-magic, meets the search's starting condition. |
| Entry.SolveVmtWithConstTabuAsWritten | Solver.c:1217-1238 | As written, the taboo size passed is 0, so no label is protected (see Findings). |
| Entry.TabooSizeZeroKeepsNothing | Solver.c:1233 | With size 0 a taboo label may move; with the list's real size it may not. |
| Entry.SolveVmtWithConstTabu | Solver.c:1217-1238 | Corrected: the ignored labels stay in place. |
| Entry.SolveVmt | Solver.c:1240-1246 | Any graph is accepted. A returned graph has all weights equal; failure means they are not. |
| Entry.FreeOrSolved | Solver.c:1240-1298 | Without taboo labels, a graph with a vertex and two labels has two free labels; any other graph has at most one weight. |
| Entry.SolveVatWithConstAndStep | Solver.c:1266-1285 | Rejects a below the minimum constant or step above the maximum. A returned graph has ordered weights a, a+step, ...; within the bounds, failure means they are not. |
| Entry.SolveVatWithStep | Solver.c:1287-1292 | Any graph is accepted. A returned graph has weight gaps d; failure means it does not. |
| Entry.SolveVat | Solver.c:1293-1298 | Any graph is accepted. A returned graph with two or more vertices has weights in arithmetic progression; failure means two or more vertices whose weights are not. |
| Entry.GetAntiMagicMinConstAndMaxStep | Solver.c:1248-1264 | The bounds computed from the least and the greatest degree, exactly. |
| Entry.DegreeExtremes | Solver.c:1248-1264 | The least and greatest degree. |
| Entry.SearchRect | Solver.c:1309-1310 | The rectangle search succeeds exactly when the rows and the columns follow their targets; labels are only rearranged. |
| Entry.SolveMagicRect | Solver.c:1300-1316 | Constants nm(nm+1)/(2w) and nm(nm+1)/(2h). The rectangle is returned exactly when the rows weigh height_c, the columns width_c and every edge has a cell; the table then holds each edge's label in its cell. When the search fails the table is unchanged. |
| Entry.RectAssertRejectsSolution | Solver.c:1312 | On the graph `createRectangle` builds for 2 x 4, labelled 1 7 4 6 / 8 2 5 3, the search's objective is 0, yet the assert with the constants in written order fails on the full weights (see Findings). |
| Entry.RectIncidence | Rectangle.c:33-45 | In the 2 x 4 rectangle, row i's incident edges are its four cells and column j's its two. |
| Entry.SolveAntiMagicRect | Solver.c:1318-1337 | The antimagic constants, truncated as in C. The rectangle is returned exactly when the rows and columns follow their targets and steps and every edge has a cell; the table then holds each edge's label in its cell. When the search fails the table is unchanged. |
| Entry.SearchAndFill | Solver.c:1309-1315 | The search, then `updateRectangle`, as both rectangle solvers run them: the rectangle is returned exactly when the rows follow (u, du), the columns follow (v, dv) and every edge has a cell. With zero steps, rows and columns following their targets is exactly `IsMagicRect`. On success the table holds each edge's label in its cell; when the search fails the table is unchanged. |

## Left out

- Printing, progress display, logging and `printDetails`; `exit` is modelled as a failure result (`GetVal`, `UpdateRectangle`).
- `malloc`/`free` and the `freeSolver` call; memory is not modelled.
- `assert` in the entry points is replaced by proving what it checks (or, for `solveMagicRect`, showing where it fails).
- Graph.c beyond the named functions (`deleteVertex`, degeneracy ordering, triangle counts, bipartite generator, printing) and GraphParser.c are not part of this model.
- The interactive editor beyond `parseWord` and `getEdgeByVertex`; the commands that call them are not modelled.
- `rand()`: modelled as an arbitrary choice among the indices the C expression can produce; the distribution is not modelled.
- `avgMagicConst`, `getMagicConst`, `labelOfVertices`, `printIssuedEdgesList`: display helpers not used by the search.
- Solving.Solver.MagicFormulaUnknownConst: computes nbv² times the float variance, exactly; float rounding is not modelled.
- Solving.Solver.MagicFormula: the sum itself is an `int` in the source, but the operators and the driver keep every score in a `float` (`magicVal`, `currMagicVal`), which rounds above 2^24; the model compares the exact integers.
- Solving.Solver.AntimagicFormulaKnownStep: the source accumulates the squared gap deviations in a `float`, which rounds above 2^24; the model's sum is exact.
- Solving.Solver.AntimagicFormulaUnknownConst: the `float` sums and the `float` quotient stored in the `int` `moyenne` are exact in the model (the quotient truncated, as the conversion does); rounding is not modelled.
- Solving.Solver.AntimagicFormulaKnownConst: the same as method 4; with one vertex the deviation does not depend on `moyenne`.
- Solving.Solver.AllDifferentFormula: the count is accumulated in a `float` in the source; the model counts exactly.
- Solving.MeanOfGaps: with one weight the C value (0/0 converted to int) is undefined, so the model leaves it arbitrary.
- Labelings.RelabelEdgesGraph: requires the given labels to lie in 1..nbv+nbe, because for any other label the source's search runs past the end of the array.
- Entry.GetAntiMagicMinConstAndMaxStep: computed with exact reals rather than floats.
- Driver.AttemptSolveWithThreshold: requires two non-taboo labels and a vertex whenever the initial score is above the precision, because the source's draw loops (`rand() % nbv`, the do-while of `newCloseGraph`) do not end otherwise.
- Driver.AttemptSolveVertexAndIssuedEdges: requires a vertex whenever the score is above the precision, for the same reason (`rand() % nbv`).
- Entry.SolveVmtWithConst: requires a vertex, because `getMinMagicConst` divides by nbv; and, for k within the bounds, two labels or an already k-magic graph, because the source's draw loops do not end otherwise.
- Entry.SolveVmtWithConstTabuAsWritten: the same requirements as Entry.SolveVmtWithConst, for the same reasons.
- Entry.SolveVmtWithConstTabu: requires a vertex, and, for k within the bounds, two labels outside the ignored list or an already k-magic graph, because the draw loops do not end otherwise.
- Entry.SolveVatWithConstAndStep: for a and step within the bounds, requires two labels or weights already a, a+step, ..., because the draw loops do not end otherwise.
- Entry.SolveMagicRect: stated with the corrected (rows, columns) order of the constants, not the swapped assert.
- Decimal.ScanInt: does not skip the white space `%d` skips before a number, so a vertex named "v0, 1", which C reads as (0, 1), has no cell in the model; `createRectangle` never writes such names.
- Editor.ParseWord: requires the input to be readable up to readSize or a terminator, as C requires of the caller.
- Graphs.Graph.GetVertex and Graphs.Graph.GetEdge return an index where C returns a pointer.
- Graphs.Graph.DeleteEdge: takes the index of the edge, where C takes an `Edge` and finds it by comparing name pointers.
- Integer overflow of C `int`: the model uses unbounded integers, so wrap-around in weights or in the rectangle constants is not modelled.

## Findings

| source | as written | input that shows it | evidently intended | confidence | as-written member | corrected member |
|---|---|---|---|---|---|---|
| Graph.c:551 | the last cross link of `createAntiprism` is named "e<3n-1>", the name of the last link | any n >= 1 | name it "e<4n-1>" so edge names are distinct | not executed | Antiprisms.AntiprismDuplicateName | Antiprisms.AntiprismNames |
| Graph.c:119-138 | `deleteEdge` reallocates the edge buffer with room for only nbe-1 edges while nbeMax is unchanged, so the next `addEdge` writes past the buffer | any graph with an edge: delete it, then add one | keep the buffer at nbeMax entries | not executed | Graphs.Graph.DeleteEdgeAsWritten | Graphs.Graph.DeleteEdge |
| Solver.c:790-794 | `bestGraphByVerticesAndEdges` tests the chosen pair against (0, 0) to decide whether it found anything, but (0, 0) — vertex 0 with edge 0 — is a real candidate | vertices x, y labelled 1, 2 joined by edge labelled 3, method 0, k = 3: exchanging vertex 0 and edge 0 lowers the score from 3 to 1, yet nothing is applied | test whether the best score improved on the initial one | not executed | Moves.SentinelCounterexample | Solving.Solver.BestGraphByVerticesAndEdgesFixed |
| Solver.c:1233 | `solveVmtWithConstTabu` passes the taboo list with size 0, so `inTab` never finds a label and the ignored labels can move | ignoredLabels = [1], labels v = [1], e = [2]: the exchange moving label 1 passes | pass the list's length | not executed | Entry.TabooSizeZeroKeepsNothing | Entry.SolveVmtWithConstTabu |
| Solver.c:1312 | `solveMagicRect` asserts `isMagic_Rect(s, width_c, height_c)`, whose first constant is checked against the "v0" (row) vertices, but the search targeted rows at height_c | a 2 x 4 rectangle: width_c = 9, height_c = 18; a solution has rows weighing 18 and columns 9, and the assert rejects it | `isMagic_Rect(s, height_c, width_c)` | not executed | Entry.RectAssertRejectsSolution | Entry.SolveMagicRect |
| Rectangle.c:69-94 | `updateRectangle` only rejects an index equal to -1, so a name "v0,-2" passes and the label is written to row -2 | an edge from vertex "v0,-2" to "v1,0" | reject every negative index | not executed | Rectangles.NegativeIndexAccepted | Rectangles.Cell |
