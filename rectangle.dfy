/**
 * Magic rectangles (Rectangle.c). A height x width rectangle is the
 * complete bipartite graph between `height` row vertices named "v0,i" and
 * `width` column vertices named "v1,j", all labelled 0; the edge joining
 * row i and column j stands for cell (i, j) and its label is the number
 * written there. `table` is the two-dimensional view of the edge labels,
 * which `updateRectangle` rebuilds from the endpoint names of every edge.
 */
module Rectangles {
  import opened Seqs
  import opened Decimal
  import opened Graphs
  import Scores

  // ---------------------------------------------------------------- names

  /** `sprintf(buff, "v%d,%d", side, i)`: "v0,i" for row i, "v1,j" for column j. */
  function SideName(side: nat, i: nat): string
  {
    "v" + NatToString(side) + "," + NatToString(i)
  }

  /**
   * `sscanf(name, "v%d,%d", &side, &idx)` with side starting at 2 and idx at
   * -1: a conversion that fails leaves its variable, and every later one,
   * as it was.
   */
  function ScanName(name: string): (int, int)
  {
    if |name| == 0 || name[0] != 'v' then (2, -1)
    else
      match ScanInt(name[1..])
      case None => (2, -1)
      case Some((side, used)) => (side, ScanIndex(name[1 + used..]))
  }

  /** The ",%d" that follows the side: -1 unless a comma and a number are there. */
  function ScanIndex(rest: string): int
  {
    if |rest| == 0 || rest[0] != ',' then -1
    else
      match ScanInt(rest[1..])
      case None => -1
      case Some((idx, _)) => idx
  }

  /** Decoding a name reads back the side and index it was written from. */
  lemma ScanSideName(side: nat, i: nat)
    ensures ScanName(SideName(side, i)) == (side, i)
  {
    var d1, d2 := NatToString(side), NatToString(i);
    var tail := "," + d2;
    ScanNatToString(side, tail);
    ScanNatToString(i, []);
    assert d2 + [] == d2;
    ScanIndexComma(d2, i);
    assert SideName(side, i) == "v" + d1 + tail;
    ScanNameParts(SideName(side, i), d1, tail, side, i);
  }

  /** ScanName on "v" + d1 + "," + d2 where d1 and d2 scan as whole numerals. */
  lemma ScanNameParts(name: string, d1: string, tail: string, a: int, b: int)
    requires name == "v" + d1 + tail && |tail| > 0 && tail[0] == ','
    requires ScanInt(d1 + tail) == Some((a, |d1|))
    requires ScanIndex(tail) == b
    ensures ScanName(name) == (a, b)
  {
    assert name[0] == 'v' && name[1..] == d1 + tail && name[1 + |d1|..] == tail by {
      var head := "v" + d1;
      assert name == head + tail;
    }
  }

  /** The index part ",<d>" reads as the number d scans to. */
  lemma ScanIndexComma(d: string, b: int)
    requires ScanInt(d) == Some((b, |d|))
    ensures ScanIndex("," + d) == b
  {
    var rest := "," + d;
    assert rest[0] == ',' && rest[1..] == d;
  }

  // ---------------------------------------------------------------- where an edge is written

  /**
   * The cell `updateRectangle` writes for an edge whose endpoints decode to
   * (xs, x) and (ys, y), as the code is written; None where it aborts: a
   * side other than -1, 0 or 1, an index of -1 (a failed conversion), both
   * ends on the same side, or an index at or past the width or height. A
   * row end first gives (row, column) = (x, y); a column end first, (y, x).
   */
  function PlaceAsWritten(p: (int, int), q: (int, int), width: int, height: int): Option<(int, int)>
  {
    var (xs, x) := p;
    var (ys, y) := q;
    if Scores.Abs(xs) > 1 || Scores.Abs(ys) > 1 || x == -1 || y == -1 then None
    else if xs != 0 then
      (if ys != 0 || x >= width || y >= height then None else Some((y, x)))
    else if ys == 0 || x >= height || y >= width then None
    else Some((x, y))
  }

  /** The cell for an edge whose endpoints are named a and b, as written. */
  function CellAsWritten(a: string, b: string, width: int, height: int): Option<(int, int)>
  {
    PlaceAsWritten(ScanName(a), ScanName(b), width, height)
  }

  /**
   * The same checks, with every negative index refused as well: the cell
   * (row, column) is then always inside the table, and it is the cell the
   * code as written picks whenever that one is not negative.
   */
  function Cell(a: string, b: string, width: int, height: int): (r: Option<(nat, nat)>)
    ensures r.Some? ==> r.value.0 < height && r.value.1 < width
    ensures r.Some? <==> CellAsWritten(a, b, width, height).Some? &&
                         CellAsWritten(a, b, width, height).value.0 >= 0 && CellAsWritten(a, b, width, height).value.1 >= 0
    ensures r.Some? ==> CellAsWritten(a, b, width, height) == Some((r.value.0 as int, r.value.1 as int))
  {
    match CellAsWritten(a, b, width, height)
    case None => None
    case Some((i, j)) => if i < 0 || j < 0 then None else Some((i, j))
  }

  /**
   * The code as written refuses an index of -1 but lets every other
   * negative index through: a row name decoding to index i < -1, joined to
   * a column inside the table, is sent to row i, outside the table. Cell
   * refuses it.
   */
  lemma NegativeIndexAccepted(a: string, b: string, i: int, j: nat, width: nat, height: nat)
    requires ScanName(a) == (0, i) && i < -1
    requires ScanName(b) == (1, j) && j < width
    ensures CellAsWritten(a, b, width, height) == Some((i, j as int))
    ensures Cell(a, b, width, height).None?
  {
  }

  /** Such a name exists: "v0,-2" decodes to side 0, index -2. */
  lemma ScanMinusTwo()
    ensures ScanName("v0,-2") == (0, -2)
  {
    var d1, d2 := NatToString(0), ['-'] + (NatToString(2) + []);
    ScanNegated(2, []);
    ScanIndexComma(d2, -2);
    ScanNatToString(0, "," + d2);
    ScanNameParts("v" + d1 + ("," + d2), d1, "," + d2, 0, -2);
    MinusTwoName();
  }

  /** The name "v0,-2" as it is put together from its numerals. */
  lemma MinusTwoName()
    ensures "v" + NatToString(0) + ("," + (['-'] + (NatToString(2) + []))) == "v0,-2"
  {
    assert NatToString(0) == "0" && NatToString(2) == "2";
  }

  // ---------------------------------------------------------------- tables

  /** A table of `height` rows of `width` entries each. */
  predicate Grid(T: seq<seq<int>>, height: nat, width: nat)
  {
    |T| == height && forall i :: 0 <= i < height ==> |T[i]| == width
  }

  /** Cell (i, j) holds i * width + j + 1: the numbering of `createRectangle`. */
  function Numbered(height: nat, width: nat): (T: seq<seq<int>>)
    ensures Grid(T, height, width)
  {
    seq(height, i requires 0 <= i < height => seq(width, j requires 0 <= j < width => i * width + j + 1))
  }

  /** Where edge `e` is written, given the names of the vertices. */
  function EdgeCell(e: Edge, names: seq<string>, width: nat, height: nat): Option<(nat, nat)>
    requires e.u < |names| && e.v < |names|
  {
    Cell(names[e.u], names[e.v], width, height)
  }

  /** Every edge has a cell: `updateRectangle` goes through without aborting. */
  predicate AllCells(es: seq<Edge>, names: seq<string>, width: nat, height: nat)
    requires EndsIn(es, |names|)
  {
    forall k {:trigger EdgeCell(es[k], names, width, height)} ::
      0 <= k < |es| ==> EdgeCell(es[k], names, width, height).Some?
  }

  /** The first i edges have a cell. */
  predicate CellsUpTo(es: seq<Edge>, names: seq<string>, width: nat, height: nat, i: nat)
    requires EndsIn(es, |names|) && i <= |es|
  {
    forall k {:trigger EdgeCell(es[k], names, width, height)} ::
      0 <= k < i ==> EdgeCell(es[k], names, width, height).Some?
  }

  lemma CellsStep(es: seq<Edge>, names: seq<string>, width: nat, height: nat, i: nat)
    requires EndsIn(es, |names|) && i < |es| && CellsUpTo(es, names, width, height, i)
    requires EdgeCell(es[i], names, width, height).Some?
    ensures CellsUpTo(es, names, width, height, i + 1)
  {
  }

  /** Every cell named in cs lies inside a height x width table. */
  predicate InTable(cs: seq<Option<(nat, nat)>>, height: nat, width: nat)
  {
    forall k :: 0 <= k < |cs| && cs[k].Some? ==> cs[k].value.0 < height && cs[k].value.1 < width
  }

  /** The cell of every edge, in edge order. */
  function Cells(es: seq<Edge>, names: seq<string>, width: nat, height: nat): (cs: seq<Option<(nat, nat)>>)
    requires EndsIn(es, |names|)
    ensures |cs| == |es| && InTable(cs, height, width)
  {
    seq(|es|, k requires 0 <= k < |es| => EdgeCell(es[k], names, width, height))
  }

  /** T with v written at cell c; T itself when there is no cell. */
  function Put(T: seq<seq<int>>, c: Option<(nat, nat)>, v: int, height: nat, width: nat): (r: seq<seq<int>>)
    requires Grid(T, height, width) && (c.Some? ==> c.value.0 < height && c.value.1 < width)
    ensures Grid(r, height, width)
  {
    match c
    case None => T
    case Some((i, j)) => T[i := T[i][j := v]]
  }

  /**
   * T after writing, edge after edge, the label of edge k into cell cs[k]
   * (a later edge overwrites an earlier one).
   */
  function Filled(T: seq<seq<int>>, es: seq<Edge>, cs: seq<Option<(nat, nat)>>, height: nat, width: nat): (r: seq<seq<int>>)
    requires Grid(T, height, width) && |cs| == |es| && InTable(cs, height, width)
    ensures Grid(r, height, width)
  {
    if es == [] then T
    else
      var n := |es| - 1;
      assert InTable(cs[..n], height, width) by {
        assert forall k :: 0 <= k < n ==> cs[..n][k] == cs[k];
      }
      Put(Filled(T, es[..n], cs[..n], height, width), cs[n], es[n].lab, height, width)
  }

  /** A prefix of cells inside the table is inside the table. */
  lemma InTablePrefix(cs: seq<Option<(nat, nat)>>, height: nat, width: nat, m: nat)
    requires InTable(cs, height, width) && m <= |cs|
    ensures InTable(cs[..m], height, width)
  {
    assert forall k :: 0 <= k < m ==> cs[..m][k] == cs[k];
  }

  /** Filling one edge more writes that edge's label into its cell. */
  lemma FilledStep(T: seq<seq<int>>, es: seq<Edge>, cs: seq<Option<(nat, nat)>>, height: nat, width: nat, k: nat)
    requires Grid(T, height, width) && |cs| == |es| && InTable(cs, height, width) && k < |es|
    ensures InTable(cs[..k], height, width) && InTable(cs[..k + 1], height, width)
    ensures Filled(T, es[..k + 1], cs[..k + 1], height, width) ==
            Put(Filled(T, es[..k], cs[..k], height, width), cs[k], es[k].lab, height, width)
  {
    InTablePrefix(cs, height, width, k);
    InTablePrefix(cs, height, width, k + 1);
    assert es[..k + 1][..k] == es[..k];
    assert cs[..k + 1][..k] == cs[..k];
    assert es[..k + 1][k] == es[k] && cs[..k + 1][k] == cs[k];
  }

  // ---------------------------------------------------------------- the rectangle graph

  /** The vertices "v<side>,0" .. "v<side>,count-1", labelled 0. */
  function SideVertices(side: nat, count: nat): (r: seq<Vertex>)
    ensures |r| == count
  {
    seq(count, i requires 0 <= i < count => Vertex(SideName(side, i), 0))
  }

  /** The rows "v0,0" .. "v0,height-1", then the columns "v1,0" .. "v1,width-1". */
  function RectVertices(height: nat, width: nat): (r: seq<Vertex>)
    ensures |r| == height + width
  {
    SideVertices(0, height) + SideVertices(1, width)
  }

  /** Edge k of the rectangle, for cell (k / width, k % width) in row-major order. */
  function CellEdge(height: nat, width: nat, k: nat): Edge
    requires width > 0
  {
    Edge("e" + NatToString(k), k + 1, k / width, height + k % width)
  }

  /** The edges in the order `createRectangle` adds them: row by row, column by column. */
  function RectEdges(height: nat, width: nat): (r: seq<Edge>)
    ensures |r| == height * width
  {
    if width == 0 then []
    else seq(height * width, k requires 0 <= k < height * width => CellEdge(height, width, k))
  }

  lemma MulLe(a: nat, b: nat, c: nat)
    requires a <= b
    ensures a * c <= b * c
  {
    assert b * c - a * c == (b - a) * c;
  }

  /** Position i * width + j of a row-major numbering is row i, column j. */
  lemma RowMajor(i: nat, j: nat, width: nat)
    requires j < width
    ensures (i * width + j) / width == i && (i * width + j) % width == j
  {
    var k := i * width + j;
    var q, r := k / width, k % width;
    assert k == q * width + r && 0 <= r < width;
    assert width * (q - i) == j - r;
    Scores.QuotientUnique(width, q - i);
  }

  /** Cell (i, j) of a height x width table has a position below height * width. */
  lemma CellBelow(i: nat, j: nat, height: nat, width: nat)
    requires i < height && j < width
    ensures i * width + j < height * width
  {
    MulLe(i + 1, height, width);
  }

  /** Every position below height * width is in one of the rows. */
  lemma RowBelow(k: nat, height: nat, width: nat)
    requires k < height * width
    ensures width > 0 && k / width < height && k % width < width
  {
    var q := k / width;
    assert k == q * width + k % width;
    if q >= height {
      MulLe(height, q, width);
    }
  }

  /** The edge of cell (i, j) joins row i to column j and is labelled i * width + j + 1. */
  lemma RectEdgeAt(height: nat, width: nat, i: nat, j: nat)
    requires i < height && j < width
    ensures i * width + j < height * width
    ensures RectEdges(height, width)[i * width + j] ==
            Edge("e" + NatToString(i * width + j), i * width + j + 1, i, height + j)
  {
    CellBelow(i, j, height, width);
    RowMajor(i, j, width);
  }

  /** A simple graph on height + width vertices has room for the height * width edges. */
  lemma RectCapacity(height: nat, width: nat)
    ensures height * width <= (height + width) * (height + width - 1) / 2
  {
    var s := height + width;
    assert s * (s - 1) == 2 * (height * width) + height * (height - 1) + width * (width - 1);
    assert height * (height - 1) >= 0;
    assert width * (width - 1) >= 0;
  }

  /** A row name and a column name inside the table give that row and column. */
  lemma RowColumnCell(a: string, b: string, i: nat, j: nat, width: nat, height: nat)
    requires ScanName(a) == (0, i) && ScanName(b) == (1, j)
    requires i < height && j < width
    ensures Cell(a, b, width, height) == Some((i, j))
  {
    assert CellAsWritten(a, b, width, height) == Some((i as int, j as int));
  }

  /**
   * Edge k of a rectangle joins two of its vertices, is written to cell
   * (k / width, k % width), and its label is the number already there.
   */
  lemma RectEdgeCell(height: nat, width: nat, k: nat)
    requires k < height * width
    ensures width > 0
    ensures RectEdges(height, width)[k].u < height + width && RectEdges(height, width)[k].v < height + width
    ensures EdgeCell(RectEdges(height, width)[k], Names(RectVertices(height, width)), width, height) ==
            Some((k / width, k % width))
    ensures Numbered(height, width)[k / width][k % width] == RectEdges(height, width)[k].lab
  {
    RowBelow(k, height, width);
    var q: nat, r: nat := k / width, k % width;
    assert k == q * width + r;
    var vs := RectVertices(height, width);
    var names := Names(vs);
    var e := RectEdges(height, width)[k];
    assert e == CellEdge(height, width, k);
    assert e.u == q && e.v == height + r && e.lab == k + 1;
    assert names[q] == vs[q].name == SideName(0, q);
    assert names[height + r] == vs[height + r].name == SideName(1, r);
    ScanSideName(0, q);
    ScanSideName(1, r);
    RowColumnCell(SideName(0, q), SideName(1, r), q, r, width, height);
    assert Numbered(height, width)[q][r] == q * width + r + 1;
  }

  /**
   * Writing the first m edges into the numbering changes nothing when each
   * of them goes to a cell that already holds its label.
   */
  lemma {:induction false} FilledPrefix(T: seq<seq<int>>, es: seq<Edge>, cs: seq<Option<(nat, nat)>>,
                                        height: nat, width: nat, m: nat)
    requires Grid(T, height, width) && |cs| == |es| && InTable(cs, height, width) && m <= |es|
    requires forall k :: 0 <= k < m ==> cs[k].Some? && T[cs[k].value.0][cs[k].value.1] == es[k].lab
    ensures InTable(cs[..m], height, width)
    ensures Filled(T, es[..m], cs[..m], height, width) == T
  {
    InTablePrefix(cs, height, width, m);
    if m > 0 {
      FilledPrefix(T, es, cs, height, width, m - 1);
      FilledStep(T, es, cs, height, width, m - 1);
      var c := cs[m - 1].value;
      assert T[c.0][c.1 := es[m - 1].lab] == T[c.0];
    }
  }

  /** Run right after `createRectangle`, `updateRectangle` accepts every edge and leaves the table as it was. */
  lemma UpdateAfterCreate(height: nat, width: nat)
    ensures EndsIn(RectEdges(height, width), height + width)
    ensures AllCells(RectEdges(height, width), Names(RectVertices(height, width)), width, height)
    ensures Filled(Numbered(height, width), RectEdges(height, width),
                   Cells(RectEdges(height, width), Names(RectVertices(height, width)), width, height), height, width) ==
            Numbered(height, width)
  {
    var es := RectEdges(height, width);
    var names := Names(RectVertices(height, width));
    forall k | 0 <= k < |es|
      ensures es[k].u < height + width && es[k].v < height + width
    {
      RectEdgeCell(height, width, k);
    }
    var cs := Cells(es, names, width, height);
    forall k | 0 <= k < |es|
      ensures EdgeCell(es[k], names, width, height).Some?
      ensures cs[k].Some? && Numbered(height, width)[cs[k].value.0][cs[k].value.1] == es[k].lab
    {
      RectEdgeCell(height, width, k);
    }
    FilledPrefix(Numbered(height, width), es, cs, height, width, |es|);
    assert es[..|es|] == es && cs[..|es|] == cs;
  }

  // ---------------------------------------------------------------- the rectangle

  class Rectangle {
    const height: nat
    const width: nat
    /** table[i, j] is the label of cell (i, j). */
    const table: array2<int>
    const g: Graph

    /** The table has height rows of width entries, and every edge joins vertices of the graph. */
    predicate Valid()
      reads this, g, g.edges
    {
      g.Valid() && table.Length0 == height && table.Length1 == width && EndsIn(g.Edges(), g.nbv)
    }

    /** The table as rows of entries. */
    function Table(): (T: seq<seq<int>>)
      reads this, table
      ensures Grid(T, table.Length0, table.Length1)
    {
      seq(table.Length0, i requires 0 <= i < table.Length0 reads table =>
        seq(table.Length1, j requires 0 <= j < table.Length1 reads table => table[i, j]))
    }

    constructor (height: nat, width: nat, table: array2<int>, g: Graph)
      ensures this.height == height && this.width == width && this.table == table && this.g == g
    {
      this.height := height;
      this.width := width;
      this.table := table;
      this.g := g;
    }

    /** `getVal(r, i, j)`: the entry at row i, column j; the source exits when i >= height or j >= width. */
    method GetVal(i: nat, j: nat) returns (r: Option<int>)
      requires Valid()
      ensures r.Some? <==> i < height && j < width
      ensures r.Some? ==> Grid(Table(), height, width) && r.value == Table()[i][j]
    {
      if i >= height || j >= width {
        return None;
      }
      return Some(table[i, j]);
    }

    /** `getLine(r, i)`: a fresh copy of row i. */
    method GetLine(i: nat) returns (a: array<int>)
      requires Valid() && i < height
      ensures fresh(a) && a[..] == Table()[i]
    {
      a := new int[width];
      var j := 0;
      while j < width
        invariant 0 <= j <= width
        invariant forall t :: 0 <= t < j ==> a[t] == table[i, t]
      {
        a[j] := table[i, j];
        j := j + 1;
      }
    }

    /** `getColumn(r, j)`: a fresh copy of column j, one entry per row. */
    method GetColumn(j: nat) returns (a: array<int>)
      requires Valid() && j < width
      ensures fresh(a) && a.Length == height
      ensures forall i :: 0 <= i < height ==> a[i] == Table()[i][j]
    {
      a := new int[height];
      var i := 0;
      while i < height
        invariant 0 <= i <= height
        invariant forall t :: 0 <= t < i ==> a[t] == table[t, j]
      {
        a[i] := table[i, j];
        i := i + 1;
      }
    }

    /**
     * One edge of `updateRectangle`: the names of its endpoints decoded, and
     * its label written into the cell they give; false, with the table left
     * as it was, when they give none (the source exits there).
     */
    method WriteEdge(k: nat) returns (ok: bool)
      requires Valid() && k < g.nbe
      modifies table
      ensures Valid() && g.Edges() == old(g.Edges()) && g.Vertices() == old(g.Vertices())
      ensures ok <==> EdgeCell(g.Edges()[k], Names(g.Vertices()), width, height).Some?
      ensures Table() == Put(old(Table()), EdgeCell(g.Edges()[k], Names(g.Vertices()), width, height),
                             g.Edges()[k].lab, height, width)
    {
      var e := g.edges[k];
      var c := Cell(g.vertices[e.u].name, g.vertices[e.v].name, width, height);
      assert c == EdgeCell(g.Edges()[k], Names(g.Vertices()), width, height) by {
        assert e == g.Edges()[k];
        assert Names(g.Vertices())[e.u] == g.vertices[e.u].name;
        assert Names(g.Vertices())[e.v] == g.vertices[e.v].name;
      }
      if c.None? {
        return false;
      }
      var (row, col) := c.value;
      Store(row, col, e.lab);
      return true;
    }

    /** Cell (row, col) of the table takes the value v; nothing else changes. */
    method Store(row: nat, col: nat, v: int)
      requires Valid() && row < height && col < width
      modifies table
      ensures Valid() && g.Edges() == old(g.Edges()) && g.Vertices() == old(g.Vertices())
      ensures Table() == old(Table())[row := old(Table())[row][col := v]]
    {
      ghost var T := Table();
      table[row, col] := v;
      ghost var T' := T[row := T[row][col := v]];
      forall a, b | 0 <= a < table.Length0 && 0 <= b < table.Length1
        ensures table[a, b] == T'[a][b]
      {
        if a != row || b != col {
          assert table[a, b] == old(table[a, b]) == T[a][b];
        }
      }
      TableIs(this, T');
    }

    /**
     * `updateRectangle`: every edge, in order, writes its label into the
     * cell its endpoint names give. It fails at the first edge without a
     * cell, where the source exits. An index of -2 or lower, which the
     * source accepts and writes outside the table (see
     * `NegativeIndexAccepted`), has no cell here, so the model refuses it.
     */
    method UpdateRectangle() returns (ok: bool)
      requires Valid()
      modifies table
      ensures Valid() && g.Edges() == old(g.Edges()) && g.Vertices() == old(g.Vertices())
      ensures ok <==> AllCells(g.Edges(), Names(g.Vertices()), width, height)
      ensures ok ==> Table() == Filled(old(Table()), g.Edges(), Cells(g.Edges(), Names(g.Vertices()), width, height), height, width)
    {
      ghost var T0 := Table();
      ghost var es := g.Edges();
      ghost var vs := g.Vertices();
      ghost var names := Names(vs);
      assert EndsIn(es, |names|);
      ghost var cs := Cells(es, names, width, height);
      ok := true;
      var i := 0;
      while i < g.nbe && ok
        invariant 0 <= i <= g.nbe && Valid() && g.Edges() == es && g.Vertices() == vs
        invariant CellsUpTo(es, names, width, height, i)
        invariant InTable(cs[..i], height, width)
        invariant Table() == Filled(T0, es[..i], cs[..i], height, width)
        invariant !ok ==> i < |es| && EdgeCell(es[i], names, width, height).None?
        decreases g.nbe - i, if ok then 1 else 0
      {
        var written := WriteEdge(i);
        if written {
          assert cs[i] == EdgeCell(es[i], names, width, height);
          FilledStep(T0, es, cs, height, width, i);
          CellsStep(es, names, width, height, i);
          i := i + 1;
        } else {
          ok := false;
        }
      }
      if ok {
        assert es[..i] == es && cs[..i] == cs;
      }
    }
  }

  /**
   * `createRectangle(name, width, height)`: a graph "RECTANGLE_<name>" with
   * room for height + width vertices, the row vertices and then the column
   * vertices (labels 0), and for every cell (i, j) in row-major order an
   * edge from row i to column j labelled i * width + j + 1, which is also
   * what the table holds at (i, j).
   */
  method CreateRectangle(name: string, width: nat, height: nat) returns (r: Rectangle)
    ensures fresh(r) && fresh(r.g) && fresh(r.table) && fresh(r.g.vertices) && fresh(r.g.edges)
    ensures r.Valid() && r.width == width && r.height == height
    ensures r.g.name == "RECTANGLE_" + name && r.g.nbvMax == height + width
    ensures r.g.Vertices() == RectVertices(height, width)
    ensures r.g.Edges() == RectEdges(height, width)
    ensures r.Table() == Numbered(height, width)
  {
    var g, table := BuildGraph(name, width, height);
    r := new Rectangle(height, width, table, g);
    UpdateAfterCreate(height, width);
    TableIs(r, Numbered(height, width));
  }

  /** The graph and the table of `createRectangle`, before they are put together. */
  method BuildGraph(name: string, width: nat, height: nat) returns (g: Graph, table: array2<int>)
    ensures fresh(g) && fresh(table) && fresh(g.vertices) && fresh(g.edges)
    ensures g.Valid() && table.Length0 == height && table.Length1 == width
    ensures g.name == "RECTANGLE_" + name && g.nbvMax == height + width && g.nbv == height + width
    ensures g.Vertices() == RectVertices(height, width)
    ensures g.Edges() == RectEdges(height, width)
    ensures forall a, b :: 0 <= a < height && 0 <= b < width ==> table[a, b] == Numbered(height, width)[a][b]
  {
    table := new int[height, width];
    g := new Graph("RECTANGLE_" + name, height + width);
    AddSide(g, 0, height);
    AddSide(g, 1, width);
    RectCapacity(height, width);
    AddCells(g, table, height, width);
  }

  /** A vertex loop of `createRectangle`: "v<side>,0" .. "v<side>,count-1", labelled 0, added in order. */
  method AddSide(g: Graph, side: nat, count: nat)
    requires g.Valid() && g.nbv + count <= g.nbvMax
    modifies g`nbv, g.vertices
    ensures g.Valid() && g.nbv == old(g.nbv) + count
    ensures g.Vertices() == old(g.Vertices()) + SideVertices(side, count)
  {
    ghost var before := g.Vertices();
    var i := 0;
    while i < count
      invariant 0 <= i <= count
      invariant g.Valid() && g.nbv == old(g.nbv) + i
      invariant g.Vertices() == before + SideVertices(side, count)[..i]
    {
      var ok := g.AddVertex(Vertex(SideName(side, i), 0));
      assert SideVertices(side, count)[..i + 1] == SideVertices(side, count)[..i] + [Vertex(SideName(side, i), 0)];
      i := i + 1;
    }
    assert SideVertices(side, count)[..count] == SideVertices(side, count);
  }

  /**
   * The cell loop of `createRectangle`: for every cell (i, j) in row-major
   * order, an edge from row i to column j numbered by a running counter,
   * and the same number written into the table.
   */
  method AddCells(g: Graph, table: array2<int>, height: nat, width: nat)
    requires g.Valid() && g.nbv == height + width && g.nbe == 0 && height * width <= g.nbeMax
    requires table.Length0 == height && table.Length1 == width
    modifies g`nbe, g.edges, table
    ensures g.Valid() && g.Edges() == RectEdges(height, width)
    ensures forall a, b :: 0 <= a < height && 0 <= b < width ==> table[a, b] == Numbered(height, width)[a][b]
  {
    ghost var edges := RectEdges(height, width);
    ghost var numbered := Numbered(height, width);
    var i := 0;
    while i < height
      invariant 0 <= i <= height
      invariant g.Valid() && g.nbe == i * width && g.Edges() == edges[..i * width]
      invariant forall a, b :: 0 <= a < i && 0 <= b < width ==> table[a, b] == numbered[a][b]
    {
      AddCellRow(g, table, height, width, i);
      i := i + 1;
    }
    assert g.Edges() == edges;
  }

  /**
   * Row i of `createRectangle`'s double loop: the running counter, which is
   * i * width + j + 1 at column j, numbers the edge and the cell.
   */
  method AddCellRow(g: Graph, table: array2<int>, height: nat, width: nat, i: nat)
    requires g.Valid() && i < height && height * width <= g.nbeMax
    requires g.nbe == i * width && g.Edges() == RectEdges(height, width)[..i * width]
    requires table.Length0 == height && table.Length1 == width
    modifies g`nbe, g.edges, table
    ensures g.Valid() && g.nbe == (i + 1) * width && g.Edges() == RectEdges(height, width)[..(i + 1) * width]
    ensures forall b :: 0 <= b < width ==> table[i, b] == Numbered(height, width)[i][b]
    ensures forall a, b :: 0 <= a < height && a != i && 0 <= b < width ==> table[a, b] == old(table[a, b])
  {
    ghost var edges := RectEdges(height, width);
    NextRow(i, height, width);
    var cpt := i * width + 1;
    var j := 0;
    while j < width
      invariant 0 <= j <= width && cpt == i * width + j + 1
      invariant g.Valid() && g.nbe == cpt - 1 && g.Edges() == edges[..cpt - 1]
      invariant RowNumbered(table, i, j)
      invariant forall a, b :: 0 <= a < height && a != i && 0 <= b < width ==> table[a, b] == old(table[a, b])
    {
      RectEdgeAt(height, width, i, j);
      ghost var before := g.Edges();
      var ok := g.AddEdge(Edge("e" + NatToString(cpt - 1), cpt, i, height + j));
      assert ok && g.Valid() && g.nbe == cpt && g.Edges() == before + [edges[cpt - 1]];
      PrefixPush(edges, cpt - 1);
      table[i, j] := cpt;
      RowNumberedStep(table, i, j);
      cpt := cpt + 1;
      j := j + 1;
    }
    RowIsNumbered(table, height, width, i);
  }

  /** The first j cells of row i hold the running counter's values. */
  ghost predicate RowNumbered(table: array2<int>, i: nat, j: nat)
    reads table
    requires i < table.Length0 && j <= table.Length1
  {
    forall b :: 0 <= b < j ==> table[i, b] == i * table.Length1 + b + 1
  }

  lemma RowNumberedStep(table: array2<int>, i: nat, j: nat)
    requires i < table.Length0 && j < table.Length1
    requires RowNumbered(table, i, j) && table[i, j] == i * table.Length1 + j + 1
    ensures RowNumbered(table, i, j + 1)
  {
  }

  lemma RowIsNumbered(table: array2<int>, height: nat, width: nat, i: nat)
    requires table.Length0 == height && table.Length1 == width && i < height
    requires RowNumbered(table, i, width)
    ensures forall b :: 0 <= b < width ==> table[i, b] == Numbered(height, width)[i][b]
  {
  }

  /** The next row starts width positions later and still fits. */
  lemma NextRow(i: nat, height: nat, width: nat)
    requires i < height
    ensures (i + 1) * width == i * width + width <= height * width
  {
    MulLe(i + 1, height, width);
  }

  /** A prefix grows by the element that follows it. */
  lemma PrefixPush<T>(s: seq<T>, k: nat)
    requires k < |s|
    ensures s[..k + 1] == s[..k] + [s[k]]
  {
  }

  /** The rows of the table are those of T when every entry agrees. */
  lemma TableIs(r: Rectangle, T: seq<seq<int>>)
    requires Grid(T, r.table.Length0, r.table.Length1)
    requires forall a, b :: 0 <= a < r.table.Length0 && 0 <= b < r.table.Length1 ==> r.table[a, b] == T[a][b]
    ensures r.Table() == T
  {
    forall a | 0 <= a < r.table.Length0
      ensures r.Table()[a] == T[a]
    {
      assert forall b :: 0 <= b < r.table.Length1 ==> r.Table()[a][b] == T[a][b];
    }
  }
}
