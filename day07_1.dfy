/**
 * Day 7, part 1 (src/bin/day_07_1.rs): a beam enters a manifold diagram at
 * the source `S` in row 0 and moves down row by row; a splitter `^` stops
 * it and sends beams on from the cells to its left and right. The answer
 * counts the splitters whose cell directly above is on a beam path.
 *
 * `DIAGRAM_HEIGHT` and `DIAGRAM_WIDTH` are parameters here. The layout and
 * its parser are shared with part 2.
 */
module Day07Part1 {
  import opened Wrappers
  import opened CoordGrid

  datatype Cell = Empty | Source | Splitter

  /** The cell a diagram character stands for (any other character
      panics). */
  function CellOf(c: char): (r: Option<Cell>)
    ensures r.Some? <==> c == '.' || c == 'S' || c == '^'
    ensures r == Some(Source) <==> c == 'S'
    ensures r == Some(Splitter) <==> c == '^'
  {
    match c
    case '.' => Some(Empty)
    case 'S' => Some(Source)
    case '^' => Some(Splitter)
    case _ => None
  }

  /* Parsing. */

  /** `parse_manifold_layout` does not panic: every character is one of
      `.`, `S`, `^` and sits inside the diagram. Lines past the last row
      are accepted when they are empty, since nothing of them is set. */
  predicate LayoutParses(lines: seq<string>, height: nat, width: nat)
  {
    forall i :: 0 <= i < |lines| ==>
      && (|lines[i]| > 0 ==> i < height && |lines[i]| <= width)
      && forall j :: 0 <= j < |lines[i]| ==> CellOf(lines[i][j]).Some?
  }

  /** The layout cell at `(i, j)`: `Empty` where the input has no
      character. */
  function LayoutCell(lines: seq<string>, i: nat, j: nat): Cell
  {
    if i < |lines| && j < |lines[i]| && CellOf(lines[i][j]).Some? then CellOf(lines[i][j]).value else Empty
  }

  function Layout(lines: seq<string>, height: nat, width: nat): (rows: seq<seq<Cell>>)
    ensures IsGrid(rows, height, width)
    ensures forall i, j :: 0 <= i < height && 0 <= j < width ==> rows[i][j] == LayoutCell(lines, i, j)
  {
    seq(height, i requires 0 <= i < height => seq(width, j requires 0 <= j < width => LayoutCell(lines, i, j)))
  }

  /** The column of the last `S` of `line`, or `col` when it has none. */
  function LastSource(line: string, col: nat): nat
  {
    if |line| == 0 then col
    else if line[|line| - 1] == 'S' then |line| - 1
    else LastSource(line[..|line| - 1], col)
  }

  /** `source_j`: the column of the last `S` in reading order, 0 when
      there is none. */
  function SourceCol(lines: seq<string>): nat
  {
    if |lines| == 0 then 0 else LastSource(lines[|lines| - 1], SourceCol(lines[..|lines| - 1]))
  }

  /** `LastSource` finds the last `S` of the line, and falls back on `col`
      only when there is none. */
  lemma {:induction false} LastSourceIsLast(line: string, col: nat)
    ensures (forall j :: 0 <= j < |line| ==> line[j] != 'S') ==> LastSource(line, col) == col
    ensures (exists j :: 0 <= j < |line| && line[j] == 'S') ==>
              LastSource(line, col) < |line| && line[LastSource(line, col)] == 'S'
              && forall j :: LastSource(line, col) < j < |line| ==> line[j] != 'S'
  {
    if |line| > 0 && line[|line| - 1] != 'S' {
      var prefix := line[..|line| - 1];
      LastSourceIsLast(prefix, col);
      if exists j :: 0 <= j < |line| && line[j] == 'S' {
        var j :| 0 <= j < |line| && line[j] == 'S';
        assert prefix[j] == 'S';
      }
    }
  }

  /** Line `i` holds an `S` at column `col`, and no `S` comes after it in
      reading order. */
  predicate LastSourceAt(lines: seq<string>, i: nat, col: nat)
  {
    && i < |lines| && col < |lines[i]| && lines[i][col] == 'S'
    && (forall j :: col < j < |lines[i]| ==> lines[i][j] != 'S')
    && (forall i', j :: i < i' < |lines| && 0 <= j < |lines[i']| ==> lines[i'][j] != 'S')
  }

  /** The source column is that of the last `S` in reading order; without
      any `S` it is 0. */
  lemma {:induction false} SourceColIsLast(lines: seq<string>)
    ensures (forall i, j :: 0 <= i < |lines| && 0 <= j < |lines[i]| ==> lines[i][j] != 'S') ==> SourceCol(lines) == 0
    ensures (exists i, j :: 0 <= i < |lines| && 0 <= j < |lines[i]| && lines[i][j] == 'S') ==>
              exists i: nat :: LastSourceAt(lines, i, SourceCol(lines))
  {
    if |lines| > 0 {
      var n := |lines| - 1;
      var prefix := lines[..n];
      var last := lines[n];
      SourceColIsLast(prefix);
      LastSourceIsLast(last, SourceCol(prefix));
      if exists j :: 0 <= j < |last| && last[j] == 'S' {
        assert LastSourceAt(lines, n, SourceCol(lines));
      } else if exists i, j :: 0 <= i < |lines| && 0 <= j < |lines[i]| && lines[i][j] == 'S' {
        var i, j :| 0 <= i < |lines| && 0 <= j < |lines[i]| && lines[i][j] == 'S';
        assert i < n && prefix[i][j] == 'S';
        var k: nat :| LastSourceAt(prefix, k, SourceCol(prefix));
        assert forall i' :: 0 <= i' < n ==> lines[i'] == prefix[i'];
        assert LastSourceAt(lines, k, SourceCol(lines));
      } else {
        forall i, j | 0 <= i < n && 0 <= j < |prefix[i]|
          ensures prefix[i][j] != 'S'
        {
          assert prefix[i] == lines[i];
        }
      }
    }
  }

  /** A trailing empty line, past the last row or not, changes nothing:
      the input still parses, to the same layout and source column. */
  lemma TrailingBlankLine(lines: seq<string>, height: nat, width: nat)
    requires LayoutParses(lines, height, width)
    ensures LayoutParses(lines + [""], height, width)
    ensures Layout(lines + [""], height, width) == Layout(lines, height, width)
    ensures SourceCol(lines + [""]) == SourceCol(lines)
  {
    var padded := lines + [""];
    assert padded[..|lines|] == lines;
    forall i, j | 0 <= i < height && 0 <= j < width
      ensures LayoutCell(padded, i, j) == LayoutCell(lines, i, j)
    {
      if i < |lines| {
        assert padded[i] == lines[i];
      }
    }
    var a, b := Layout(padded, height, width), Layout(lines, height, width);
    assert forall i :: 0 <= i < height ==> a[i] == b[i];
  }

  /** `parse_manifold_layout`: each character is written to its cell of a
      diagram of `Empty` cells, and the column of every `S` met is
      remembered. */
  method ParseManifoldLayout(lines: seq<string>, height: nat, width: nat) returns (layout: Grid<Cell>, sourceJ: nat)
    requires LayoutParses(lines, height, width)
    ensures fresh(layout.cells) && layout.Height() == height && layout.Width() == width
    ensures layout.Cells() == Layout(lines, height, width)
    ensures sourceJ == SourceCol(lines)
  {
    layout := new Grid<Cell>.Create(height, width, Empty);
    sourceJ := 0;
    for i := 0 to |lines|
      invariant forall a, b :: 0 <= a < height && 0 <= b < width ==>
                  layout.cells[a, b] == (if a < i then LayoutCell(lines, a, b) else Empty)
      invariant sourceJ == SourceCol(lines[..i])
    {
      assert lines[..i + 1][..i] == lines[..i];
      sourceJ := ParseRow(layout, lines, height, width, i, sourceJ);
    }
    assert lines[..|lines|] == lines;
    ghost var expected := Layout(lines, height, width);
    assert forall a :: 0 <= a < height ==> layout.Cells()[a] == expected[a];
  }

  /** One round of the outer loop of `parse_manifold_layout`: the cells
      of line `i` are written in order, and the column of its last `S`,
      if any, replaces `start`. */
  method ParseRow(layout: Grid<Cell>, lines: seq<string>, height: nat, width: nat, i: nat, start: nat)
    returns (sourceJ: nat)
    requires LayoutParses(lines, height, width) && i < |lines|
    requires layout.Height() == height && layout.Width() == width
    requires forall a, b :: 0 <= a < height && 0 <= b < width ==>
               layout.cells[a, b] == (if a < i then LayoutCell(lines, a, b) else Empty)
    modifies layout.cells
    ensures forall a, b :: 0 <= a < height && 0 <= b < width ==>
              layout.cells[a, b] == (if a < i + 1 then LayoutCell(lines, a, b) else Empty)
    ensures sourceJ == LastSource(lines[i], start)
  {
    var line := lines[i];
    sourceJ := start;
    for j := 0 to |line|
      invariant forall a, b :: 0 <= a < height && 0 <= b < width ==>
                  layout.cells[a, b] == (if a < i || (a == i && b < j) then LayoutCell(lines, a, b) else Empty)
      invariant sourceJ == LastSource(line[..j], start)
    {
      assert line[..j + 1][..j] == line[..j];
      var cell := CellOf(line[j]).value;
      if line[j] == 'S' {
        sourceJ := j;
      }
      var _ := layout.Set((i, j), cell);
    }
    assert line[..|line|] == line;
  }

  /* Beam propagation. */

  /** `get((row, j))` is `Ok(Splitter)`. */
  predicate IsSplitterAt(rows: seq<seq<Cell>>, r: nat, j: nat)
  {
    r < |rows| && j < |rows[r]| && rows[r][j] == Splitter
  }

  /** `push_if_not_present`: `elem` is afterwards in the vector; it is
      appended only when it was not there. */
  function PushIfNotPresent(vec: seq<nat>, elem: nat): (r: seq<nat>)
    ensures elem in r
    ensures forall x :: x in r <==> x in vec || x == elem
    ensures |vec| <= |r| <= |vec| + 1 && r[..|vec|] == vec
    ensures elem in vec ==> r == vec
  {
    if elem in vec then vec else vec + [elem]
  }

  /** The splitter at `(r, j)` sends a beam on from `(r, x)`, or the beam
      in column `j` carries on to the next row in column `x`. */
  predicate Feeds(rows: seq<seq<Cell>>, r: nat, j: nat, x: nat)
  {
    if IsSplitterAt(rows, r, j) && j >= 1 then x + 1 == j || x == j + 1 else x == j
  }

  /** The ends of the next row, built from `ends` in order: a splitter
      adds its left and right columns unless already present, any other
      cell adds its own column. */
  function StepEnds(rows: seq<seq<Cell>>, r: nat, ends: seq<nat>): seq<nat>
  {
    if |ends| == 0 then []
    else
      var acc := StepEnds(rows, r, ends[..|ends| - 1]);
      var j := ends[|ends| - 1];
      if IsSplitterAt(rows, r, j) && j >= 1 then PushIfNotPresent(PushIfNotPresent(acc, j - 1), j + 1)
      else acc + [j]
  }

  /** A column is among the next ends exactly when some end feeds it. */
  lemma {:induction false} StepEndsMembers(rows: seq<seq<Cell>>, r: nat, ends: seq<nat>, x: nat)
    ensures x in StepEnds(rows, r, ends) <==> exists k :: 0 <= k < |ends| && Feeds(rows, r, ends[k], x)
  {
    if |ends| > 0 {
      var prefix := ends[..|ends| - 1];
      StepEndsMembers(rows, r, prefix, x);
      StepEndsLast(rows, r, ends, x);
      assert forall k :: 0 <= k < |prefix| ==> prefix[k] == ends[k];
    }
  }

  lemma StepEndsLast(rows: seq<seq<Cell>>, r: nat, ends: seq<nat>, x: nat)
    requires |ends| > 0
    ensures x in StepEnds(rows, r, ends) <==>
              x in StepEnds(rows, r, ends[..|ends| - 1]) || Feeds(rows, r, ends[|ends| - 1], x)
  {
  }

  /** `beam_ends` at the start of row `r`. */
  function Ends(rows: seq<seq<Cell>>, sourceCol: nat, r: nat): seq<nat>
  {
    if r == 0 then [sourceCol] else StepEnds(rows, r - 1, Ends(rows, sourceCol, r - 1))
  }

  /** The end `j` of row `r` marks cell `c` of that row: its own cell, and
      for a splitter both neighbours. */
  predicate MarkedBy(rows: seq<seq<Cell>>, r: nat, j: nat, c: nat)
  {
    c == j || (IsSplitterAt(rows, r, j) && j >= 1 && (c + 1 == j || c == j + 1))
  }

  predicate MarkedByAny(rows: seq<seq<Cell>>, r: nat, ends: seq<nat>, c: nat)
  {
    exists k :: 0 <= k < |ends| && MarkedBy(rows, r, ends[k], c)
  }

  /** Row `r` of the beam path diagram: the cells its ends mark. */
  function BeamRow(rows: seq<seq<Cell>>, sourceCol: nat, r: nat, width: nat): (marks: seq<bool>)
    ensures |marks| == width
    ensures forall c :: 0 <= c < width ==> marks[c] == MarkedByAny(rows, r, Ends(rows, sourceCol, r), c)
  {
    seq(width, c requires 0 <= c < width => MarkedByAny(rows, r, Ends(rows, sourceCol, r), c))
  }

  /** The beam path diagram `propagate_beam` returns. */
  function BeamPaths(rows: seq<seq<Cell>>, sourceCol: nat, height: nat, width: nat): (paths: seq<seq<bool>>)
    ensures IsGrid(paths, height, width)
    ensures forall r :: 0 <= r < height ==> paths[r] == BeamRow(rows, sourceCol, r, width)
  {
    seq(height, r requires 0 <= r < height => BeamRow(rows, sourceCol, r, width))
  }

  /** Every end of row `r` lies inside the diagram, and so do the
      neighbours of every splitter it meets (`j - 1` and `set(j + 1)` panic
      otherwise). */
  predicate EndsInside(rows: seq<seq<Cell>>, r: nat, ends: seq<nat>, width: nat)
  {
    forall k :: 0 <= k < |ends| ==>
      ends[k] < width && (IsSplitterAt(rows, r, ends[k]) ==> 1 <= ends[k] && ends[k] + 1 < width)
  }

  /** `propagate_beam` does not panic. */
  predicate BeamInside(rows: seq<seq<Cell>>, sourceCol: nat, height: nat, width: nat)
  {
    forall r :: 0 <= r < height ==> EndsInside(rows, r, Ends(rows, sourceCol, r), width)
  }

  lemma MarkedByAnySnoc(rows: seq<seq<Cell>>, r: nat, ends: seq<nat>, k: nat, c: nat)
    requires k < |ends|
    ensures MarkedByAny(rows, r, ends[..k + 1], c) <==> MarkedByAny(rows, r, ends[..k], c) || MarkedBy(rows, r, ends[k], c)
  {
    var a, b := ends[..k + 1], ends[..k];
    if MarkedByAny(rows, r, a, c) {
      var m :| 0 <= m < |a| && MarkedBy(rows, r, a[m], c);
      if m < k {
        assert b[m] == a[m];
      }
    }
    if MarkedByAny(rows, r, b, c) {
      var m :| 0 <= m < |b| && MarkedBy(rows, r, b[m], c);
      assert a[m] == b[m];
    }
    if MarkedBy(rows, r, ends[k], c) {
      assert a[k] == ends[k];
    }
  }

  /** The two `set`s of a splitter at `(row, j)`: its left and right
      neighbours are marked. */
  method MarkNeighbours(beamPaths: Grid<bool>, row: nat, j: nat)
    requires row < beamPaths.Height() && 1 <= j && j + 1 < beamPaths.Width()
    modifies beamPaths.cells
    ensures forall a, b :: 0 <= a < beamPaths.Height() && 0 <= b < beamPaths.Width() ==>
              beamPaths.cells[a, b] == (old(beamPaths.cells[a, b]) || (a == row && (b + 1 == j || b == j + 1)))
  {
    var _ := beamPaths.Set((row, j - 1), true);
    var _ := beamPaths.Set((row, j + 1), true);
  }

  /** The body of the inner `for_each` for the end `j`: its cell is
      marked; a splitter also marks its neighbours and pushes them, unless
      already present, as ends of the next row; any other cell pushes `j`. */
  method SpreadEnd(layout: Grid<Cell>, ghost rows: seq<seq<Cell>>, beamPaths: Grid<bool>, row: nat, j: nat, ends: seq<nat>)
    returns (next: seq<nat>)
    requires rows == layout.Cells()
    requires row < layout.Height() && beamPaths.Height() == layout.Height() && beamPaths.Width() == layout.Width()
    requires j < layout.Width() && (IsSplitterAt(rows, row, j) ==> 1 <= j && j + 1 < layout.Width())
    modifies beamPaths.cells
    ensures next == if IsSplitterAt(rows, row, j) && j >= 1 then PushIfNotPresent(PushIfNotPresent(ends, j - 1), j + 1) else ends + [j]
    ensures forall a, b :: 0 <= a < beamPaths.Height() && 0 <= b < beamPaths.Width() ==>
              beamPaths.cells[a, b] == (old(beamPaths.cells[a, b]) || (a == row && MarkedBy(rows, row, j, b)))
  {
    var _ := beamPaths.Set((row, j), true);
    if layout.Get((row, j)) == Ok(Splitter) {
      next := PushIfNotPresent(ends, j - 1);
      next := PushIfNotPresent(next, j + 1);
      MarkNeighbours(beamPaths, row, j);
    } else {
      next := ends + [j];
    }
  }

  /** One row of `propagate_beam`: the ends are spread one after the
      other. */
  method SpreadRow(layout: Grid<Cell>, ghost rows: seq<seq<Cell>>, beamPaths: Grid<bool>, row: nat, beamEnds: seq<nat>)
    returns (newBeamEnds: seq<nat>)
    requires rows == layout.Cells()
    requires row < layout.Height() && beamPaths.Height() == layout.Height() && beamPaths.Width() == layout.Width()
    requires EndsInside(rows, row, beamEnds, layout.Width())
    requires forall b :: 0 <= b < beamPaths.Width() ==> !beamPaths.cells[row, b]
    modifies beamPaths.cells
    ensures newBeamEnds == StepEnds(rows, row, beamEnds)
    ensures forall b :: 0 <= b < beamPaths.Width() ==> beamPaths.cells[row, b] == MarkedByAny(rows, row, beamEnds, b)
    ensures forall a, b :: 0 <= a < beamPaths.Height() && 0 <= b < beamPaths.Width() && a != row ==>
              beamPaths.cells[a, b] == old(beamPaths.cells[a, b])
  {
    var height, width := beamPaths.Height(), beamPaths.Width();
    newBeamEnds := [];
    for k := 0 to |beamEnds|
      invariant rows == layout.Cells()
      invariant newBeamEnds == StepEnds(rows, row, beamEnds[..k])
      invariant forall b :: 0 <= b < width ==> beamPaths.cells[row, b] == MarkedByAny(rows, row, beamEnds[..k], b)
      invariant forall a, b :: 0 <= a < height && 0 <= b < width && a != row ==> beamPaths.cells[a, b] == old(beamPaths.cells[a, b])
    {
      var next := SpreadEnd(layout, rows, beamPaths, row, beamEnds[k], newBeamEnds);
      StepEndsSnoc(rows, row, beamEnds, k, newBeamEnds, next);
      newBeamEnds := next;
      forall b | 0 <= b < width
        ensures MarkedByAny(rows, row, beamEnds[..k + 1], b) <==> MarkedByAny(rows, row, beamEnds[..k], b) || MarkedBy(rows, row, beamEnds[k], b)
      {
        MarkedByAnySnoc(rows, row, beamEnds, k, b);
      }
    }
    assert beamEnds[..|beamEnds|] == beamEnds;
  }

  /** One more end spreads on top of the ends before it. */
  lemma StepEndsSnoc(rows: seq<seq<Cell>>, r: nat, ends: seq<nat>, k: nat, acc: seq<nat>, next: seq<nat>)
    requires k < |ends| && acc == StepEnds(rows, r, ends[..k])
    requires next == if IsSplitterAt(rows, r, ends[k]) && ends[k] >= 1
                     then PushIfNotPresent(PushIfNotPresent(acc, ends[k] - 1), ends[k] + 1)
                     else acc + [ends[k]]
    ensures next == StepEnds(rows, r, ends[..k + 1])
  {
    assert ends[..k + 1][..k] == ends[..k];
  }

  /** `propagate_beam`: starting from the source column, mark each row's
      beam cells and compute the next row's ends. */
  method PropagateBeam(layout: Grid<Cell>, sourceCol: nat) returns (beamPaths: Grid<bool>)
    requires BeamInside(layout.Cells(), sourceCol, layout.Height(), layout.Width())
    ensures fresh(beamPaths.cells) && beamPaths.Height() == layout.Height() && beamPaths.Width() == layout.Width()
    ensures beamPaths.Cells() == BeamPaths(layout.Cells(), sourceCol, layout.Height(), layout.Width())
  {
    var height, width := layout.Height(), layout.Width();
    ghost var rows := layout.Cells();
    ghost var expected := BeamPaths(rows, sourceCol, height, width);
    beamPaths := new Grid<bool>.Create(height, width, false);
    var beamEnds := [sourceCol];
    for row := 0 to height
      invariant fresh(beamPaths.cells)
      invariant beamEnds == Ends(rows, sourceCol, row)
      invariant forall a, b :: 0 <= a < row && 0 <= b < width ==> beamPaths.cells[a, b] == expected[a][b]
      invariant forall a, b :: row <= a < height && 0 <= b < width ==> !beamPaths.cells[a, b]
    {
      assert EndsInside(rows, row, beamEnds, width);
      beamEnds := SpreadRow(layout, rows, beamPaths, row, beamEnds);
      forall b | 0 <= b < width
        ensures beamPaths.cells[row, b] == expected[row][b]
      {
        BeamPathsCell(rows, sourceCol, height, width, row, b);
      }
    }
    assert forall a :: 0 <= a < height ==> beamPaths.Cells()[a] == expected[a];
  }

  /* Counting splits. */

  /** `count_splits` does not panic: no splitter in row 0 (`i - 1`). */
  predicate NoTopSplitter(rows: seq<seq<Cell>>)
  {
    forall j :: 0 <= j < (if |rows| > 0 then |rows[0]| else 0) ==> rows[0][j] != Splitter
  }

  /** The filter of `count_splits`: a splitter whose cell directly above
      is marked. */
  predicate Hit(rows: seq<seq<Cell>>, paths: seq<seq<bool>>, c: Coords)
  {
    IsSplitterAt(rows, c.0, c.1) && c.0 >= 1 && c.0 - 1 < |paths| && c.1 < |paths[c.0 - 1]| && paths[c.0 - 1][c.1]
  }

  /** `count_splits` as written. */
  function CountSplits(rows: seq<seq<Cell>>, paths: seq<seq<bool>>, height: nat, width: nat): (n: nat)
    requires IsGrid(rows, height, width) && NoTopSplitter(rows)
    ensures n <= height * width
  {
    CountWhere(IterCoords(height, width), c => Hit(rows, paths, c))
  }

  /** A splitter the beam actually reaches: its column is an end of its
      row. */
  predicate Reached(rows: seq<seq<Cell>>, sourceCol: nat, c: Coords)
  {
    IsSplitterAt(rows, c.0, c.1) && c.1 in Ends(rows, sourceCol, c.0)
  }

  /** The number of splits: the splitters the beam reaches. */
  function CountReachedSplitters(rows: seq<seq<Cell>>, sourceCol: nat, height: nat, width: nat): nat
  {
    CountWhere(IterCoords(height, width), c => Reached(rows, sourceCol, c))
  }

  function ReachedSplitters(rows: seq<seq<Cell>>, sourceCol: nat, height: nat, width: nat): set<Coords>
  {
    set c | c in IterCoords(height, width) && Reached(rows, sourceCol, c)
  }

  /** The count is the number of splitter cells of the diagram that the
      beam reaches. */
  lemma CountReachedIsCard(rows: seq<seq<Cell>>, sourceCol: nat, height: nat, width: nat)
    ensures CountReachedSplitters(rows, sourceCol, height, width) == |ReachedSplitters(rows, sourceCol, height, width)|
  {
    var p := c => Reached(rows, sourceCol, c);
    CountWhereIterCoords(height, width, p);
    assert (set c | c in IterCoords(height, width) && p(c)) == ReachedSplitters(rows, sourceCol, height, width);
  }

  /** A cell of the beam path diagram is marked by some end of its row. */
  lemma BeamPathsCell(rows: seq<seq<Cell>>, sourceCol: nat, height: nat, width: nat, r: nat, c: nat)
    requires r < height && c < width
    ensures BeamPaths(rows, sourceCol, height, width)[r][c] == MarkedByAny(rows, r, Ends(rows, sourceCol, r), c)
  {
  }

  /** An end of row `r` is marked in the row above. */
  lemma EndMarkedAbove(rows: seq<seq<Cell>>, sourceCol: nat, r: nat, j: nat)
    requires j in Ends(rows, sourceCol, r + 1)
    ensures MarkedByAny(rows, r, Ends(rows, sourceCol, r), j)
  {
    FedIsMarked(rows, r, Ends(rows, sourceCol, r), j);
  }

  /** A next end is marked by the end that feeds it. */
  lemma FedIsMarked(rows: seq<seq<Cell>>, r: nat, ends: seq<nat>, j: nat)
    requires j in StepEnds(rows, r, ends)
    ensures MarkedByAny(rows, r, ends, j)
  {
    StepEndsMembers(rows, r, ends, j);
    var k :| 0 <= k < |ends| && Feeds(rows, r, ends[k], j);
    assert MarkedBy(rows, r, ends[k], j);
  }

  /** Every reached splitter below row 0 has a marked cell above it. */
  lemma ReachedIsHit(rows: seq<seq<Cell>>, sourceCol: nat, height: nat, width: nat, c: Coords)
    requires IsGrid(rows, height, width) && ContainsCoords(height, width, c) && c.0 >= 1
    requires Reached(rows, sourceCol, c)
    ensures Hit(rows, BeamPaths(rows, sourceCol, height, width), c)
  {
    var r := c.0 - 1;
    assert Ends(rows, sourceCol, r + 1) == Ends(rows, sourceCol, c.0);
    EndMarkedAbove(rows, sourceCol, r, c.1);
    BeamPathsCell(rows, sourceCol, height, width, r, c.1);
  }

  /** Conversely, a cell marked in row `r - 1` is an end of row `r`,
      unless it is a splitter's own cell. */
  lemma MarkedAboveIsEnd(rows: seq<seq<Cell>>, sourceCol: nat, r: nat, j: nat)
    requires r >= 1
    requires MarkedByAny(rows, r - 1, Ends(rows, sourceCol, r - 1), j) && !IsSplitterAt(rows, r - 1, j)
    ensures j in Ends(rows, sourceCol, r)
  {
    MarkedIsFed(rows, r - 1, Ends(rows, sourceCol, r - 1), j);
  }

  /** A marked cell that is not a splitter's own cell is fed by the end
      that marks it. */
  lemma MarkedIsFed(rows: seq<seq<Cell>>, r: nat, ends: seq<nat>, j: nat)
    requires MarkedByAny(rows, r, ends, j) && !IsSplitterAt(rows, r, j)
    ensures j in StepEnds(rows, r, ends)
  {
    var k :| 0 <= k < |ends| && MarkedBy(rows, r, ends[k], j);
    assert Feeds(rows, r, ends[k], j);
    StepEndsMembers(rows, r, ends, j);
  }

  /** Where no splitter sits directly below another, a splitter with a
      marked cell above is one the beam reaches. */
  lemma HitIsReached(rows: seq<seq<Cell>>, sourceCol: nat, height: nat, width: nat, c: Coords)
    requires IsGrid(rows, height, width) && NoStackedSplitters(rows)
    requires Hit(rows, BeamPaths(rows, sourceCol, height, width), c)
    ensures Reached(rows, sourceCol, c)
  {
    HitIsMarked(rows, sourceCol, height, width, c);
    MarkedSplitterIsReached(rows, sourceCol, c);
  }

  /** A splitter whose cell above is marked, with no splitter stacked on it,
      is reached. */
  lemma MarkedSplitterIsReached(rows: seq<seq<Cell>>, sourceCol: nat, c: Coords)
    requires NoStackedSplitters(rows) && c.0 >= 1 && IsSplitterAt(rows, c.0, c.1)
    requires MarkedByAny(rows, c.0 - 1, Ends(rows, sourceCol, c.0 - 1), c.1)
    ensures Reached(rows, sourceCol, c)
  {
    assert !StackedAt(rows, c.0, c.1);
    MarkedAboveIsEnd(rows, sourceCol, c.0, c.1);
  }

  /** The marked cell above a hit splitter is marked by an end of that row. */
  lemma HitIsMarked(rows: seq<seq<Cell>>, sourceCol: nat, height: nat, width: nat, c: Coords)
    requires Hit(rows, BeamPaths(rows, sourceCol, height, width), c)
    ensures c.0 >= 1 && IsSplitterAt(rows, c.0, c.1)
    ensures MarkedByAny(rows, c.0 - 1, Ends(rows, sourceCol, c.0 - 1), c.1)
  {
    BeamPathsCell(rows, sourceCol, height, width, c.0 - 1, c.1);
  }

  /** A splitter at `(i, j)` with another directly above it. */
  predicate StackedAt(rows: seq<seq<Cell>>, i: nat, j: nat)
  {
    i >= 1 && IsSplitterAt(rows, i, j) && IsSplitterAt(rows, i - 1, j)
  }

  predicate NoStackedSplitters(rows: seq<seq<Cell>>)
  {
    forall i: nat, j: nat :: i < |rows| && j < |rows[i]| ==> !StackedAt(rows, i, j)
  }

  /** `count_splits` never misses a split; it counts exactly the splits
      when no two splitters are stacked. */
  lemma CountSplitsBounds(rows: seq<seq<Cell>>, sourceCol: nat, height: nat, width: nat)
    requires IsGrid(rows, height, width) && NoTopSplitter(rows) && BeamInside(rows, sourceCol, height, width)
    ensures CountReachedSplitters(rows, sourceCol, height, width)
            <= CountSplits(rows, BeamPaths(rows, sourceCol, height, width), height, width)
    ensures NoStackedSplitters(rows) ==>
              CountSplits(rows, BeamPaths(rows, sourceCol, height, width), height, width)
              == CountReachedSplitters(rows, sourceCol, height, width)
  {
    var cs := IterCoords(height, width);
    var paths := BeamPaths(rows, sourceCol, height, width);
    var reached := c => Reached(rows, sourceCol, c);
    var hit := c => Hit(rows, paths, c);
    forall c | c in cs && reached(c)
      ensures hit(c)
    {
      ReachedIsHit(rows, sourceCol, height, width, c);
    }
    CountWhereMono(cs, reached, hit);
    if NoStackedSplitters(rows) {
      forall c | c in cs && hit(c)
        ensures reached(c)
      {
        HitIsReached(rows, sourceCol, height, width, c);
      }
      CountWhereMono(cs, hit, reached);
    }
  }

  /** A splitter cell `j` of row `r` feeds no column `j` of the next row,
      nor does any end of a row that has no splitter beside `j`. */
  lemma SplitterColumnNotFed(rows: seq<seq<Cell>>, r: nat, ends: seq<nat>, j: nat)
    requires IsSplitterAt(rows, r, j) && j >= 1
    requires !IsSplitterAt(rows, r, j + 1) && !IsSplitterAt(rows, r, j - 1)
    ensures j !in StepEnds(rows, r, ends)
  {
    forall k | 0 <= k < |ends|
      ensures !Feeds(rows, r, ends[k], j)
    {
      SplitterColumnNotFedBy(rows, r, ends[k], j);
    }
    StepEndsMembers(rows, r, ends, j);
  }

  /** No single end feeds such a splitter column. */
  lemma SplitterColumnNotFedBy(rows: seq<seq<Cell>>, r: nat, e: nat, j: nat)
    requires IsSplitterAt(rows, r, j) && j >= 1
    requires !IsSplitterAt(rows, r, j + 1) && !IsSplitterAt(rows, r, j - 1)
    ensures !Feeds(rows, r, e, j)
  {
    if e == j + 1 || e == j - 1 {
      assert !IsSplitterAt(rows, r, e);
    } else if e != j {
      assert j + 1 != e && j != e + 1;
    }
  }

  /** One splitter that is hit but not reached makes `count_splits` count
      more than the reached splitters. */
  lemma HitUnreachedOvercounts(rows: seq<seq<Cell>>, sourceCol: nat, height: nat, width: nat, c: Coords)
    requires IsGrid(rows, height, width) && NoTopSplitter(rows) && ContainsCoords(height, width, c)
    requires Hit(rows, BeamPaths(rows, sourceCol, height, width), c) && !Reached(rows, sourceCol, c)
    ensures CountReachedSplitters(rows, sourceCol, height, width)
            < CountSplits(rows, BeamPaths(rows, sourceCol, height, width), height, width)
  {
    var paths := BeamPaths(rows, sourceCol, height, width);
    var cs := IterCoords(height, width);
    var reached := c => Reached(rows, sourceCol, c);
    var hit := c => Hit(rows, paths, c);
    forall c | c in cs && reached(c)
      ensures hit(c)
    {
      ReachedIsHit(rows, sourceCol, height, width, c);
    }
    CountWhereStrict(cs, reached, hit, c);
  }

  /** A splitter directly below a reached splitter, with no splitter
      beside the upper one, is counted by `count_splits` although the beam
      never reaches it: the count is then too high. */
  lemma StackedSplitterOvercounts(rows: seq<seq<Cell>>, sourceCol: nat, height: nat, width: nat, r: nat, j: nat)
    requires IsGrid(rows, height, width) && NoTopSplitter(rows) && BeamInside(rows, sourceCol, height, width)
    requires r + 1 < height && j < width && Reached(rows, sourceCol, (r, j)) && IsSplitterAt(rows, r + 1, j)
    requires !IsSplitterAt(rows, r, j + 1) && (j >= 1 ==> !IsSplitterAt(rows, r, j - 1))
    ensures CountReachedSplitters(rows, sourceCol, height, width)
            < CountSplits(rows, BeamPaths(rows, sourceCol, height, width), height, width)
  {
    var ends := Ends(rows, sourceCol, r);
    var k :| 0 <= k < |ends| && ends[k] == j;
    assert EndsInside(rows, r, ends, width);
    assert MarkedBy(rows, r, ends[k], j);
    BeamPathsCell(rows, sourceCol, height, width, r, j);
    SplitterColumnNotFed(rows, r, ends, j);
    HitUnreachedOvercounts(rows, sourceCol, height, width, (r + 1, j));
  }

  /* The whole computation. */

  /** `calculate_result` does not panic. */
  predicate ValidInput(lines: seq<string>, height: nat, width: nat)
  {
    && LayoutParses(lines, height, width)
    && BeamInside(Layout(lines, height, width), SourceCol(lines), height, width)
    && NoTopSplitter(Layout(lines, height, width))
  }

  /** `calculate_result`: parse, propagate the beam, count the splitters
      under a marked cell. */
  method CalculateResult(lines: seq<string>, height: nat, width: nat) returns (nSplits: nat)
    requires ValidInput(lines, height, width)
    ensures nSplits == CountSplits(Layout(lines, height, width),
                                   BeamPaths(Layout(lines, height, width), SourceCol(lines), height, width), height, width)
  {
    var layout, sourceCol := ParseManifoldLayout(lines, height, width);
    var beamPaths := PropagateBeam(layout, sourceCol);
    nSplits := CountSplits(layout.Cells(), beamPaths.Cells(), height, width);
  }
}
