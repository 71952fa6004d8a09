/**
 * Day 7, part 2 (src/bin/day_07_2.rs): every splitter the beam meets
 * splits the timeline in two; the answer counts the timelines that leave
 * the bottom of the diagram. A walk down one column is memoised per cell.
 *
 * The layout, its parser and the source column are those of part 1.
 */
module Day07Part2 {
  import opened Wrappers
  import opened CoordGrid
  import opened Day07Part1

  /* The number of timelines. */

  /** Whether a walk that has reached row `r` meets a splitter in column
      `c` there. */
  function SplitterAt(s: seq<seq<bool>>, r: nat, c: nat): bool
  {
    r < |s| && c < |s[r]| && s[r][c]
  }

  /** The walk of `count_multiverses_inner` from row `r`, column `c` ends
      without panicking: inside the diagram it stays in a column below
      `width`, and at every splitter it meets `col - 1` does not underflow,
      `col + 1` is a column, neither side is a splitter (the walk started
      there would call the walk at the splitter again before anything is
      cached, without end), and both walks started beside it end.
      Splitters no walk meets are never read and may lie anywhere. */
  predicate WalkEnds(s: seq<seq<bool>>, width: nat, r: nat, c: nat)
    requires IsGrid(s, |s|, width)
    decreases 2 * (|s| - r) + (if SplitterAt(s, r, c) then 1 else 0)
  {
    r >= |s| ||
    (c < width &&
     if s[r][c] then
       1 <= c && c + 1 < width && !s[r][c - 1] && !s[r][c + 1]
       && WalkEnds(s, width, r, c - 1) && WalkEnds(s, width, r, c + 1)
     else WalkEnds(s, width, r + 1, c))
  }

  /** The timelines of a beam entering row `r` in column `c`: one when it
      leaves the bottom, the sum of both sides at a splitter, and otherwise
      those of the cell below. */
  function Timelines(s: seq<seq<bool>>, width: nat, r: nat, c: nat): nat
    requires IsGrid(s, |s|, width) && WalkEnds(s, width, r, c)
    decreases 2 * (|s| - r) + (if SplitterAt(s, r, c) then 1 else 0)
  {
    if r >= |s| then 1
    else if s[r][c] then Timelines(s, width, r, c - 1) + Timelines(s, width, r, c + 1)
    else Timelines(s, width, r + 1, c)
  }

  /** Every walk yields at least one timeline. */
  lemma {:induction false} TimelinesPositive(s: seq<seq<bool>>, width: nat, r: nat, c: nat)
    requires IsGrid(s, |s|, width) && WalkEnds(s, width, r, c)
    ensures Timelines(s, width, r, c) >= 1
    decreases 2 * (|s| - r) + (if SplitterAt(s, r, c) then 1 else 0)
  {
    if r < |s| {
      if s[r][c] {
        TimelinesPositive(s, width, r, c - 1);
        TimelinesPositive(s, width, r, c + 1);
      } else {
        TimelinesPositive(s, width, r + 1, c);
      }
    }
  }

  /** A column with no splitter from row `r` down: the walk ends, with
      one timeline. */
  lemma {:induction false} TimelinesClearColumn(s: seq<seq<bool>>, width: nat, r: nat, c: nat)
    requires IsGrid(s, |s|, width) && c < width
    requires forall i :: r <= i < |s| ==> !s[i][c]
    ensures WalkEnds(s, width, r, c) && Timelines(s, width, r, c) == 1
    decreases |s| - r
  {
    if r < |s| {
      TimelinesClearColumn(s, width, r + 1, c);
    }
  }

  /** A walk down rows `lo` to `hi - 1` of column `c` that meets no
      splitter reaches row `hi` and has its timelines. */
  lemma {:induction false} TimelinesAcross(s: seq<seq<bool>>, width: nat, lo: nat, hi: nat, c: nat)
    requires IsGrid(s, |s|, width) && c < width && lo <= hi <= |s|
    requires WalkEnds(s, width, lo, c)
    requires forall i :: lo <= i < hi ==> !s[i][c]
    ensures WalkEnds(s, width, hi, c)
    ensures Timelines(s, width, lo, c) == Timelines(s, width, hi, c)
    decreases hi - lo
  {
    if lo < hi {
      TimelinesAcross(s, width, lo + 1, hi, c);
    }
  }

  /** Every row of a splitter-free walk down to row `hi` has the
      timelines of row `hi`. */
  lemma WalkedRows(s: seq<seq<bool>>, width: nat, lo: nat, hi: nat, c: nat)
    requires IsGrid(s, |s|, width) && c < width && lo <= hi <= |s|
    requires WalkEnds(s, width, lo, c)
    requires forall i :: lo <= i < hi ==> !s[i][c]
    ensures WalkEnds(s, width, hi, c)
    ensures forall r :: lo <= r <= hi ==>
              WalkEnds(s, width, r, c) && Timelines(s, width, r, c) == Timelines(s, width, hi, c)
  {
    TimelinesAcross(s, width, lo, hi, c);
    forall r | lo <= r <= hi
      ensures WalkEnds(s, width, r, c) && Timelines(s, width, r, c) == Timelines(s, width, hi, c)
    {
      TimelinesAcross(s, width, lo, r, c);
      TimelinesAcross(s, width, r, hi, c);
    }
  }

  /** No splitter in the first or last column, and no two splitters side
      by side: the condition on every splitter of the diagram. */
  predicate WellSpaced(s: seq<seq<bool>>, width: nat)
    requires IsGrid(s, |s|, width)
  {
    forall i, j :: 0 <= i < |s| && 0 <= j < width && s[i][j] ==>
      1 <= j && j + 1 < width && !s[i][j - 1] && !s[i][j + 1]
  }

  /** When every splitter of the diagram is well spaced, every walk
      inside it ends. */
  lemma {:induction false} WellSpacedWalkEnds(s: seq<seq<bool>>, width: nat, r: nat, c: nat)
    requires IsGrid(s, |s|, width) && WellSpaced(s, width) && (r >= |s| || c < width)
    ensures WalkEnds(s, width, r, c)
    decreases 2 * (|s| - r) + (if SplitterAt(s, r, c) then 1 else 0)
  {
    if r < |s| {
      if s[r][c] {
        WellSpacedWalkEnds(s, width, r, c - 1);
        WellSpacedWalkEnds(s, width, r, c + 1);
      } else {
        WellSpacedWalkEnds(s, width, r + 1, c);
      }
    }
  }

  /** A splitter the walk never meets is not read: with one in column 0
      of row 1 and the beam in column 2 the walk ends with one timeline,
      though the diagram is not well spaced. */
  lemma UnreachedSplitterIgnored(s: seq<seq<bool>>)
    requires s == [[false, false, false, false, false], [true, false, false, false, false]]
    ensures IsGrid(s, 2, 5) && !WellSpaced(s, 5)
    ensures WalkEnds(s, 5, 0, 2) && Timelines(s, 5, 0, 2) == 1
  {
    assert s[1][0];
    TimelinesClearColumn(s, 5, 0, 2);
  }

  /* The memoised walk. */

  /** The splitter array holds the layout `s`. */
  predicate Holds(splitters: array2<bool>, s: seq<seq<bool>>)
    reads splitters
  {
    && splitters.Length0 == |s|
    && forall i, j :: 0 <= i < splitters.Length0 && 0 <= j < splitters.Length1 ==>
         j < |s[i]| && splitters[i, j] == s[i][j]
  }

  /** Every cell with a value in the cache is one whose walk ends, and
      the value is the number of timelines of the cell. */
  predicate CacheValid(cache: array2<Option<nat>>, s: seq<seq<bool>>, width: nat)
    reads cache
    requires IsGrid(s, |s|, width)
  {
    forall i, j :: 0 <= i < cache.Length0 && 0 <= j < cache.Length1 && cache[i, j].Some? ==>
      i < |s| && j < width && WalkEnds(s, width, i, j) && cache[i, j].value == Timelines(s, width, i, j)
  }

  /** `count_multiverses_inner`: walk down column `col` from `startRow`
      until a cached cell (its value is the answer) or a splitter (the sum
      of the walks started on either side of it) or the bottom (one
      timeline); then cache the answer for every row walked. */
  method CountMultiversesInner(splitters: array2<bool>, ghost s: seq<seq<bool>>, startRow: nat, col: nat,
                               cache: array2<Option<nat>>)
    returns (result: nat)
    requires IsGrid(s, |s|, splitters.Length1) && Holds(splitters, s)
    requires cache.Length0 == splitters.Length0 && cache.Length1 == splitters.Length1
    requires startRow <= |s| && WalkEnds(s, splitters.Length1, startRow, col)
    requires CacheValid(cache, s, splitters.Length1)
    modifies cache
    ensures CacheValid(cache, s, splitters.Length1)
    ensures result == Timelines(s, splitters.Length1, startRow, col)
    ensures startRow < |s| ==> cache[startRow, col] == Some(result)
    decreases 2 * (|s| - startRow) + (if SplitterAt(s, startRow, col) then 1 else 0)
  {
    ghost var width := splitters.Length1;
    var height := splitters.Length0;
    result := 1;
    var row := startRow;
    ghost var stopped := false;
    while row < height
      invariant startRow <= row <= height && result == 1 && !stopped
      invariant CacheValid(cache, s, width)
      invariant forall i :: startRow <= i < row ==> !s[i][col]
      invariant WalkEnds(s, width, row, col)
      decreases height - row
    {
      if cache[row, col].Some? {
        result := cache[row, col].value;
        WalkedRows(s, width, startRow, row, col);
        row, stopped := row + 1, true;
        break;
      } else if splitters[row, col] {
        var left := CountMultiversesInner(splitters, s, row, col - 1, cache);
        var right := CountMultiversesInner(splitters, s, row, col + 1, cache);
        result := left + right;
        WalkedRows(s, width, startRow, row, col);
        row, stopped := row + 1, true;
        break;
      }
      row := row + 1;
    }
    if !stopped && startRow < height {
      WalkedRows(s, width, startRow, row, col);
    }
    for r := startRow to row
      invariant CacheValid(cache, s, width)
      invariant startRow < r ==> cache[startRow, col] == Some(result)
    {
      cache[r, col] := Some(result);
    }
  }

  /* The whole computation. */

  /** The splitter cells of a layout. */
  function Splitters(rows: seq<seq<Cell>>, width: nat): (s: seq<seq<bool>>)
    requires IsGrid(rows, |rows|, width)
    ensures IsGrid(s, |rows|, width)
    ensures forall i, j :: 0 <= i < |rows| && 0 <= j < width ==> (s[i][j] <==> rows[i][j] == Splitter)
  {
    seq(|rows|, i requires 0 <= i < |rows| => seq(width, j requires 0 <= j < width => rows[i][j] == Splitter))
  }

  /** The first phase of `count_multiverses`: `splitter_layout[i][j]` is
      set for every splitter cell of the layout, visited in `iter_coords`
      order. */
  method BuildSplitterLayout(layout: Grid<Cell>) returns (splitters: array2<bool>)
    ensures fresh(splitters) && splitters.Length0 == layout.Height() && splitters.Length1 == layout.Width()
    ensures forall i, j :: 0 <= i < layout.Height() && 0 <= j < layout.Width() ==>
              (splitters[i, j] <==> layout.cells[i, j] == Splitter)
  {
    var height, width := layout.Height(), layout.Width();
    splitters := new bool[height, width]((i, j) => false);
    for i := 0 to height
      invariant forall a, b :: 0 <= a < height && 0 <= b < width ==>
                  splitters[a, b] == (a < i && layout.cells[a, b] == Splitter)
    {
      for j := 0 to width
        invariant forall a, b :: 0 <= a < height && 0 <= b < width ==>
                    splitters[a, b] == ((a < i || (a == i && b < j)) && layout.cells[a, b] == Splitter)
      {
        if layout.Get((i, j)) == Ok(Splitter) {
          splitters[i, j] := true;
        }
      }
    }
  }

  /** `count_multiverses`: the timelines of the beam entering row 0 at the
      source column, with an empty cache. */
  method CountMultiverses(layout: Grid<Cell>, sourceCol: nat) returns (n: nat)
    requires WalkEnds(Splitters(layout.Cells(), layout.Width()), layout.Width(), 0, sourceCol)
    ensures n == Timelines(Splitters(layout.Cells(), layout.Width()), layout.Width(), 0, sourceCol)
  {
    ghost var s := Splitters(layout.Cells(), layout.Width());
    var splitters := BuildSplitterLayout(layout);
    var cache := new Option<nat>[layout.Height(), layout.Width()]((i, j) => None);
    n := CountMultiversesInner(splitters, s, 0, sourceCol, cache);
  }

  /** `calculate_result` ends without panicking: the layout parses, and
      the walk from the source column in row 0 ends. */
  predicate ValidInput(lines: seq<string>, height: nat, width: nat)
  {
    && LayoutParses(lines, height, width)
    && WalkEnds(Splitters(Layout(lines, height, width), width), width, 0, SourceCol(lines))
  }

  /** `calculate_result`: the number of timelines from the source. */
  method CalculateResult(lines: seq<string>, height: nat, width: nat) returns (nMultiverses: nat)
    requires ValidInput(lines, height, width)
    ensures nMultiverses == Timelines(Splitters(Layout(lines, height, width), width), width, 0, SourceCol(lines))
    ensures nMultiverses >= 1
  {
    var layout, sourceCol := ParseManifoldLayout(lines, height, width);
    nMultiverses := CountMultiverses(layout, sourceCol);
    TimelinesPositive(Splitters(Layout(lines, height, width), width), width, 0, sourceCol);
  }
}
