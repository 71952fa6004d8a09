/**
 * Day 4, part 2 (src/bin/day_04_2.rs): accessible rolls are removed pass
 * after pass, in place, until a pass removes nothing; the answer is the
 * number of rolls removed in all.
 *
 * A grid of `bool`s (`true` marks a roll) is a `Grid<bool>`; the
 * specification functions work on its contents `Cells()`.
 */
module Day04Part2 {
  import opened Wrappers
  import opened CoordGrid
  import Day04Part1

  /** Every roll of `a` is a roll of `b`. */
  predicate Below(a: seq<seq<bool>>, b: seq<seq<bool>>, height: nat, width: nat)
    requires IsGrid(a, height, width) && IsGrid(b, height, width)
  {
    forall i, j :: 0 <= i < height && 0 <= j < width && a[i][j] ==> b[i][j]
  }

  /** The cells holding a roll. */
  function Rolls(rows: seq<seq<bool>>, height: nat, width: nat): set<Coords>
    requires IsGrid(rows, height, width)
  {
    set c | c in IterCoords(height, width) && rows[c.0][c.1]
  }

  /** A roll that `remove_accessible_rolls` takes away when it reaches it:
      fewer than four of its neighbours hold a roll at that moment. */
  predicate Removable(rows: seq<seq<bool>>, height: nat, width: nat, c: Coords)
  {
    && IsGrid(rows, height, width)
    && ContainsCoords(height, width, c)
    && rows[c.0][c.1]
    && Day04Part1.CountNeighbouringRolls(rows, height, width, c, true) < 4
  }

  /** What `remove_accessible_rolls` does at one cell. */
  function Visit(rows: seq<seq<bool>>, height: nat, width: nat, c: Coords): (r: seq<seq<bool>>)
    requires IsGrid(rows, height, width)
    ensures IsGrid(r, height, width)
  {
    if Removable(rows, height, width, c) then Update(rows, c, false) else rows
  }

  /** Visiting the cells `cs` in order, each seeing the removals before it. */
  function VisitAll(rows: seq<seq<bool>>, height: nat, width: nat, cs: seq<Coords>): (r: seq<seq<bool>>)
    requires IsGrid(rows, height, width)
    ensures IsGrid(r, height, width)
  {
    if |cs| == 0 then rows
    else Visit(VisitAll(rows, height, width, cs[..|cs| - 1]), height, width, cs[|cs| - 1])
  }

  /** One pass of `remove_accessible_rolls`, in `iter_coords` order. */
  function Pass(rows: seq<seq<bool>>, height: nat, width: nat): (r: seq<seq<bool>>)
    requires IsGrid(rows, height, width)
    ensures IsGrid(r, height, width)
  {
    VisitAll(rows, height, width, IterCoords(height, width))
  }

  /** `remove_accessible_rolls`: collects the coordinates, then visits them
      in order, removing a roll in place when fewer than four neighbours
      hold a roll at that moment. */
  method RemoveAccessibleRolls(grid: Grid<bool>)
    modifies grid.cells
    ensures grid.Cells() == Pass(old(grid.Cells()), grid.Height(), grid.Width())
  {
    var height, width := grid.Height(), grid.Width();
    ghost var start := grid.Cells();
    var coords := IterCoords(height, width);
    for k := 0 to |coords|
      invariant grid.Cells() == VisitAll(start, height, width, coords[..k])
    {
      assert coords[..k + 1][..k] == coords[..k];
      var c := coords[k];
      var b := grid.Get(c);
      if b.Ok? && b.value && Day04Part1.CountNeighbouringRolls(grid.Cells(), height, width, c, true) < 4 {
        var _ := grid.Set(c, false);
      }
    }
    assert coords[..|coords|] == coords;
  }

  /* Properties of one pass. */

  lemma BelowTransitive(a: seq<seq<bool>>, b: seq<seq<bool>>, c: seq<seq<bool>>, height: nat, width: nat)
    requires IsGrid(a, height, width) && IsGrid(b, height, width) && IsGrid(c, height, width)
    requires Below(a, b, height, width) && Below(b, c, height, width)
    ensures Below(a, c, height, width)
  {
  }

  /** Visiting cells only ever removes rolls. */
  lemma {:induction false} VisitAllBelow(rows: seq<seq<bool>>, height: nat, width: nat, cs: seq<Coords>)
    requires IsGrid(rows, height, width)
    ensures Below(VisitAll(rows, height, width, cs), rows, height, width)
  {
    if |cs| > 0 {
      var before := VisitAll(rows, height, width, cs[..|cs| - 1]);
      VisitAllBelow(rows, height, width, cs[..|cs| - 1]);
      BelowTransitive(Visit(before, height, width, cs[|cs| - 1]), before, rows, height, width);
    }
  }

  /** A cell not visited yet is unchanged. */
  lemma {:induction false} VisitAllUnvisited(rows: seq<seq<bool>>, height: nat, width: nat, cs: seq<Coords>, p: Coords)
    requires IsGrid(rows, height, width) && ContainsCoords(height, width, p) && p !in cs
    ensures VisitAll(rows, height, width, cs)[p.0][p.1] == rows[p.0][p.1]
  {
    if |cs| > 0 {
      assert cs == cs[..|cs| - 1] + [cs[|cs| - 1]];
      VisitAllUnvisited(rows, height, width, cs[..|cs| - 1], p);
    }
  }

  /** Visiting `xs` then `ys` is visiting `xs + ys`. */
  lemma {:induction false} VisitAllAppend(rows: seq<seq<bool>>, height: nat, width: nat, xs: seq<Coords>, ys: seq<Coords>)
    requires IsGrid(rows, height, width)
    ensures VisitAll(rows, height, width, xs + ys) == VisitAll(VisitAll(rows, height, width, xs), height, width, ys)
  {
    if |ys| == 0 {
      assert xs + ys == xs;
    } else {
      assert (xs + ys)[..|xs + ys| - 1] == xs + ys[..|ys| - 1];
      VisitAllAppend(rows, height, width, xs, ys[..|ys| - 1]);
    }
  }

  /** Fewer rolls around mean fewer neighbouring rolls. */
  lemma {:induction false} CountInFirstMonotone(a: seq<seq<bool>>, b: seq<seq<bool>>, height: nat, width: nat, c: Coords, k: nat)
    requires IsGrid(a, height, width) && IsGrid(b, height, width) && Below(a, b, height, width)
    requires ContainsCoords(height, width, c) && k <= |Directions|
    ensures Day04Part1.CountInFirst(a, height, width, c, true, k) <= Day04Part1.CountInFirst(b, height, width, c, true, k)
  {
    if k > 0 {
      CountInFirstMonotone(a, b, height, width, c, k - 1);
      var m := MoveCoords(height, width, c, Directions[k - 1]);
      if m.Ok? {
        assert ContainsCoords(height, width, m.value);
      }
    }
  }

  /** Every roll that is removable when the pass starts is gone after it:
      removals earlier in the pass only lower its neighbour count. */
  lemma PassRemovesRemovable(rows: seq<seq<bool>>, height: nat, width: nat, c: Coords)
    requires Removable(rows, height, width, c)
    ensures !Pass(rows, height, width)[c.0][c.1]
  {
    var coords := IterCoords(height, width);
    var k :| 0 <= k < |coords| && coords[k] == c;
    RowMajorDistinct(coords);
    var xs, ys := coords[..k], coords[k + 1..];
    assert coords == xs + [c] + ys;
    assert c !in xs;
    StillRemovable(rows, height, width, xs, c);
    RemovedStaysGone(rows, height, width, xs, c, ys);
  }

  /** A removable roll is still removable when the pass reaches it, since
      the cells visited before it only lose rolls. */
  lemma StillRemovable(rows: seq<seq<bool>>, height: nat, width: nat, xs: seq<Coords>, c: Coords)
    requires Removable(rows, height, width, c) && c !in xs
    ensures Removable(VisitAll(rows, height, width, xs), height, width, c)
  {
    var before := VisitAll(rows, height, width, xs);
    VisitAllUnvisited(rows, height, width, xs, c);
    VisitAllBelow(rows, height, width, xs);
    CountInFirstMonotone(before, rows, height, width, c, |Directions|);
  }

  /** A roll removable when the pass reaches it is removed, and later
      visits do not bring it back. */
  lemma RemovedStaysGone(rows: seq<seq<bool>>, height: nat, width: nat, xs: seq<Coords>, c: Coords, ys: seq<Coords>)
    requires IsGrid(rows, height, width)
    requires Removable(VisitAll(rows, height, width, xs), height, width, c)
    ensures !VisitAll(rows, height, width, xs + [c] + ys)[c.0][c.1]
  {
    var before := VisitAll(rows, height, width, xs);
    var after := Visit(before, height, width, c);
    assert VisitAll(before, height, width, [c]) == after;
    VisitAllAppend(rows, height, width, xs, [c]);
    VisitAllAppend(rows, height, width, xs + [c], ys);
    VisitAllBelow(after, height, width, ys);
  }

  /** Where nothing is removable, visiting changes nothing. */
  lemma {:induction false} VisitAllNothingRemovable(rows: seq<seq<bool>>, height: nat, width: nat, cs: seq<Coords>)
    requires IsGrid(rows, height, width)
    requires forall c :: !Removable(rows, height, width, c)
    ensures VisitAll(rows, height, width, cs) == rows
  {
    if |cs| > 0 {
      VisitAllNothingRemovable(rows, height, width, cs[..|cs| - 1]);
    }
  }

  /** A pass changes nothing exactly when no roll is removable: at the
      fixpoint every remaining roll has at least four neighbouring rolls. */
  lemma PassStableIff(rows: seq<seq<bool>>, height: nat, width: nat)
    requires IsGrid(rows, height, width)
    ensures Pass(rows, height, width) == rows <==> forall c :: !Removable(rows, height, width, c)
  {
    if forall c :: !Removable(rows, height, width, c) {
      VisitAllNothingRemovable(rows, height, width, IterCoords(height, width));
    } else {
      var c :| Removable(rows, height, width, c);
      PassRemovesRemovable(rows, height, width, c);
    }
  }

  /** Two grids of the same shape with the same rolls are equal. */
  lemma SameRollsEqual(a: seq<seq<bool>>, b: seq<seq<bool>>, height: nat, width: nat)
    requires IsGrid(a, height, width) && IsGrid(b, height, width)
    requires Below(a, b, height, width) && Below(b, a, height, width)
    ensures a == b
  {
    assert forall i :: 0 <= i < height ==> a[i] == b[i];
  }

  lemma ProperSubsetCard(a: set<Coords>, b: set<Coords>)
    requires a <= b && a != b
    ensures |a| < |b|
  {
    DifferenceCard(b, a);
    assert b - a != {} by {
      assert b == a + (b - a);
    }
  }

  /** A pass that changes the grid removes at least one roll. */
  lemma PassShrinks(rows: seq<seq<bool>>, height: nat, width: nat)
    requires IsGrid(rows, height, width)
    ensures Rolls(Pass(rows, height, width), height, width) <= Rolls(rows, height, width)
    ensures Pass(rows, height, width) != rows ==>
              |Rolls(Pass(rows, height, width), height, width)| < |Rolls(rows, height, width)|
  {
    var next := Pass(rows, height, width);
    VisitAllBelow(rows, height, width, IterCoords(height, width));
    if next != rows {
      if Rolls(next, height, width) == Rolls(rows, height, width) {
        forall i, j | 0 <= i < height && 0 <= j < width && rows[i][j]
          ensures next[i][j]
        {
          assert (i, j) in Rolls(rows, height, width);
        }
        SameRollsEqual(next, rows, height, width);
      }
      ProperSubsetCard(Rolls(next, height, width), Rolls(rows, height, width));
    }
  }

  /** The grid the repeated passes settle on. */
  function Settle(rows: seq<seq<bool>>, height: nat, width: nat): (r: seq<seq<bool>>)
    requires IsGrid(rows, height, width)
    ensures IsGrid(r, height, width)
    decreases |Rolls(rows, height, width)|
  {
    var next := Pass(rows, height, width);
    if next == rows then rows
    else
      PassShrinks(rows, height, width);
      Settle(next, height, width)
  }

  /** The settled grid keeps only rolls that were there, and none of its
      rolls is removable. */
  lemma {:induction false} SettleIsStable(rows: seq<seq<bool>>, height: nat, width: nat)
    requires IsGrid(rows, height, width)
    ensures Below(Settle(rows, height, width), rows, height, width)
    ensures forall c :: !Removable(Settle(rows, height, width), height, width, c)
    decreases |Rolls(rows, height, width)|
  {
    var next := Pass(rows, height, width);
    if next == rows {
      PassStableIff(rows, height, width);
    } else {
      PassShrinks(rows, height, width);
      SettleIsStable(next, height, width);
      VisitAllBelow(rows, height, width, IterCoords(height, width));
      BelowTransitive(Settle(next, height, width), next, rows, height, width);
    }
  }

  /* Counting removed rolls. */

  /** The filter of `calculate_removed_rolls`. */
  predicate RemovedAt(start: seq<seq<bool>>, current: seq<seq<bool>>, height: nat, width: nat, c: Coords)
  {
    IsGrid(start, height, width) && IsGrid(current, height, width) && ContainsCoords(height, width, c)
    && start[c.0][c.1] && !current[c.0][c.1]
  }

  /** `calculate_removed_rolls`: the cells with a roll at the start and
      none now, counted over `iter_coords`. */
  function CalculateRemovedRolls(start: seq<seq<bool>>, current: seq<seq<bool>>, height: nat, width: nat): (n: nat)
    ensures n <= height * width
  {
    CountWhere(IterCoords(height, width), c => RemovedAt(start, current, height, width, c))
  }

  /** The removed count is the number of rolls of the start grid missing
      from the current one, so at most the number of starting rolls. */
  lemma RemovedIsDifference(start: seq<seq<bool>>, current: seq<seq<bool>>, height: nat, width: nat)
    requires IsGrid(start, height, width) && IsGrid(current, height, width)
    ensures CalculateRemovedRolls(start, current, height, width)
            == |Rolls(start, height, width) - Rolls(current, height, width)|
    ensures CalculateRemovedRolls(start, current, height, width) <= |Rolls(start, height, width)|
  {
    var p := c => RemovedAt(start, current, height, width, c);
    CountWhereIterCoords(height, width, p);
    assert (set c | c in IterCoords(height, width) && p(c))
           == Rolls(start, height, width) - Rolls(current, height, width);
  }

  /** Removing more rolls from a grid below the start raises the count. */
  lemma RemovedGrows(start: seq<seq<bool>>, g: seq<seq<bool>>, height: nat, width: nat)
    requires IsGrid(start, height, width) && IsGrid(g, height, width) && Below(g, start, height, width)
    ensures Pass(g, height, width) == g <==>
              CalculateRemovedRolls(start, Pass(g, height, width), height, width) == CalculateRemovedRolls(start, g, height, width)
  {
    var next := Pass(g, height, width);
    RemovedIsDifference(start, g, height, width);
    RemovedIsDifference(start, next, height, width);
    PassShrinks(g, height, width);
    var rs, rg, rn := Rolls(start, height, width), Rolls(g, height, width), Rolls(next, height, width);
    assert rg <= rs;
    DifferenceCard(rs, rg);
    DifferenceCard(rs, rn);
  }

  lemma DifferenceCard(a: set<Coords>, b: set<Coords>)
    requires b <= a
    ensures |a - b| == |a| - |b|
  {
    assert a == b + (a - b);
  }

  /* The whole computation. */

  /** The starting grid: a roll exactly where the input has `@`. */
  function InitialRolls(lines: seq<string>): (rows: seq<seq<bool>>)
    ensures |rows| == |lines| && forall i :: 0 <= i < |lines| ==> |rows[i]| == |lines[i]|
    ensures forall i, j :: 0 <= i < |lines| && 0 <= j < |lines[i]| ==> rows[i][j] == (lines[i][j] == Day04Part1.Roll)
  {
    seq(|lines|, i requires 0 <= i < |lines| => seq(|lines[i]|, j requires 0 <= j < |lines[i]| => lines[i][j] == Day04Part1.Roll))
  }

  /** The first phase of `calculate_result`: a grid of `false` with
      `true` set wherever the character grid holds `@`. */
  method RollGrid(gridChars: Grid<char>) returns (grid: Grid<bool>)
    ensures fresh(grid.cells)
    ensures grid.Cells() == InitialRolls(gridChars.Cells())
  {
    var height, width := gridChars.Height(), gridChars.Width();
    grid := new Grid<bool>.Create(height, width, false);
    grid.SetAll(false);
    var coords := IterCoords(height, width);
    for k := 0 to |coords|
      invariant grid.Height() == height && grid.Width() == width
      invariant forall a, b :: 0 <= a < height && 0 <= b < width ==>
                  grid.cells[a, b] == ((a, b) in coords[..k] && gridChars.cells[a, b] == Day04Part1.Roll)
    {
      assert coords[..k + 1] == coords[..k] + [coords[k]];
      assert coords[k] in coords;
      var (i, j) := coords[k];
      if gridChars.cells[i, j] == Day04Part1.Roll {
        var _ := grid.Set((i, j), true);
      }
    }
    assert coords[..|coords|] == coords;
    ghost var initial := InitialRolls(gridChars.Cells());
    assert forall a :: 0 <= a < height ==> grid.Cells()[a] == initial[a];
  }

  /** `calculate_result`: build the roll grid from the characters, keep a
      clone of it, then run passes until the removed count stops
      changing. The answer is the number of rolls the settled grid no
      longer has. */
  method CalculateResult(lines: seq<string>, size: nat) returns (total: nat)
    requires IsGrid(lines, size, size)
    ensures total == CalculateRemovedRolls(InitialRolls(lines), Settle(InitialRolls(lines), size, size), size, size)
  {
    var parsed := FileLinesToCharGrid(lines, size, size);
    var grid := RollGrid(parsed.value);
    ghost var initial := InitialRolls(lines);
    var gridStart := grid.Clone();
    total := 0;
    var totalLast := 1;
    RemovedIsDifference(initial, initial, size, size);
    while total != totalLast
      invariant gridStart.cells != grid.cells
      invariant IsGrid(grid.Cells(), size, size) && gridStart.Cells() == initial
      invariant Below(grid.Cells(), initial, size, size)
      invariant Settle(grid.Cells(), size, size) == Settle(initial, size, size)
      invariant total == CalculateRemovedRolls(initial, grid.Cells(), size, size)
      invariant total == totalLast ==> Pass(grid.Cells(), size, size) == grid.Cells()
      decreases |Rolls(grid.Cells(), size, size)| + (if total != totalLast then 1 else 0)
    {
      ghost var before := grid.Cells();
      totalLast := total;
      RemoveAccessibleRolls(grid);
      total := CalculateRemovedRolls(gridStart.Cells(), grid.Cells(), size, size);
      SettleLoopStep(initial, before, grid.Cells(), size, size);
    }
  }

  /** One pass of the loop of `calculate_result` keeps its invariants and
      shrinks the rolls unless the grid has settled. */
  lemma SettleLoopStep(initial: seq<seq<bool>>, before: seq<seq<bool>>, after: seq<seq<bool>>, height: nat, width: nat)
    requires IsGrid(initial, height, width) && IsGrid(before, height, width)
    requires Below(before, initial, height, width)
    requires Settle(before, height, width) == Settle(initial, height, width)
    requires after == Pass(before, height, width)
    ensures IsGrid(after, height, width) && Below(after, initial, height, width)
    ensures Settle(after, height, width) == Settle(initial, height, width)
    ensures CalculateRemovedRolls(initial, after, height, width) == CalculateRemovedRolls(initial, before, height, width)
            ==> after == before && Pass(after, height, width) == after
    ensures after != before ==> |Rolls(after, height, width)| < |Rolls(before, height, width)|
  {
    RemovedGrows(initial, before, height, width);
    PassShrinks(before, height, width);
    VisitAllBelow(before, height, width, IterCoords(height, width));
    BelowTransitive(after, before, initial, height, width);
  }
}
