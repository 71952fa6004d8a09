/**
 * Day 4, part 1 (src/bin/day_04_1.rs): the input is a square grid in which
 * `@` marks a roll of paper; a roll is accessible when fewer than four of
 * its eight neighbours hold a roll, and the answer counts the accessible
 * rolls.
 *
 * The neighbour count is written for any cell type and any value marking
 * a roll, so that part 2 (a grid of `bool`s, `true` marking a roll) uses
 * the same definition.
 */
module Day04Part1 {
  import opened Wrappers
  import opened CoordGrid

  const Roll: char := '@'

  /** `p` is one of the eight cells around `c`. */
  predicate Adjacent(c: Coords, p: Coords)
  {
    p != c && c.0 <= p.0 + 1 && p.0 <= c.0 + 1 && c.1 <= p.1 + 1 && p.1 <= c.1 + 1
  }

  /** The cells of a `height` by `width` grid around `c`. */
  function AdjacentCells(height: nat, width: nat, c: Coords): set<Coords>
  {
    set i: nat, j: nat | i < height && j < width && Adjacent(c, (i, j)) :: (i, j)
  }

  /** The neighbouring cells that hold `roll`. */
  function RollNeighbours<T(==)>(rows: seq<seq<T>>, height: nat, width: nat, c: Coords, roll: T): set<Coords>
    requires IsGrid(rows, height, width)
  {
    set p | p in AdjacentCells(height, width, c) && rows[p.0][p.1] == roll
  }

  /** The move from `c` in direction `d` lands on a cell holding `roll`. */
  predicate RollInDirection<T(==)>(rows: seq<seq<T>>, height: nat, width: nat, c: Coords, d: Direction, roll: T)
    requires IsGrid(rows, height, width) && ContainsCoords(height, width, c)
  {
    var m := MoveCoords(height, width, c, d);
    m.Ok? && rows[m.value.0][m.value.1] == roll
  }

  /** The directions among the first `k` of `Direction::iter()` that lead
      to a roll. */
  function CountInFirst<T(==)>(rows: seq<seq<T>>, height: nat, width: nat, c: Coords, roll: T, k: nat): (n: nat)
    requires IsGrid(rows, height, width) && ContainsCoords(height, width, c) && k <= |Directions|
    ensures n <= k
  {
    if k == 0 then 0
    else
      CountInFirst(rows, height, width, c, roll, k - 1)
        + (if RollInDirection(rows, height, width, c, Directions[k - 1], roll) then 1 else 0)
  }

  /** `count_neighbouring_rolls`: the directions of `Direction::iter()`
      whose move stays in the grid and reaches a roll. */
  function CountNeighbouringRolls<T(==)>(rows: seq<seq<T>>, height: nat, width: nat, c: Coords, roll: T): (n: nat)
    requires IsGrid(rows, height, width) && ContainsCoords(height, width, c)
    ensures n <= 8
  {
    CountInFirst(rows, height, width, c, roll, |Directions|)
  }

  /** The cells the first `k` directions reach that hold `roll`. */
  function ReachedInFirst<T(==)>(rows: seq<seq<T>>, height: nat, width: nat, c: Coords, roll: T, k: nat): set<Coords>
    requires IsGrid(rows, height, width) && ContainsCoords(height, width, c) && k <= |Directions|
  {
    set i | 0 <= i < k && RollInDirection(rows, height, width, c, Directions[i], roll)
      :: MoveCoords(height, width, c, Directions[i]).value
  }

  /** Different directions lead to different cells. */
  lemma MovesDiffer(height: nat, width: nat, c: Coords, i: nat, j: nat)
    requires ContainsCoords(height, width, c) && i < j < |Directions|
    requires MoveCoords(height, width, c, Directions[i]).Ok? && MoveCoords(height, width, c, Directions[j]).Ok?
    ensures MoveCoords(height, width, c, Directions[i]).value != MoveCoords(height, width, c, Directions[j]).value
  {
    MoveAgreesWithForce(height, width, c, Directions[i]);
    MoveAgreesWithForce(height, width, c, Directions[j]);
  }

  lemma {:induction false} CountInFirstIsCard<T>(rows: seq<seq<T>>, height: nat, width: nat, c: Coords, roll: T, k: nat)
    requires IsGrid(rows, height, width) && ContainsCoords(height, width, c) && k <= |Directions|
    ensures CountInFirst(rows, height, width, c, roll, k) == |ReachedInFirst(rows, height, width, c, roll, k)|
  {
    if k > 0 {
      CountInFirstIsCard(rows, height, width, c, roll, k - 1);
      ReachedInFirstStep(rows, height, width, c, roll, k - 1, k);
    }
  }

  /** Direction `j` adds its cell, not reached by an earlier direction,
      exactly when there is a roll there. */
  lemma ReachedInFirstStep<T>(rows: seq<seq<T>>, height: nat, width: nat, c: Coords, roll: T, j: nat, k: nat)
    requires IsGrid(rows, height, width) && ContainsCoords(height, width, c) && k == j + 1 && k <= |Directions|
    ensures |ReachedInFirst(rows, height, width, c, roll, k)| ==
            |ReachedInFirst(rows, height, width, c, roll, j)| + (if RollInDirection(rows, height, width, c, Directions[j], roll) then 1 else 0)
  {
    var before := ReachedInFirst(rows, height, width, c, roll, j);
    var after := ReachedInFirst(rows, height, width, c, roll, k);
    var d := Directions[j];
    if RollInDirection(rows, height, width, c, d, roll) {
      var p := MoveCoords(height, width, c, d).value;
      assert p !in before by {
        forall i | 0 <= i < j && RollInDirection(rows, height, width, c, Directions[i], roll)
          ensures MoveCoords(height, width, c, Directions[i]).value != p
        {
          MovesDiffer(height, width, c, i, j);
        }
      }
      assert after == before + {p};
    } else {
      assert after == before;
    }
  }

  /** Every cell around `c` is reached by exactly the direction that points
      at it. */
  lemma AdjacentIsReached(height: nat, width: nat, c: Coords, p: Coords)
    requires ContainsCoords(height, width, c) && ContainsCoords(height, width, p) && Adjacent(c, p)
    ensures exists i :: 0 <= i < |Directions| && MoveCoords(height, width, c, Directions[i]) == Ok(p)
  {
    var d :=
      if p.0 + 1 == c.0 then (if p.1 + 1 == c.1 then Northwest else if p.1 == c.1 then North else Northeast)
      else if p.0 == c.0 then (if p.1 + 1 == c.1 then West else East)
      else (if p.1 + 1 == c.1 then Southwest else if p.1 == c.1 then South else Southeast);
    MoveAgreesWithForce(height, width, c, d);
    assert Directions[Heading(d)] == d;
  }

  /** The count of `count_neighbouring_rolls` is the number of cells around
      `c`, inside the grid, that hold a roll: a move that would leave the
      grid is skipped, not counted. */
  lemma NeighbourCountIsCard<T>(rows: seq<seq<T>>, height: nat, width: nat, c: Coords, roll: T)
    requires IsGrid(rows, height, width) && ContainsCoords(height, width, c)
    ensures CountNeighbouringRolls(rows, height, width, c, roll) == |RollNeighbours(rows, height, width, c, roll)|
  {
    CountInFirstIsCard(rows, height, width, c, roll, |Directions|);
    var reached := ReachedInFirst(rows, height, width, c, roll, |Directions|);
    var around := RollNeighbours(rows, height, width, c, roll);
    forall p | p in reached
      ensures p in around
    {
      ReachedIsNeighbour(rows, height, width, c, roll, p);
    }
    forall p | p in around
      ensures p in reached
    {
      AdjacentIsReached(height, width, c, p);
    }
    assert reached == around;
  }

  /** A cell reached by one of the directions is a neighbouring roll. */
  lemma ReachedIsNeighbour<T>(rows: seq<seq<T>>, height: nat, width: nat, c: Coords, roll: T, p: Coords)
    requires IsGrid(rows, height, width) && ContainsCoords(height, width, c)
    requires p in ReachedInFirst(rows, height, width, c, roll, |Directions|)
    ensures p in RollNeighbours(rows, height, width, c, roll)
  {
    var i :| 0 <= i < |Directions| && RollInDirection(rows, height, width, c, Directions[i], roll)
             && p == MoveCoords(height, width, c, Directions[i]).value;
    MoveAgreesWithForce(height, width, c, Directions[i]);
    assert p in AdjacentCells(height, width, c);
  }

  /** The filter of `calculate_result`: a roll with fewer than four
      neighbouring rolls. */
  predicate Accessible(rows: seq<seq<char>>, height: nat, width: nat, c: Coords)
  {
    && IsGrid(rows, height, width)
    && ContainsCoords(height, width, c)
    && rows[c.0][c.1] == Roll
    && CountNeighbouringRolls(rows, height, width, c, Roll) < 4
  }

  /** The accessible rolls, counted over `iter_coords`. */
  function AccessibleCount(rows: seq<seq<char>>, height: nat, width: nat): nat
  {
    CountWhere(IterCoords(height, width), c => Accessible(rows, height, width, c))
  }

  /** The cells of the grid holding an accessible roll. */
  function AccessibleCells(rows: seq<seq<char>>, height: nat, width: nat): set<Coords>
  {
    set c | c in IterCoords(height, width) && Accessible(rows, height, width, c)
  }

  /** The answer is the number of cells of the grid holding an accessible
      roll, and at most the number of cells. */
  lemma AccessibleCountIsCard(rows: seq<seq<char>>, height: nat, width: nat)
    ensures AccessibleCount(rows, height, width) == |AccessibleCells(rows, height, width)|
    ensures AccessibleCount(rows, height, width) <= height * width
  {
    var p := c => Accessible(rows, height, width, c);
    CountWhereIterCoords(height, width, p);
    assert (set c | c in IterCoords(height, width) && p(c)) == AccessibleCells(rows, height, width);
  }

  /** `calculate_result`: the lines must form a `size` by `size` grid
      (otherwise the parse error panics). */
  method CalculateResult(lines: seq<string>, size: nat) returns (total: nat)
    requires IsGrid(lines, size, size)
    ensures total == AccessibleCount(lines, size, size)
  {
    var parsed := FileLinesToCharGrid(lines, size, size);
    var rows := parsed.value.Cells();
    total := AccessibleCount(rows, size, size);
  }
}
