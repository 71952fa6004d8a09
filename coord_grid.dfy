/**
 * The shared foundation of the solvers (src/lib.rs, module `coord_grid`):
 * a bounded two-dimensional grid whose every access is checked, the eight
 * compass directions with their turns, and moves between neighbouring cells.
 *
 * The Rust grid carries its dimensions as const generic parameters; here a
 * `Grid<T>` object owns a fixed-size `array2<T>` and its dimensions are that
 * array's lengths. The operations that only depend on the dimensions
 * (`contains_coords`, `move_coords`, `force_move_coords`, `iter_coords`)
 * are functions of the dimensions.
 */
module CoordGrid {
  import opened Wrappers

  /** Row `i`, column `j`: `(i, j)` with `i < height` and `j < width`. */
  type Coords = (nat, nat)

  /* ---------------------------------------------------------------- */
  /* Directions                                                        */
  /* ---------------------------------------------------------------- */

  datatype Direction = North | Northeast | East | Southeast | South | Southwest | West | Northwest

  /** `Direction::iter()` (strum's `EnumIter`): the declaration order. */
  const Directions: seq<Direction> := [North, Northeast, East, Southeast, South, Southwest, West, Northwest]

  /** `Direction::main_directions()`. */
  const MainDirections: seq<Direction> := [North, East, South, West]

  /** The compass heading of `d` in 45-degree steps clockwise from North,
      i.e. its place in `Directions`. */
  function Heading(d: Direction): (k: nat)
    ensures k < 8 && Directions[k] == d
  {
    match d
    case North => 0
    case Northeast => 1
    case East => 2
    case Southeast => 3
    case South => 4
    case Southwest => 5
    case West => 6
    case Northwest => 7
  }

  lemma HeadingInjective(d: Direction, e: Direction)
    requires Heading(d) == Heading(e)
    ensures d == e
  {
  }

  function Turn45Anticlockwise(d: Direction): Direction
  {
    match d
    case North => Northwest
    case Northeast => North
    case East => Northeast
    case Southeast => East
    case South => Southeast
    case Southwest => South
    case West => Southwest
    case Northwest => West
  }

  function Turn90Clockwise(d: Direction): Direction
  {
    match d
    case North => East
    case Northeast => Southeast
    case East => South
    case Southeast => Southwest
    case South => West
    case Southwest => Northwest
    case West => North
    case Northwest => Northeast
  }

  function Turn90Anticlockwise(d: Direction): Direction
  {
    match d
    case North => West
    case Northeast => Northwest
    case East => North
    case Southeast => Northeast
    case South => East
    case Southwest => Southeast
    case West => South
    case Northwest => Southwest
  }

  /** Each table is a rotation of the compass: 45 degrees back, 90 forward,
      90 back. */
  lemma TurnsRotateHeading(d: Direction)
    ensures Heading(Turn45Anticlockwise(d)) == (Heading(d) + 7) % 8
    ensures Heading(Turn90Clockwise(d)) == (Heading(d) + 2) % 8
    ensures Heading(Turn90Anticlockwise(d)) == (Heading(d) + 6) % 8
  {
  }

  /** The two 90-degree turns undo each other. */
  lemma Turn90Inverse(d: Direction)
    ensures Turn90Anticlockwise(Turn90Clockwise(d)) == d
    ensures Turn90Clockwise(Turn90Anticlockwise(d)) == d
  {
  }

  /** Two 45-degree turns make one 90-degree turn. */
  lemma Turn45Twice(d: Direction)
    ensures Turn45Anticlockwise(Turn45Anticlockwise(d)) == Turn90Anticlockwise(d)
  {
  }

  /** `n` successive 45-degree anticlockwise turns. */
  function Turn45Times(d: Direction, n: nat): Direction
  {
    if n == 0 then d else Turn45Anticlockwise(Turn45Times(d, n - 1))
  }

  lemma {:induction false} Turn45TimesHeading(d: Direction, n: nat)
    ensures Heading(Turn45Times(d, n)) == (Heading(d) - n) % 8
  {
    if n > 0 {
      Turn45TimesHeading(d, n - 1);
      TurnsRotateHeading(Turn45Times(d, n - 1));
      StepBackModEight(Heading(d) - (n - 1));
    }
  }

  /** Adding 7 modulo 8 steps back one place. */
  lemma StepBackModEight(x: int)
    ensures (x % 8 + 7) % 8 == (x - 1) % 8
  {
    var q := x / 8;
    var r := x % 8;
    assert x == 8 * q + r;
    if r == 0 {
      ModEightUnique(0, 7);
      assert x - 1 == 8 * (q - 1) + 7;
      ModEightUnique(q - 1, 7);
    } else {
      assert r + 7 == 8 * 1 + (r - 1);
      ModEightUnique(1, r - 1);
      assert x - 1 == 8 * q + (r - 1);
      ModEightUnique(q, r - 1);
    }
  }

  /** `8 * t + s` with `0 <= s < 8` leaves remainder `s`. */
  lemma ModEightUnique(t: int, s: int)
    requires 0 <= s < 8
    ensures (8 * t + s) % 8 == s
  {
  }

  /** Only the number of 45-degree turns modulo 8 matters, and fewer than
      eight turns (but at least one) always change the direction. */
  lemma Turn45Period(d: Direction, n: nat)
    ensures Turn45Times(d, n) == Turn45Times(d, n % 8)
    ensures 0 < n < 8 ==> Turn45Times(d, n) != d
  {
    TurnCountModulo(Heading(d), n);
    Turn45TimesHeading(d, n);
    Turn45TimesHeading(d, n % 8);
    HeadingInjective(Turn45Times(d, n), Turn45Times(d, n % 8));
  }

  /** Stepping back `n` places on a dial of 8 is stepping back `n % 8`
      places, and a step back of 1 to 7 places always moves. */
  lemma TurnCountModulo(h: nat, n: nat)
    requires h < 8
    ensures (h - n) % 8 == (h - n % 8) % 8
    ensures 0 < n < 8 ==> (h - n) % 8 != h
  {
    var q := n / 8;
    assert h - n == (h - n % 8) - 8 * q;
  }

  /** Eight 45-degree turns (a full circle) change nothing. */
  lemma Turn45FullCircle(d: Direction)
    ensures Turn45Times(d, 8) == d
  {
    Turn45TimesHeading(d, 8);
    HeadingInjective(Turn45Times(d, 8), d);
  }

  /** `Direction::turn_anticlockwise`: a turn by a multiple of 45 degrees,
      made one 45-degree step at a time. */
  method TurnAnticlockwise(d: Direction, degrees: nat) returns (r: Result<Direction, string>)
    ensures r.Err? <==> degrees % 45 != 0
    ensures r.Err? ==> r.error == "invalid turn angle - must be multiple of 45"
    ensures r.Ok? ==> r.value == Turn45Times(d, degrees / 45)
  {
    if degrees % 45 != 0 {
      return Err("invalid turn angle - must be multiple of 45");
    }
    var turns := degrees / 45;
    var newDir := d;
    for k := 0 to turns
      invariant newDir == Turn45Times(d, k)
    {
      newDir := Turn45Anticlockwise(newDir);
    }
    return Ok(newDir);
  }

  /** A whole turn leaves the direction unchanged, and turning by `a` then
      by `b` degrees is turning by `a + b`. */
  lemma {:induction false} TurnAnticlockwiseComposes(d: Direction, a: nat, b: nat)
    ensures Turn45Times(Turn45Times(d, a), b) == Turn45Times(d, a + b)
    ensures Turn45Times(d, 360 / 45) == d
  {
    if b > 0 {
      TurnAnticlockwiseComposes(d, a, b - 1);
    }
    Turn45FullCircle(d);
  }

  /* ---------------------------------------------------------------- */
  /* Coordinates                                                       */
  /* ---------------------------------------------------------------- */

  /** `contains_coords`. */
  predicate ContainsCoords(height: nat, width: nat, c: Coords)
    ensures ContainsCoords(height, width, c) ==> height >= 1 && width >= 1
  {
    c.0 < height && c.1 < width
  }

  /** `contains_coords_signed`: both coordinates non-negative and in range. */
  predicate ContainsCoordsSigned(height: nat, width: nat, c: (int, int))
    ensures ContainsCoordsSigned(height, width, c) <==> 0 <= c.0 < height && 0 <= c.1 < width
  {
    c.0 >= 0 && c.1 >= 0 && ContainsCoords(height, width, (c.0 as nat, c.1 as nat))
  }

  /** `GRID_WIDTH - 1` and `GRID_HEIGHT - 1` are evaluated (as unsigned
      numbers) only for moves that go east or south. */
  predicate MoveDefined(height: nat, width: nat, d: Direction)
  {
    && (d in {East, Northeast, Southeast} ==> width >= 1)
    && (d in {South, Southeast, Southwest} ==> height >= 1)
  }

  /** `move_coords`: a cardinal step succeeds iff it stays in the grid; a
      diagonal step is the north/south step followed by the east/west one,
      failing if either does. */
  function MoveCoords(height: nat, width: nat, c: Coords, d: Direction): (r: Result<Coords, ()>)
    requires MoveDefined(height, width, d)
    ensures ContainsCoords(height, width, c) && r.Ok? ==> ContainsCoords(height, width, r.value)
    decreases if d in MainDirections then 0 else 1
  {
    match d
    case North => if c.0 > 0 then Ok((c.0 - 1, c.1)) else Err(())
    case East => if c.1 < width - 1 then Ok((c.0, c.1 + 1)) else Err(())
    case South => if c.0 < height - 1 then Ok((c.0 + 1, c.1)) else Err(())
    case West => if c.1 > 0 then Ok((c.0, c.1 - 1)) else Err(())
    case Northeast =>
      var n := MoveCoords(height, width, c, North);
      if n.Err? then Err(()) else MoveCoords(height, width, n.value, East)
    case Southeast =>
      var s := MoveCoords(height, width, c, South);
      if s.Err? then Err(()) else MoveCoords(height, width, s.value, East)
    case Southwest =>
      var s := MoveCoords(height, width, c, South);
      if s.Err? then Err(()) else MoveCoords(height, width, s.value, West)
    case Northwest =>
      var n := MoveCoords(height, width, c, North);
      if n.Err? then Err(()) else MoveCoords(height, width, n.value, West)
  }

  /** `force_move_coords`: the unchecked neighbour, as signed coordinates.
      It is one of the eight cells around `c`; a main direction changes one
      coordinate, a diagonal one both. */
  function ForceMoveCoords(c: Coords, d: Direction): (r: (int, int))
    ensures r != (c.0 as int, c.1 as int)
    ensures -1 <= r.0 - c.0 <= 1 && -1 <= r.1 - c.1 <= 1
    ensures d in MainDirections <==> (r.0 == c.0 || r.1 == c.1)
  {
    match d
    case North => (c.0 - 1, c.1)
    case East => (c.0, c.1 + 1)
    case South => (c.0 + 1, c.1)
    case West => (c.0, c.1 - 1)
    case Northeast => (c.0 - 1, c.1 + 1)
    case Southeast => (c.0 + 1, c.1 + 1)
    case Southwest => (c.0 + 1, c.1 - 1)
    case Northwest => (c.0 - 1, c.1 - 1)
  }

  /** Whenever the checked move succeeds it lands where the unchecked one
      points; from a cell of the grid it succeeds exactly when that point is
      in the grid. */
  lemma MoveAgreesWithForce(height: nat, width: nat, c: Coords, d: Direction)
    requires MoveDefined(height, width, d)
    ensures MoveCoords(height, width, c, d).Ok? ==>
              (MoveCoords(height, width, c, d).value.0 as int, MoveCoords(height, width, c, d).value.1 as int)
              == ForceMoveCoords(c, d)
    ensures ContainsCoords(height, width, c) ==>
              (MoveCoords(height, width, c, d).Ok? <==> ContainsCoordsSigned(height, width, ForceMoveCoords(c, d)))
  {
  }

  /** `iter_coords`: every cell, row by row. */
  function IterCoords(height: nat, width: nat): (cs: seq<Coords>)
    ensures |cs| == height * width
    ensures forall c :: c in cs <==> ContainsCoords(height, width, c)
    ensures RowMajor(cs)
  {
    if height == 0 then []
    else
      var prefix := IterCoords(height - 1, width);
      var row := RowCoords(height - 1, width);
      assert forall a :: 0 <= a < |prefix| ==> prefix[a].0 < height - 1 by {
        forall a | 0 <= a < |prefix| ensures prefix[a].0 < height - 1 {
          assert prefix[a] in prefix;
        }
      }
      assert |prefix + row| == (height - 1) * width + width;
      prefix + row
  }

  /** The cells of row `i`, left to right. */
  function RowCoords(i: nat, width: nat): (cs: seq<Coords>)
    ensures |cs| == width
    ensures forall k :: 0 <= k < width ==> cs[k] == (i, k)
    ensures forall c :: c in cs <==> c.0 == i && c.1 < width
  {
    var row := seq(width, j => (i, j));
    assert forall c: Coords | c.0 == i && c.1 < width :: row[c.1] == c;
    row
  }

  /** Cell `p` comes before cell `q` in row-major order. */
  predicate Before(p: Coords, q: Coords)
  {
    p.0 < q.0 || (p.0 == q.0 && p.1 < q.1)
  }

  /** Strictly increasing in row-major order (hence without repetitions). */
  predicate RowMajor(cs: seq<Coords>)
  {
    forall a, b :: 0 <= a < b < |cs| ==> Before(cs[a], cs[b])
  }

  /** No cell appears twice. */
  predicate Distinct(cs: seq<Coords>)
  {
    forall a, b :: 0 <= a < b < |cs| ==> cs[a] != cs[b]
  }

  lemma RowMajorDistinct(cs: seq<Coords>)
    requires RowMajor(cs)
    ensures Distinct(cs)
  {
  }

  /** `.filter(p).count()` over a list of cells. */
  function CountWhere(cs: seq<Coords>, p: Coords -> bool): (n: nat)
    ensures n <= |cs|
  {
    if |cs| == 0 then 0 else CountWhere(cs[..|cs| - 1], p) + (if p(cs[|cs| - 1]) then 1 else 0)
  }

  /** Counting the cells of a list without repetitions that satisfy `p`
      gives the size of the set of those cells. */
  lemma {:induction false} CountWhereIsCard(cs: seq<Coords>, p: Coords -> bool)
    requires Distinct(cs)
    ensures CountWhere(cs, p) == |set c | c in cs && p(c)|
  {
    if |cs| > 0 {
      var init, last := cs[..|cs| - 1], cs[|cs| - 1];
      CountWhereIsCard(init, p);
      var s0 := set c | c in init && p(c);
      var s1 := set c | c in cs && p(c);
      assert cs == init + [last];
      assert last !in init;
      if p(last) {
        assert s1 == s0 + {last};
      } else {
        assert s1 == s0;
      }
    }
  }

  /** Counting over `iter_coords` counts the cells of the grid that
      satisfy `p`. */
  lemma CountWhereIterCoords(height: nat, width: nat, p: Coords -> bool)
    ensures CountWhere(IterCoords(height, width), p)
            == |set c | c in IterCoords(height, width) && p(c)|
  {
    RowMajorDistinct(IterCoords(height, width));
    CountWhereIsCard(IterCoords(height, width), p);
  }

  /** A weaker filter counts no more cells. */
  lemma {:induction false} CountWhereMono(cs: seq<Coords>, p: Coords -> bool, q: Coords -> bool)
    requires forall c :: c in cs && p(c) ==> q(c)
    ensures CountWhere(cs, p) <= CountWhere(cs, q)
  {
    if |cs| > 0 {
      var init := cs[..|cs| - 1];
      assert forall c :: c in init ==> c in cs;
      CountWhereMono(init, p, q);
    }
  }

  /** A weaker filter that also admits a cell of the list the stronger
      one refuses counts strictly more cells. */
  lemma {:induction false} CountWhereStrict(cs: seq<Coords>, p: Coords -> bool, q: Coords -> bool, w: Coords)
    requires forall c :: c in cs && p(c) ==> q(c)
    requires w in cs && q(w) && !p(w)
    ensures CountWhere(cs, p) < CountWhere(cs, q)
  {
    var init := cs[..|cs| - 1];
    assert forall c :: c in init ==> c in cs;
    if cs[|cs| - 1] == w {
      CountWhereMono(init, p, q);
    } else {
      assert cs == init + [cs[|cs| - 1]];
      CountWhereStrict(init, p, q, w);
    }
  }

  function Update<T>(rows: seq<seq<T>>, c: Coords, v: T): (r: seq<seq<T>>)
    requires c.0 < |rows| && c.1 < |rows[c.0]|
  {
    rows[c.0 := rows[c.0][c.1 := v]]
  }

  /** `rows` has the shape of a `height` by `width` grid. */
  predicate IsGrid<T>(rows: seq<seq<T>>, height: nat, width: nat)
  {
    |rows| == height && forall i :: 0 <= i < height ==> |rows[i]| == width
  }

  /* ---------------------------------------------------------------- */
  /* The grid                                                          */
  /* ---------------------------------------------------------------- */

  class Grid<T(==)> {
    const cells: array2<T>

    function Height(): nat { cells.Length0 }

    function Width(): nat { cells.Length1 }

    /** The grid's contents, row by row. */
    function Cells(): (rows: seq<seq<T>>)
      reads cells
      ensures IsGrid(rows, Height(), Width())
      ensures forall i, j :: 0 <= i < Height() && 0 <= j < Width() ==> rows[i][j] == cells[i, j]
    {
      seq(cells.Length0, i reads cells requires 0 <= i < cells.Length0 =>
        seq(cells.Length1, j reads cells requires 0 <= j < cells.Length1 => cells[i, j]))
    }

    /** `Grid::create()`; `default` is `T::default()`. */
    constructor Create(height: nat, width: nat, default: T)
      ensures Height() == height && Width() == width && fresh(cells)
      ensures forall i, j :: 0 <= i < height && 0 <= j < width ==> cells[i, j] == default
    {
      cells := new T[height, width]((i, j) => default);
    }

    /** `Clone::clone`: a new grid with the same contents. */
    method Clone() returns (g: Grid<T>)
      ensures fresh(g.cells)
      ensures g.Cells() == Cells()
    {
      var a := new T[cells.Length0, cells.Length1]((i, j)
        requires 0 <= i < cells.Length0 && 0 <= j < cells.Length1 reads cells => cells[i, j]);
      g := new Grid.FromArray(a);
      assert forall i :: 0 <= i < Height() ==> g.Cells()[i] == Cells()[i];
    }

    constructor FromArray(a: array2<T>)
      ensures cells == a
    {
      cells := a;
    }

    /** `set_all`: every cell becomes `v`. */
    method SetAll(v: T)
      modifies cells
      ensures forall i, j :: 0 <= i < Height() && 0 <= j < Width() ==> cells[i, j] == v
    {
      for i := 0 to cells.Length0
        invariant forall a, b :: 0 <= a < i && 0 <= b < Width() ==> cells[a, b] == v
      {
        for j := 0 to cells.Length1
          invariant forall a, b :: 0 <= a < i && 0 <= b < Width() ==> cells[a, b] == v
          invariant forall b :: 0 <= b < j ==> cells[i, b] == v
        {
          cells[i, j] := v;
        }
      }
    }

    /** `get`: the cell's value, or `Err` outside the grid. */
    function Get(c: Coords): (r: Result<T, ()>)
      reads cells
      ensures r.Ok? <==> ContainsCoords(Height(), Width(), c)
      ensures r.Ok? ==> r.value == cells[c.0, c.1]
    {
      if ContainsCoords(Height(), Width(), c) then Ok(cells[c.0, c.1]) else Err(())
    }

    /** `set`: writes one cell, or fails outside the grid and writes nothing. */
    method Set(c: Coords, v: T) returns (r: Result<(), ()>)
      modifies cells
      ensures r.Ok? <==> ContainsCoords(Height(), Width(), c)
      ensures forall i, j :: 0 <= i < Height() && 0 <= j < Width() ==>
                cells[i, j] == if r.Ok? && (i, j) == c then v else old(cells[i, j])
      ensures Cells() == if r.Ok? then Update(old(Cells()), c, v) else old(Cells())
    {
      if ContainsCoords(Height(), Width(), c) {
        cells[c.0, c.1] := v;
        r := Ok(());
        assert forall i :: 0 <= i < Height() ==> Cells()[i] == Update(old(Cells()), c, v)[i];
      } else {
        r := Err(());
      }
    }

    /** `position`: the first cell in row-major order that holds `needle`. */
    method Position(needle: T) returns (r: Option<Coords>)
      ensures r.None? <==> forall i, j :: 0 <= i < Height() && 0 <= j < Width() ==> cells[i, j] != needle
      ensures r.Some? ==> ContainsCoords(Height(), Width(), r.value) && cells[r.value.0, r.value.1] == needle
      ensures r.Some? ==> forall i, j :: 0 <= i < Height() && 0 <= j < Width() && Before((i, j), r.value) ==>
                                           cells[i, j] != needle
    {
      for i := 0 to cells.Length0
        invariant forall a, b :: 0 <= a < i && 0 <= b < Width() ==> cells[a, b] != needle
      {
        for j := 0 to cells.Length1
          invariant forall a, b :: 0 <= a < i && 0 <= b < Width() ==> cells[a, b] != needle
          invariant forall b :: 0 <= b < j ==> cells[i, b] != needle
        {
          if Get((i, j)).value == needle {
            return Some((i, j));
          }
        }
      }
      return None;
    }
  }

  /** Why `file_lines_to_char_grid` rejects its input. */
  datatype GridError = IncorrectLineCount(found: nat, expected: nat) | IncorrectLineLength(expected: nat)

  /** `file_lines_to_char_grid`: character `j` of line `i` goes to cell
      `(i, j)` (characters that do not fit are dropped); the line count is
      checked first, then every line's length. */
  method FileLinesToCharGrid(lines: seq<string>, height: nat, width: nat) returns (r: Result<Grid<char>, GridError>)
    ensures |lines| != height ==> r == Err(IncorrectLineCount(|lines|, height))
    ensures |lines| == height && (exists i :: 0 <= i < |lines| && |lines[i]| != width) ==>
              r == Err(IncorrectLineLength(width))
    ensures r.Ok? <==> |lines| == height && forall i :: 0 <= i < |lines| ==> |lines[i]| == width
    ensures r.Ok? ==> fresh(r.value.cells) && r.value.Height() == height && r.value.Width() == width
    ensures r.Ok? ==> r.value.Cells() == lines
  {
    var grid := new Grid<char>.Create(height, width, '\0');
    var numLines := 0;
    var lineLengthsValid := true;
    for i := 0 to |lines|
      invariant numLines == i
      invariant lineLengthsValid <==> forall k :: 0 <= k < i ==> |lines[k]| == width
      invariant forall a, b :: 0 <= a < height && 0 <= b < width ==>
                  grid.cells[a, b] == if a < i && b < |lines[a]| then lines[a][b] else '\0'
    {
      numLines := numLines + 1;
      var line := lines[i];
      if |line| != width {
        lineLengthsValid := false;
      }
      for j := 0 to |line|
        invariant forall a, b :: 0 <= a < height && 0 <= b < width ==>
                    grid.cells[a, b] == if a < i && b < |lines[a]| then lines[a][b]
                                        else if a == i && b < j then line[b]
                                        else '\0'
      {
        var _ := grid.Set((i, j), line[j]);
      }
    }
    if numLines != height {
      return Err(IncorrectLineCount(numLines, height));
    } else if !lineLengthsValid {
      return Err(IncorrectLineLength(width));
    }
    assert forall a :: 0 <= a < height ==> grid.Cells()[a] == lines[a];
    return Ok(grid);
  }
}
