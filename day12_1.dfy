/**
 * Day 12, part 1 (src/bin/day_12_1.rs): can a tree's presents be packed
 * into the space below it?
 *
 * The space below a tree is a fixed `MAX_TREE_SIZE` by `MAX_TREE_SIZE`
 * boolean grid (`true` = occupied) whose cells outside the tree's shape
 * start occupied. A present is a 3 by 3 bitmap; placing it at an anchor
 * under one of eight rotation/reflection transforms marks its filled cells,
 * and fails if one of them is outside the grid or already occupied. The
 * search places the presents one after another, trying free anchors in
 * row-major order, four rotations and both flips, cloning the grid for
 * every placement. One area check before the search rejects trees whose
 * presents need more cells than are free.
 *
 * Grids are values (`seq<seq<bool>>`) in the specification functions and
 * `Grid<bool>` objects in the methods that fill and clone them.
 */
module Day12Part1 {
  import opened Wrappers
  import opened Strings
  import opened CoordGrid

  const PRESENT_SIZE: nat := 3
  const N_PRESENT_TYPES: nat := 6
  const MAX_TREE_SIZE: nat := 50

  /** A present's shape: `true` where it fills the cell. */
  type Present = seq<seq<bool>>

  predicate IsPresent(p: Present)
  {
    IsGrid(p, PRESENT_SIZE, PRESENT_SIZE)
  }

  /** The contents of the space below a tree. */
  predicate IsSpace(rows: seq<seq<bool>>)
  {
    IsGrid(rows, MAX_TREE_SIZE, MAX_TREE_SIZE)
  }

  /** `struct Tree`: its shape, the space below it and how many presents of
      each type go there. */
  datatype Tree = Tree(shape: (nat, nat), grid: Grid<bool>, presents: seq<nat>)

  predicate ValidTree(t: Tree)
  {
    t.grid.Height() == MAX_TREE_SIZE && t.grid.Width() == MAX_TREE_SIZE && |t.presents| == N_PRESENT_TYPES
  }

  /* ---------------------------------------------------------------- */
  /* An empty tree                                                      */
  /* ---------------------------------------------------------------- */

  /** The space below a new `sizeI` by `sizeJ` tree: only the cells of the
      shape are free. */
  function Space(sizeI: nat, sizeJ: nat): (rows: seq<seq<bool>>)
    ensures IsSpace(rows)
  {
    seq(MAX_TREE_SIZE, i => seq(MAX_TREE_SIZE, j => i >= sizeI || j >= sizeJ))
  }

  /** Marks the cells of row `i` from column `from` on. */
  method MarkRow(grid: Grid<bool>, i: nat, from: nat)
    requires i < grid.Height()
    modifies grid.cells
    ensures forall a, b :: 0 <= a < grid.Height() && 0 <= b < grid.Width() ==>
              grid.cells[a, b] == (old(grid.cells[a, b]) || (a == i && b >= from))
  {
    var j := from;
    while j < grid.Width()
      invariant forall a, b :: 0 <= a < grid.Height() && 0 <= b < grid.Width() ==>
                  grid.cells[a, b] == (old(grid.cells[a, b]) || (a == i && from <= b < j))
    {
      var r := grid.Set((i, j), true);
      j := j + 1;
    }
  }

  /** `Tree::new`: cells in rows from `sizeI` on or in columns from `sizeJ`
      on are occupied, all others free, and no presents are assigned. */
  method NewTree(sizeI: nat, sizeJ: nat) returns (t: Tree)
    ensures ValidTree(t) && fresh(t.grid.cells)
    ensures t.shape == (sizeI, sizeJ) && t.presents == seq(N_PRESENT_TYPES, _ => 0)
    ensures forall i, j :: 0 <= i < MAX_TREE_SIZE && 0 <= j < MAX_TREE_SIZE ==>
              (t.grid.cells[i, j] <==> i >= sizeI || j >= sizeJ)
    ensures t.grid.Cells() == Space(sizeI, sizeJ)
  {
    var grid := new Grid.Create(MAX_TREE_SIZE, MAX_TREE_SIZE, false);
    grid.SetAll(false);
    var i := sizeI;
    while i < MAX_TREE_SIZE
      invariant forall a, b :: 0 <= a < MAX_TREE_SIZE && 0 <= b < MAX_TREE_SIZE ==>
                  grid.cells[a, b] == (sizeI <= a < i)
    {
      MarkRow(grid, i, 0);
      i := i + 1;
    }
    for i := 0 to MAX_TREE_SIZE
      invariant forall a, b :: 0 <= a < MAX_TREE_SIZE && 0 <= b < MAX_TREE_SIZE ==>
                  grid.cells[a, b] == (a >= sizeI || (a < i && b >= sizeJ))
    {
      MarkRow(grid, i, sizeJ);
    }
    t := Tree((sizeI, sizeJ), grid, seq(N_PRESENT_TYPES, _ => 0));
    assert forall a :: 0 <= a < MAX_TREE_SIZE ==> grid.Cells()[a] == Space(sizeI, sizeJ)[a];
  }

  /* ---------------------------------------------------------------- */
  /* The eight orientations                                             */
  /* ---------------------------------------------------------------- */

  /** Where cell `(i, j)` of a present lands, relative to the anchor, after
      `nRot` quarter turns and, if `flipped`, a reflection. */
  function Offset(i: nat, j: nat, nRot: nat, flipped: bool): (o: Coords)
    requires i < PRESENT_SIZE && j < PRESENT_SIZE
    ensures o.0 < PRESENT_SIZE && o.1 < PRESENT_SIZE
    ensures Unoffset(o.0, o.1, nRot, flipped) == (i, j)
  {
    var s := PRESENT_SIZE;
    var r := nRot % 4;
    if !flipped then
      if r == 0 then (i, j)
      else if r == 1 then (j, s - i - 1)
      else if r == 2 then (s - i - 1, s - j - 1)
      else (s - j - 1, i)
    else
      if r == 0 then (s - i - 1, j)
      else if r == 1 then (s - j - 1, s - i - 1)
      else if r == 2 then (i, s - j - 1)
      else (j, i)
  }

  /** The cell of the present that lands on offset `(u, v)`. */
  function Unoffset(u: nat, v: nat, nRot: nat, flipped: bool): (c: Coords)
    requires u < PRESENT_SIZE && v < PRESENT_SIZE
    ensures c.0 < PRESENT_SIZE && c.1 < PRESENT_SIZE
  {
    var s := PRESENT_SIZE;
    var r := nRot % 4;
    if !flipped then
      if r == 0 then (u, v)
      else if r == 1 then (s - v - 1, u)
      else if r == 2 then (s - u - 1, s - v - 1)
      else (v, s - u - 1)
    else
      if r == 0 then (s - u - 1, v)
      else if r == 1 then (s - v - 1, s - u - 1)
      else if r == 2 then (u, s - v - 1)
      else (v, u)
  }

  /** Every offset is reached: with the round trip in `Offset`'s contract,
      each orientation is a bijection of the 3 by 3 box. */
  lemma OffsetOnto(u: nat, v: nat, nRot: nat, flipped: bool)
    requires u < PRESENT_SIZE && v < PRESENT_SIZE
    ensures var c := Unoffset(u, v, nRot, flipped); Offset(c.0, c.1, nRot, flipped) == (u, v)
  {
  }

  /** The grid cell that cell `(i, j)` of a present anchored at `anchor`
      lands on. */
  function Target(anchor: Coords, i: nat, j: nat, nRot: nat, flipped: bool): Coords
    requires i < PRESENT_SIZE && j < PRESENT_SIZE
  {
    var o := Offset(i, j, nRot, flipped);
    (anchor.0 + o.0, anchor.1 + o.1)
  }

  /** A filled cell of the present coming before `upTo` in row-major order
      lands on `c`. */
  predicate CoversBefore(anchor: Coords, nRot: nat, flipped: bool, p: Present, c: Coords, upTo: Coords)
    requires IsPresent(p)
  {
    && anchor.0 <= c.0 < anchor.0 + PRESENT_SIZE
    && anchor.1 <= c.1 < anchor.1 + PRESENT_SIZE
    && var src := Unoffset(c.0 - anchor.0, c.1 - anchor.1, nRot, flipped);
       p[src.0][src.1] && Before(src, upTo)
  }

  /** Some filled cell of the present lands on `c`. */
  predicate Covers(anchor: Coords, nRot: nat, flipped: bool, p: Present, c: Coords)
    requires IsPresent(p)
  {
    CoversBefore(anchor, nRot, flipped, p, c, (PRESENT_SIZE, 0))
  }

  /** The cells a placement covers are exactly the targets of the present's
      filled cells. */
  lemma CoversTargets(anchor: Coords, nRot: nat, flipped: bool, p: Present, c: Coords)
    requires IsPresent(p)
    ensures Covers(anchor, nRot, flipped, p, c) <==>
            exists i, j :: 0 <= i < PRESENT_SIZE && 0 <= j < PRESENT_SIZE && p[i][j] &&
                           Target(anchor, i, j, nRot, flipped) == c
  {
    if Covers(anchor, nRot, flipped, p, c) {
      var src := Unoffset(c.0 - anchor.0, c.1 - anchor.1, nRot, flipped);
      OffsetOnto(c.0 - anchor.0, c.1 - anchor.1, nRot, flipped);
      assert Target(anchor, src.0, src.1, nRot, flipped) == c;
    }
  }

  /* ---------------------------------------------------------------- */
  /* Placing a present                                                  */
  /* ---------------------------------------------------------------- */

  /** `c` is a cell of the space that is still free. */
  predicate FreeCell(rows: seq<seq<bool>>, c: Coords)
    requires IsSpace(rows)
  {
    c.0 < MAX_TREE_SIZE && c.1 < MAX_TREE_SIZE && !rows[c.0][c.1]
  }

  /** Every filled cell of the present lands on a free cell of the space. */
  predicate Fits(rows: seq<seq<bool>>, anchor: Coords, nRot: nat, flipped: bool, p: Present)
    requires IsSpace(rows) && IsPresent(p)
  {
    forall i, j :: 0 <= i < PRESENT_SIZE && 0 <= j < PRESENT_SIZE && p[i][j] ==>
      FreeCell(rows, Target(anchor, i, j, nRot, flipped))
  }

  /** The space after the placement: the covered cells become occupied. */
  function Placed(rows: seq<seq<bool>>, anchor: Coords, nRot: nat, flipped: bool, p: Present): (r: seq<seq<bool>>)
    requires IsSpace(rows) && IsPresent(p)
    ensures IsSpace(r)
  {
    seq(MAX_TREE_SIZE, a requires 0 <= a < MAX_TREE_SIZE =>
      seq(MAX_TREE_SIZE, b requires 0 <= b < MAX_TREE_SIZE =>
        rows[a][b] || Covers(anchor, nRot, flipped, p, (a, b))))
  }

  /** One filled cell (the `match new_grid.get(..)` in `with_present`): outside the grid or
      occupied fails, a free cell is marked. */
  method PlaceCell(grid: Grid<bool>, c: Coords) returns (ok: bool)
    modifies grid.cells
    ensures ok <==> old(grid.Get(c)) == Ok(false)
    ensures forall a, b :: 0 <= a < grid.Height() && 0 <= b < grid.Width() ==>
              grid.cells[a, b] == (old(grid.cells[a, b]) || (ok && (a, b) == c))
  {
    match grid.Get(c)
    case Err(_) =>
      ok := false;
    case Ok(v) =>
      if v {
        ok := false;
      } else {
        var r := grid.Set(c, true);
        ok := true;
      }
  }

  /** Moving `upTo` past cell `(i, j)` adds that cell's target, if filled. */
  lemma CoversStep(anchor: Coords, nRot: nat, flipped: bool, p: Present, c: Coords, i: nat, j: nat)
    requires IsPresent(p) && i < PRESENT_SIZE && j < PRESENT_SIZE
    ensures CoversBefore(anchor, nRot, flipped, p, c, (i, j + 1)) <==>
            CoversBefore(anchor, nRot, flipped, p, c, (i, j)) || (p[i][j] && c == Target(anchor, i, j, nRot, flipped))
    ensures j + 1 == PRESENT_SIZE ==>
            (CoversBefore(anchor, nRot, flipped, p, c, (i, j + 1)) <==> CoversBefore(anchor, nRot, flipped, p, c, (i + 1, 0)))
  {
    var t := Target(anchor, i, j, nRot, flipped);
    if anchor.0 <= c.0 < anchor.0 + PRESENT_SIZE && anchor.1 <= c.1 < anchor.1 + PRESENT_SIZE {
      OffsetOnto(c.0 - anchor.0, c.1 - anchor.1, nRot, flipped);
    }
  }

  /** The grid holds the space with the filled cells before `upTo` placed. */
  ghost predicate PlacedBefore(grid: Grid<bool>, rows: seq<seq<bool>>, anchor: Coords, nRot: nat, flipped: bool,
                               p: Present, upTo: Coords)
    requires IsSpace(rows) && IsPresent(p)
    reads grid.cells
  {
    && grid.Height() == MAX_TREE_SIZE && grid.Width() == MAX_TREE_SIZE
    && (forall a, b :: 0 <= a < MAX_TREE_SIZE && 0 <= b < MAX_TREE_SIZE ==>
          grid.cells[a, b] == (rows[a][b] || CoversBefore(anchor, nRot, flipped, p, (a, b), upTo)))
  }

  /** The filled cells before `upTo` all land on free cells. */
  predicate FitsBefore(rows: seq<seq<bool>>, anchor: Coords, nRot: nat, flipped: bool, p: Present, upTo: Coords)
    requires IsSpace(rows) && IsPresent(p)
  {
    forall i, j :: 0 <= i < PRESENT_SIZE && 0 <= j < PRESENT_SIZE && Before((i, j), upTo) && p[i][j] ==>
      FreeCell(rows, Target(anchor, i, j, nRot, flipped))
  }

  /** With every present cell passed, the grid holds `Placed`. */
  lemma PlacedAll(grid: Grid<bool>, rows: seq<seq<bool>>, anchor: Coords, nRot: nat, flipped: bool, p: Present)
    requires IsSpace(rows) && IsPresent(p)
    requires PlacedBefore(grid, rows, anchor, nRot, flipped, p, (PRESENT_SIZE, 0))
    ensures grid.Cells() == Placed(rows, anchor, nRot, flipped, p)
  {
    var placed := Placed(rows, anchor, nRot, flipped, p);
    forall a | 0 <= a < MAX_TREE_SIZE
      ensures grid.Cells()[a] == placed[a]
    {
      assert forall b :: 0 <= b < MAX_TREE_SIZE ==> grid.Cells()[a][b] == placed[a][b];
    }
  }

  /** Passing filled cell `(i, j)` extends `FitsBefore` past it. */
  lemma FitsBeforeStep(rows: seq<seq<bool>>, anchor: Coords, nRot: nat, flipped: bool, p: Present, i: nat, j: nat)
    requires IsSpace(rows) && IsPresent(p) && i < PRESENT_SIZE && j < PRESENT_SIZE
    requires FitsBefore(rows, anchor, nRot, flipped, p, (i, j))
    requires p[i][j] ==> FreeCell(rows, Target(anchor, i, j, nRot, flipped))
    ensures FitsBefore(rows, anchor, nRot, flipped, p, (i, j + 1))
    ensures j + 1 == PRESENT_SIZE ==> FitsBefore(rows, anchor, nRot, flipped, p, (i + 1, 0))
  {
    forall a, b | 0 <= a < PRESENT_SIZE && 0 <= b < PRESENT_SIZE && Before((a, b), (i, j + 1)) && p[a][b]
      ensures FreeCell(rows, Target(anchor, a, b, nRot, flipped))
    {
      if (a, b) != (i, j) {
        assert Before((a, b), (i, j));
      }
    }
  }

  /** No filled cell before `(i, j)` lands where `(i, j)` lands. */
  lemma TargetNotCoveredBefore(anchor: Coords, nRot: nat, flipped: bool, p: Present, i: nat, j: nat)
    requires IsPresent(p) && i < PRESENT_SIZE && j < PRESENT_SIZE
    ensures !CoversBefore(anchor, nRot, flipped, p, Target(anchor, i, j, nRot, flipped), (i, j))
  {
  }

  /** One step of the `.all(..)` in `with_present`, for present cell `(i, j)`:
      an empty cell is skipped, a filled one is placed or ends the loop. */
  method PlacePresentCell(grid: Grid<bool>, ghost rows: seq<seq<bool>>, anchor: Coords, nRot: nat, flipped: bool,
                          p: Present, i: nat, j: nat) returns (ok: bool)
    requires IsSpace(rows) && IsPresent(p) && i < PRESENT_SIZE && j < PRESENT_SIZE
    requires PlacedBefore(grid, rows, anchor, nRot, flipped, p, (i, j))
    requires FitsBefore(rows, anchor, nRot, flipped, p, (i, j))
    modifies grid.cells
    ensures ok ==> PlacedBefore(grid, rows, anchor, nRot, flipped, p, (i, j + 1))
    ensures ok ==> FitsBefore(rows, anchor, nRot, flipped, p, (i, j + 1))
    ensures ok && j + 1 == PRESENT_SIZE ==> PlacedBefore(grid, rows, anchor, nRot, flipped, p, (i + 1, 0))
    ensures ok && j + 1 == PRESENT_SIZE ==> FitsBefore(rows, anchor, nRot, flipped, p, (i + 1, 0))
    ensures !ok ==> !Fits(rows, anchor, nRot, flipped, p)
  {
    ok := true;
    if p[i][j] {
      var t := Target(anchor, i, j, nRot, flipped);
      ok := PlaceCell(grid, t);
      if !ok {
        TargetNotCoveredBefore(anchor, nRot, flipped, p, i, j);
        assert !FreeCell(rows, t);
        return;
      }
    }
    FitsBeforeStep(rows, anchor, nRot, flipped, p, i, j);
    forall a, b | 0 <= a < MAX_TREE_SIZE && 0 <= b < MAX_TREE_SIZE {
      CoversStep(anchor, nRot, flipped, p, (a, b), i, j);
    }
  }

  /** The `.all(..)` of `with_present` over the present's cells in row-major
      order, stopping at the first cell that cannot be placed. */
  method PlaceAll(grid: Grid<bool>, ghost rows: seq<seq<bool>>, anchor: Coords, nRot: nat, flipped: bool, p: Present)
    returns (ok: bool)
    requires IsSpace(rows) && IsPresent(p)
    requires PlacedBefore(grid, rows, anchor, nRot, flipped, p, (0, 0))
    modifies grid.cells
    ensures ok <==> Fits(rows, anchor, nRot, flipped, p)
    ensures ok ==> PlacedBefore(grid, rows, anchor, nRot, flipped, p, (PRESENT_SIZE, 0))
  {
    for i := 0 to PRESENT_SIZE
      invariant PlacedBefore(grid, rows, anchor, nRot, flipped, p, (i, 0))
      invariant FitsBefore(rows, anchor, nRot, flipped, p, (i, 0))
    {
      ok := PlacePresentRow(grid, rows, anchor, nRot, flipped, p, i);
      if !ok {
        return;
      }
    }
    ok := true;
  }

  /** The cells of row `i` of the present, in order, within the `.all(..)`
      of `with_present`. */
  method PlacePresentRow(grid: Grid<bool>, ghost rows: seq<seq<bool>>, anchor: Coords, nRot: nat, flipped: bool,
                         p: Present, i: nat) returns (ok: bool)
    requires IsSpace(rows) && IsPresent(p) && i < PRESENT_SIZE
    requires PlacedBefore(grid, rows, anchor, nRot, flipped, p, (i, 0))
    requires FitsBefore(rows, anchor, nRot, flipped, p, (i, 0))
    modifies grid.cells
    ensures ok ==> PlacedBefore(grid, rows, anchor, nRot, flipped, p, (i + 1, 0))
    ensures ok ==> FitsBefore(rows, anchor, nRot, flipped, p, (i + 1, 0))
    ensures !ok ==> !Fits(rows, anchor, nRot, flipped, p)
  {
    ok := true;
    for j := 0 to PRESENT_SIZE
      invariant ok
      invariant PlacedBefore(grid, rows, anchor, nRot, flipped, p, (i, j))
      invariant FitsBefore(rows, anchor, nRot, flipped, p, (i, j))
      invariant j == PRESENT_SIZE ==> PlacedBefore(grid, rows, anchor, nRot, flipped, p, (i + 1, 0))
      invariant j == PRESENT_SIZE ==> FitsBefore(rows, anchor, nRot, flipped, p, (i + 1, 0))
    {
      ok := PlacePresentCell(grid, rows, anchor, nRot, flipped, p, i, j);
      if !ok {
        return;
      }
    }
  }

  /** `Tree::with_present`: the tree with the present placed, if every
      filled cell lands on a free cell of the grid; the shape and the demand
      counts are kept and the original tree is unchanged. */
  method WithPresent(tree: Tree, coords: Coords, nRot: nat, flipped: bool, present: Present) returns (r: Result<Tree, ()>)
    requires ValidTree(tree) && IsPresent(present)
    ensures r.Ok? <==> Fits(tree.grid.Cells(), coords, nRot, flipped, present)
    ensures r.Ok? ==> ValidTree(r.value) && fresh(r.value.grid.cells)
    ensures r.Ok? ==> r.value == tree.(grid := r.value.grid)
    ensures r.Ok? ==> r.value.grid.Cells() == Placed(tree.grid.Cells(), coords, nRot, flipped, present)
  {
    ghost var rows := tree.grid.Cells();
    var newGrid := tree.grid.Clone();
    assert newGrid.Cells() == rows;
    assert newGrid.Height() == |rows| && newGrid.Width() == |rows[0]|;
    var ok := PlaceAll(newGrid, rows, coords, nRot, flipped, present);
    if ok {
      PlacedAll(newGrid, rows, coords, nRot, flipped, present);
      r := Ok(tree.(grid := newGrid));
    } else {
      r := Err(());
    }
  }

  /* ---------------------------------------------------------------- */
  /* The search                                                         */
  /* ---------------------------------------------------------------- */

  predicate AllPresents(queue: seq<Present>)
  {
    forall k :: 0 <= k < |queue| ==> IsPresent(queue[k])
  }

  /** The free cells among `cs`, in the order of `cs`. */
  function FreeAmong(rows: seq<seq<bool>>, cs: seq<Coords>): (free: seq<Coords>)
    requires IsSpace(rows)
    requires forall c: Coords :: c in cs ==> c.0 < MAX_TREE_SIZE && c.1 < MAX_TREE_SIZE
    ensures forall c: Coords :: c in free <==> c in cs && !rows[c.0][c.1]
    ensures RowMajor(cs) ==> RowMajor(free)
  {
    if |cs| == 0 then []
    else
      var init := cs[..|cs| - 1];
      var last := cs[|cs| - 1];
      assert forall c :: c in init ==> c in cs;
      var rest := FreeAmong(rows, init);
      assert RowMajor(cs) ==> forall a :: 0 <= a < |rest| ==> Before(rest[a], last) by {
        if RowMajor(cs) {
          forall a | 0 <= a < |rest|
            ensures Before(rest[a], last)
          {
            assert rest[a] in init;
          }
        }
      }
      if rows[last.0][last.1] then rest else rest + [last]
  }

  /** `Tree::iter_free_coords`: the free cells whose row and column are
      both below `MAX_TREE_SIZE - padding`, in row-major order. */
  function FreeCoords(rows: seq<seq<bool>>, padding: nat): (free: seq<Coords>)
    requires IsSpace(rows) && padding <= MAX_TREE_SIZE
    ensures forall c: Coords :: c in free <==>
              ContainsCoords(MAX_TREE_SIZE - padding, MAX_TREE_SIZE - padding, c) && !rows[c.0][c.1]
    ensures RowMajor(free)
  {
    var n := MAX_TREE_SIZE - padding;
    FreeAmong(rows, IterCoords(n, n))
  }

  /** `is_valid_inner`'s verdict: the presents of `queue` from `idx` on can
      be placed one after another, each anchored at a free cell of the
      space left by the ones before it (padding 2). */
  function CanPack(rows: seq<seq<bool>>, queue: seq<Present>, idx: nat): bool
    requires IsSpace(rows) && AllPresents(queue)
    decreases |queue| - idx, 2
  {
    idx >= |queue| ||
    exists c :: c in FreeCoords(rows, 2) && AnchorWorks(rows, queue, idx, c)
  }

  /** Some orientation of present `idx` fits at `c` and leaves room for the
      rest. */
  function AnchorWorks(rows: seq<seq<bool>>, queue: seq<Present>, idx: nat, c: Coords): bool
    requires IsSpace(rows) && AllPresents(queue) && idx < |queue|
    decreases |queue| - idx, 1
  {
    exists nRot: nat, flipped: bool :: nRot < 4 && OrientationWorks(rows, queue, idx, c, nRot, flipped)
  }

  /** Present `idx` fits at `c` in this orientation and the rest can be
      packed around it. */
  function OrientationWorks(rows: seq<seq<bool>>, queue: seq<Present>, idx: nat, c: Coords, nRot: nat, flipped: bool): bool
    requires IsSpace(rows) && AllPresents(queue) && idx < |queue|
    decreases |queue| - idx, 0
  {
    Fits(rows, c, nRot, flipped, queue[idx]) &&
    CanPack(Placed(rows, c, nRot, flipped, queue[idx]), queue, idx + 1)
  }

  /** `is_valid_inner`: `true` once the queue is exhausted, otherwise the
      first free anchor (row-major) at which some orientation works. */
  method IsValidInner(tree: Tree, queue: seq<Present>, idx: nat) returns (b: bool)
    requires ValidTree(tree) && AllPresents(queue)
    ensures b == CanPack(tree.grid.Cells(), queue, idx)
    decreases |queue| - idx, 2
  {
    if idx >= |queue| {
      return true;
    }
    ghost var rows := tree.grid.Cells();
    var free := FreeCoords(tree.grid.Cells(), 2);
    b := false;
    var k := 0;
    while k < |free| && !b
      invariant k <= |free| && tree.grid.Cells() == rows
      invariant b ==> 0 < k && AnchorWorks(rows, queue, idx, free[k - 1])
      invariant !b ==> forall a :: 0 <= a < k ==> !AnchorWorks(rows, queue, idx, free[a])
    {
      b := TryAnchor(tree, queue, idx, free[k]);
      k := k + 1;
    }
    AnchorSearchDone(rows, queue, idx, b, k);
  }

  /** The anchor loop's exit: it stopped at an anchor that works, or it
      ran through all free anchors without one. */
  lemma AnchorSearchDone(rows: seq<seq<bool>>, queue: seq<Present>, idx: nat, b: bool, k: nat)
    requires IsSpace(rows) && AllPresents(queue) && idx < |queue| && k <= |FreeCoords(rows, 2)|
    requires b ==> 0 < k && AnchorWorks(rows, queue, idx, FreeCoords(rows, 2)[k - 1])
    requires !b ==> k == |FreeCoords(rows, 2)|
                    && forall a :: 0 <= a < k ==> !AnchorWorks(rows, queue, idx, FreeCoords(rows, 2)[a])
    ensures b == CanPack(rows, queue, idx)
  {
    if b {
      AnchorPacks(rows, queue, idx, FreeCoords(rows, 2)[k - 1]);
    } else {
      NoAnchorCannotPack(rows, queue, idx);
    }
  }

  /** An anchor that works makes the search succeed. */
  lemma AnchorPacks(rows: seq<seq<bool>>, queue: seq<Present>, idx: nat, c: Coords)
    requires IsSpace(rows) && AllPresents(queue) && idx < |queue|
    requires c in FreeCoords(rows, 2) && AnchorWorks(rows, queue, idx, c)
    ensures CanPack(rows, queue, idx)
  {
  }

  /** With no anchor that works, the search fails. */
  lemma NoAnchorCannotPack(rows: seq<seq<bool>>, queue: seq<Present>, idx: nat)
    requires IsSpace(rows) && AllPresents(queue) && idx < |queue|
    requires forall a :: 0 <= a < |FreeCoords(rows, 2)| ==> !AnchorWorks(rows, queue, idx, FreeCoords(rows, 2)[a])
    ensures !CanPack(rows, queue, idx)
  {
    var free := FreeCoords(rows, 2);
    forall c | c in free
      ensures !AnchorWorks(rows, queue, idx, c)
    {
      var a :| 0 <= a < |free| && free[a] == c;
    }
  }

  /** `(0..=3).any(..)` over the rotations at one anchor. */
  method TryAnchor(tree: Tree, queue: seq<Present>, idx: nat, c: Coords) returns (b: bool)
    requires ValidTree(tree) && AllPresents(queue) && idx < |queue|
    ensures b == AnchorWorks(tree.grid.Cells(), queue, idx, c)
    decreases |queue| - idx, 1
  {
    ghost var rows := tree.grid.Cells();
    for nRot := 0 to 4
      invariant forall r: nat :: r < nRot ==> !OrientationWorks(rows, queue, idx, c, r, true)
      invariant forall r: nat :: r < nRot ==> !OrientationWorks(rows, queue, idx, c, r, false)
    {
      b := TryOrientation(tree, queue, idx, c, nRot, true);
      if b {
        return;
      }
      assert tree.grid.Cells() == rows;
      b := TryOrientation(tree, queue, idx, c, nRot, false);
      if b {
        return;
      }
      assert tree.grid.Cells() == rows;
      forall r: nat | r < nRot + 1
        ensures !OrientationWorks(rows, queue, idx, c, r, true)
        ensures !OrientationWorks(rows, queue, idx, c, r, false)
      {
      }
    }
    b := false;
  }

  /** One candidate: place the present and search on with the new tree. */
  method TryOrientation(tree: Tree, queue: seq<Present>, idx: nat, c: Coords, nRot: nat, flipped: bool)
    returns (b: bool)
    requires ValidTree(tree) && AllPresents(queue) && idx < |queue|
    ensures b == OrientationWorks(tree.grid.Cells(), queue, idx, c, nRot, flipped)
    decreases |queue| - idx, 0
  {
    var r := WithPresent(tree, c, nRot, flipped, queue[idx]);
    match r
    case Ok(newTree) =>
      b := IsValidInner(newTree, queue, idx + 1);
    case Err(_) =>
      b := false;
  }

  /* ---------------------------------------------------------------- */
  /* The queue of presents                                              */
  /* ---------------------------------------------------------------- */

  function Sum(counts: seq<nat>): nat
  {
    if |counts| == 0 then 0 else Sum(counts[..|counts| - 1]) + counts[|counts| - 1]
  }

  function Repeat(p: Present, n: nat): (r: seq<Present>)
  {
    seq(n, _ => p)
  }

  /** `counts[k]` copies of `types[k]` for each type, in type order. */
  function Expand(counts: seq<nat>, types: seq<Present>): (queue: seq<Present>)
    requires |counts| <= |types|
    ensures forall k :: 0 <= k < |queue| ==> queue[k] in types
  {
    if |counts| == 0 then []
    else Expand(counts[..|counts| - 1], types) + Repeat(types[|counts| - 1], counts[|counts| - 1])
  }

  /** The `for_each` of `is_valid` that pushes the presents onto a vector. */
  method ExpandQueue(counts: seq<nat>, types: seq<Present>) returns (queue: seq<Present>)
    requires |counts| <= |types|
    ensures queue == Expand(counts, types)
  {
    queue := [];
    for k := 0 to |counts|
      invariant queue == Expand(counts[..k], types)
    {
      for n := 0 to counts[k]
        invariant queue == Expand(counts[..k], types) + Repeat(types[k], n)
      {
        queue := queue + [types[k]];
      }
      assert counts[..k + 1][..k] == counts[..k];
    }
    assert counts[..|counts|] == counts;
  }

  lemma {:induction false} SumPrefix(counts: seq<nat>, k: nat)
    requires k <= |counts|
    ensures Sum(counts[..k]) <= Sum(counts)
    decreases |counts|
  {
    if k < |counts| {
      var init := counts[..|counts| - 1];
      assert counts[..k] == init[..k];
      SumPrefix(init, k);
    } else {
      assert counts[..k] == counts;
    }
  }

  /** The queue holds one present per unit of demand, and the presents of
      type `k` occupy the slots from `Sum(counts[..k])` to
      `Sum(counts[..k + 1])`. */
  lemma {:induction false} ExpandSlots(counts: seq<nat>, types: seq<Present>)
    requires |counts| <= |types|
    ensures |Expand(counts, types)| == Sum(counts)
    ensures forall k, p :: 0 <= k < |counts| && Sum(counts[..k]) <= p < Sum(counts[..k + 1]) && p < |Expand(counts, types)| ==>
              Expand(counts, types)[p] == types[k]
    decreases |counts|
  {
    if |counts| > 0 {
      var n := |counts| - 1;
      var init := counts[..n];
      ExpandSlots(init, types);
      assert counts[..n] == init;
      forall k, p | 0 <= k < |counts| && Sum(counts[..k]) <= p < Sum(counts[..k + 1]) && p < |Expand(counts, types)|
        ensures Expand(counts, types)[p] == types[k]
      {
        if k < n {
          assert counts[..k] == init[..k] && counts[..k + 1] == init[..k + 1];
          SumPrefix(init, k + 1);
        } else {
          assert counts[..k + 1] == counts;
        }
      }
    }
  }

  /* ---------------------------------------------------------------- */
  /* Areas                                                              */
  /* ---------------------------------------------------------------- */

  /** Whether a cell of the present is filled (`true` outside it). */
  function FilledTest(p: Present): Coords -> bool
  {
    (c: Coords) => c.0 < |p| && c.1 < |p[c.0]| && p[c.0][c.1]
  }

  /** Whether a cell of the space is free (`false` outside it). */
  function FreeTest(rows: seq<seq<bool>>): Coords -> bool
  {
    (c: Coords) => c.0 < |rows| && c.1 < |rows[c.0]| && !rows[c.0][c.1]
  }

  /** The number of cells a present fills (`required_spaces` in `is_valid`). */
  function PresentArea(p: Present): (n: nat)
    ensures n <= PRESENT_SIZE * PRESENT_SIZE
  {
    CountWhere(IterCoords(PRESENT_SIZE, PRESENT_SIZE), FilledTest(p))
  }

  /** The summed area of a queue of presents (`required_spaces` in `is_valid`). */
  function RequiredArea(queue: seq<Present>): (n: nat)
    ensures n <= |queue| * (PRESENT_SIZE * PRESENT_SIZE)
  {
    if |queue| == 0 then 0 else PresentArea(queue[0]) + RequiredArea(queue[1..])
  }

  /** The number of free cells of the space (`free_spaces` in `is_valid`). */
  function FreeSpaces(rows: seq<seq<bool>>): (n: nat)
    ensures n <= MAX_TREE_SIZE * MAX_TREE_SIZE
  {
    CountWhere(IterCoords(MAX_TREE_SIZE, MAX_TREE_SIZE), FreeTest(rows))
  }

  ghost function FreeSet(rows: seq<seq<bool>>): set<Coords>
    requires IsSpace(rows)
  {
    set c | c in IterCoords(MAX_TREE_SIZE, MAX_TREE_SIZE) && FreeTest(rows)(c)
  }

  ghost function FilledSet(p: Present): set<Coords>
    requires IsPresent(p)
  {
    set c | c in IterCoords(PRESENT_SIZE, PRESENT_SIZE) && FilledTest(p)(c)
  }

  /** Where the cells of `s` land. */
  ghost function Targets(s: set<Coords>, anchor: Coords, nRot: nat, flipped: bool): set<Coords>
  {
    set c | c in s && c.0 < PRESENT_SIZE && c.1 < PRESENT_SIZE :: Target(anchor, c.0, c.1, nRot, flipped)
  }

  lemma FreeSpacesCard(rows: seq<seq<bool>>)
    requires IsSpace(rows)
    ensures FreeSpaces(rows) == |FreeSet(rows)|
  {
    CountWhereIterCoords(MAX_TREE_SIZE, MAX_TREE_SIZE, FreeTest(rows));
  }

  lemma PresentAreaCard(p: Present)
    requires IsPresent(p)
    ensures PresentArea(p) == |FilledSet(p)|
  {
    CountWhereIterCoords(PRESENT_SIZE, PRESENT_SIZE, FilledTest(p));
  }

  /** Distinct cells of a present land on distinct cells. */
  lemma TargetInjective(anchor: Coords, x: Coords, y: Coords, nRot: nat, flipped: bool)
    requires x.0 < PRESENT_SIZE && x.1 < PRESENT_SIZE && y.0 < PRESENT_SIZE && y.1 < PRESENT_SIZE
    requires Target(anchor, x.0, x.1, nRot, flipped) == Target(anchor, y.0, y.1, nRot, flipped)
    ensures x == y
  {
    var ox := Offset(x.0, x.1, nRot, flipped);
    assert Offset(y.0, y.1, nRot, flipped) == ox;
  }

  /** Adding a cell to `s` adds its target to `Targets(s)`. */
  lemma TargetsAdd(s: set<Coords>, x: Coords, anchor: Coords, nRot: nat, flipped: bool)
    requires forall c :: c in s ==> c.0 < PRESENT_SIZE && c.1 < PRESENT_SIZE
    requires x.0 < PRESENT_SIZE && x.1 < PRESENT_SIZE && x !in s
    ensures Targets(s + {x}, anchor, nRot, flipped) == Targets(s, anchor, nRot, flipped) + {Target(anchor, x.0, x.1, nRot, flipped)}
    ensures Target(anchor, x.0, x.1, nRot, flipped) !in Targets(s, anchor, nRot, flipped)
  {
    var t := Target(anchor, x.0, x.1, nRot, flipped);
    forall y | y in s
      ensures Target(anchor, y.0, y.1, nRot, flipped) != t
    {
      if Target(anchor, y.0, y.1, nRot, flipped) == t {
        TargetInjective(anchor, x, y, nRot, flipped);
      }
    }
  }

  /** A placement covers as many cells as the present fills. */
  lemma {:induction false} TargetsCard(s: set<Coords>, anchor: Coords, nRot: nat, flipped: bool)
    requires forall c :: c in s ==> c.0 < PRESENT_SIZE && c.1 < PRESENT_SIZE
    ensures |Targets(s, anchor, nRot, flipped)| == |s|
    decreases |s|
  {
    if s != {} {
      var x :| x in s;
      var rest := s - {x};
      TargetsCard(rest, anchor, nRot, flipped);
      TargetsAdd(rest, x, anchor, nRot, flipped);
      assert rest + {x} == s;
    }
  }

  /** The cells a placement covers are the targets of the filled cells. */
  lemma CoversIsTargets(anchor: Coords, nRot: nat, flipped: bool, p: Present, c: Coords)
    requires IsPresent(p)
    ensures Covers(anchor, nRot, flipped, p, c) <==> c in Targets(FilledSet(p), anchor, nRot, flipped)
  {
    CoversTargets(anchor, nRot, flipped, p, c);
    if Covers(anchor, nRot, flipped, p, c) {
      var i, j :| 0 <= i < PRESENT_SIZE && 0 <= j < PRESENT_SIZE && p[i][j] && Target(anchor, i, j, nRot, flipped) == c;
      assert (i, j) in FilledSet(p);
    }
  }

  /** A fitting placement covers only free cells. */
  lemma FitsCoversFree(rows: seq<seq<bool>>, anchor: Coords, nRot: nat, flipped: bool, p: Present)
    requires IsSpace(rows) && IsPresent(p) && Fits(rows, anchor, nRot, flipped, p)
    ensures Targets(FilledSet(p), anchor, nRot, flipped) <= FreeSet(rows)
  {
    forall c | c in Targets(FilledSet(p), anchor, nRot, flipped)
      ensures c in FreeSet(rows)
    {
      var x :| x in FilledSet(p) && x.0 < PRESENT_SIZE && x.1 < PRESENT_SIZE && c == Target(anchor, x.0, x.1, nRot, flipped);
      assert p[x.0][x.1];
    }
  }

  /** A placement takes exactly the covered cells out of the free cells. */
  lemma PlacedFreeSet(rows: seq<seq<bool>>, anchor: Coords, nRot: nat, flipped: bool, p: Present)
    requires IsSpace(rows) && IsPresent(p)
    ensures FreeSet(Placed(rows, anchor, nRot, flipped, p)) == FreeSet(rows) - Targets(FilledSet(p), anchor, nRot, flipped)
  {
    forall c: Coords
      ensures c in FreeSet(Placed(rows, anchor, nRot, flipped, p)) <==>
              c in FreeSet(rows) && c !in Targets(FilledSet(p), anchor, nRot, flipped)
    {
      PlacedFreeCell(rows, anchor, nRot, flipped, p, c);
      CoversIsTargets(anchor, nRot, flipped, p, c);
    }
  }

  lemma PlacedFreeCell(rows: seq<seq<bool>>, anchor: Coords, nRot: nat, flipped: bool, p: Present, c: Coords)
    requires IsSpace(rows) && IsPresent(p)
    ensures FreeTest(Placed(rows, anchor, nRot, flipped, p))(c) <==> FreeTest(rows)(c) && !Covers(anchor, nRot, flipped, p, c)
  {
  }

  /** Placing a present that fits uses up exactly its area. */
  lemma PlacementArea(rows: seq<seq<bool>>, anchor: Coords, nRot: nat, flipped: bool, p: Present)
    requires IsSpace(rows) && IsPresent(p) && Fits(rows, anchor, nRot, flipped, p)
    ensures FreeSpaces(Placed(rows, anchor, nRot, flipped, p)) + PresentArea(p) == FreeSpaces(rows)
  {
    FitsCoversFree(rows, anchor, nRot, flipped, p);
    PlacedFreeSet(rows, anchor, nRot, flipped, p);
    FreeSpacesCard(rows);
    FreeSpacesCard(Placed(rows, anchor, nRot, flipped, p));
    PresentAreaCard(p);
    TargetsCard(FilledSet(p), anchor, nRot, flipped);
  }

  /** The placement of the next present that a successful search makes. */
  lemma FirstPlacement(rows: seq<seq<bool>>, queue: seq<Present>, idx: nat) returns (c: Coords, nRot: nat, flipped: bool)
    requires IsSpace(rows) && AllPresents(queue) && idx < |queue|
    requires CanPack(rows, queue, idx)
    ensures c in FreeCoords(rows, 2) && nRot < 4
    ensures Fits(rows, c, nRot, flipped, queue[idx])
    ensures CanPack(Placed(rows, c, nRot, flipped, queue[idx]), queue, idx + 1)
  {
    c :| c in FreeCoords(rows, 2) && AnchorWorks(rows, queue, idx, c);
    nRot, flipped := OrientationAt(rows, queue, idx, c);
  }

  /** The orientation that works at an anchor that works. */
  lemma OrientationAt(rows: seq<seq<bool>>, queue: seq<Present>, idx: nat, c: Coords) returns (nRot: nat, flipped: bool)
    requires IsSpace(rows) && AllPresents(queue) && idx < |queue|
    requires AnchorWorks(rows, queue, idx, c)
    ensures nRot < 4 && OrientationWorks(rows, queue, idx, c, nRot, flipped)
  {
    nRot, flipped :| nRot < 4 && OrientationWorks(rows, queue, idx, c, nRot, flipped);
  }

  /** A successful search never needs more cells than are free, so the
      area check of `is_valid` rejects only trees the search would reject. */
  lemma {:induction false} PackNeedsArea(rows: seq<seq<bool>>, queue: seq<Present>, idx: nat)
    requires IsSpace(rows) && AllPresents(queue) && idx <= |queue|
    requires CanPack(rows, queue, idx)
    ensures RequiredArea(queue[idx..]) <= FreeSpaces(rows)
    decreases |queue| - idx
  {
    if idx < |queue| {
      var c, nRot, flipped := FirstPlacement(rows, queue, idx);
      PackNeedsArea(Placed(rows, c, nRot, flipped, queue[idx]), queue, idx + 1);
      PlacementArea(rows, c, nRot, flipped, queue[idx]);
      assert queue[idx..][1..] == queue[idx + 1..];
    }
  }

  /** The area check of `is_valid` only rejects queues the search would. */
  lemma TooLargeCannotPack(rows: seq<seq<bool>>, queue: seq<Present>)
    requires IsSpace(rows) && AllPresents(queue)
    ensures CanPack(rows, queue, 0) ==> RequiredArea(queue) <= FreeSpaces(rows)
  {
    if CanPack(rows, queue, 0) {
      PackNeedsArea(rows, queue, 0);
      assert queue[0..] == queue;
    }
  }

  /** `Tree::is_valid`: the presents go into the queue in type order; if
      their summed area exceeds the free cells the answer is `false` at
      once, otherwise it is the search's. The check never changes the
      verdict. */
  method IsValid(tree: Tree, presentTypes: seq<Present>) returns (b: bool)
    requires ValidTree(tree) && |presentTypes| == N_PRESENT_TYPES && AllPresents(presentTypes)
    ensures RequiredArea(Expand(tree.presents, presentTypes)) > FreeSpaces(tree.grid.Cells()) ==> !b
    ensures b == CanPack(tree.grid.Cells(), Expand(tree.presents, presentTypes), 0)
  {
    var queue := ExpandQueue(tree.presents, presentTypes);
    assert AllPresents(queue) by {
      forall k | 0 <= k < |queue|
        ensures IsPresent(queue[k])
      {
        var t :| 0 <= t < |presentTypes| && presentTypes[t] == queue[k];
      }
    }
    var freeSpaces := FreeSpaces(tree.grid.Cells());
    var requiredSpaces := RequiredArea(queue);
    if freeSpaces < requiredSpaces {
      TooLargeCannotPack(tree.grid.Cells(), queue);
      b := false;
    } else {
      b := IsValidInner(tree, queue, 0);
    }
  }

  /* ---------------------------------------------------------------- */
  /* What a successful search has found                                 */
  /* ---------------------------------------------------------------- */

  /** Where and how one present is put down. */
  datatype Placement = Placement(anchor: Coords, nRot: nat, flipped: bool)

  /** The presents of `queue` from `idx` on, placed as `ps` says, each fit
      the space: all their filled cells land inside it, on free cells. */
  ghost predicate AllFit(rows: seq<seq<bool>>, queue: seq<Present>, idx: nat, ps: seq<Placement>)
    requires IsSpace(rows) && AllPresents(queue) && idx + |ps| <= |queue|
  {
    forall k :: 0 <= k < |ps| ==> Fits(rows, ps[k].anchor, ps[k].nRot, ps[k].flipped, queue[idx + k])
  }

  /** No two of the placed presents share a cell. */
  ghost predicate Disjoint(queue: seq<Present>, idx: nat, ps: seq<Placement>)
    requires AllPresents(queue) && idx + |ps| <= |queue|
  {
    forall k, l :: 0 <= k < l < |ps| ==> Apart(queue, idx, ps, k, l)
  }

  /** The `k`-th and `l`-th placed presents share no cell. */
  ghost predicate Apart(queue: seq<Present>, idx: nat, ps: seq<Placement>, k: nat, l: nat)
    requires AllPresents(queue) && idx + |ps| <= |queue| && k < |ps| && l < |ps|
  {
    Separate(ps[k], queue[idx + k], ps[l], queue[idx + l])
  }

  /** Present `p` placed at `first` and present `q` placed at `second`
      share no cell. */
  ghost predicate Separate(first: Placement, p: Present, second: Placement, q: Present)
    requires IsPresent(p) && IsPresent(q)
  {
    forall c :: Covers(first.anchor, first.nRot, first.flipped, p, c) ==>
      !Covers(second.anchor, second.nRot, second.flipped, q, c)
  }

  /** `ps` packs every present of `queue` from `idx` on into the space. */
  ghost predicate IsPacking(rows: seq<seq<bool>>, queue: seq<Present>, idx: nat, ps: seq<Placement>)
    requires IsSpace(rows) && AllPresents(queue) && idx <= |queue|
  {
    |ps| == |queue| - idx && AllFit(rows, queue, idx, ps) && Disjoint(queue, idx, ps)
  }

  /** A present that fits once another has been placed fits the space
      before, and shares no cell with the one placed. */
  lemma FitsAfterPlaced(rows: seq<seq<bool>>, first: Placement, p: Present, next: Placement, q: Present)
    requires IsSpace(rows) && IsPresent(p) && IsPresent(q)
    requires Fits(Placed(rows, first.anchor, first.nRot, first.flipped, p), next.anchor, next.nRot, next.flipped, q)
    ensures Fits(rows, next.anchor, next.nRot, next.flipped, q)
    ensures forall c :: Covers(next.anchor, next.nRot, next.flipped, q, c) ==> !Covers(first.anchor, first.nRot, first.flipped, p, c)
  {
    forall i, j | 0 <= i < PRESENT_SIZE && 0 <= j < PRESENT_SIZE && q[i][j]
      ensures FreeCell(rows, Target(next.anchor, i, j, next.nRot, next.flipped))
    {
      PlacedFreeCell(rows, first.anchor, first.nRot, first.flipped, p, Target(next.anchor, i, j, next.nRot, next.flipped));
    }
    forall c | Covers(next.anchor, next.nRot, next.flipped, q, c)
      ensures !Covers(first.anchor, first.nRot, first.flipped, p, c)
    {
      CoveredAfterPlaced(rows, first, p, next, q, c);
    }
  }

  /** A cell the later present covers is not one the placed present covers. */
  lemma CoveredAfterPlaced(rows: seq<seq<bool>>, first: Placement, p: Present, next: Placement, q: Present, c: Coords)
    requires IsSpace(rows) && IsPresent(p) && IsPresent(q)
    requires Fits(Placed(rows, first.anchor, first.nRot, first.flipped, p), next.anchor, next.nRot, next.flipped, q)
    requires Covers(next.anchor, next.nRot, next.flipped, q, c)
    ensures !Covers(first.anchor, first.nRot, first.flipped, p, c)
  {
    FitsCovered(Placed(rows, first.anchor, first.nRot, first.flipped, p), next.anchor, next.nRot, next.flipped, q, c);
    PlacedAt(rows, first.anchor, first.nRot, first.flipped, p, c);
  }

  /** A present that fits covers only free cells. */
  lemma FitsCovered(rows: seq<seq<bool>>, anchor: Coords, nRot: nat, flipped: bool, p: Present, c: Coords)
    requires IsSpace(rows) && IsPresent(p) && Fits(rows, anchor, nRot, flipped, p)
    requires Covers(anchor, nRot, flipped, p, c)
    ensures FreeCell(rows, c)
  {
    CoversTargets(anchor, nRot, flipped, p, c);
    var i, j :| 0 <= i < PRESENT_SIZE && 0 <= j < PRESENT_SIZE && p[i][j] && Target(anchor, i, j, nRot, flipped) == c;
  }

  /** A cell of the space after placing is taken when it was taken before
      or the present covers it. */
  lemma PlacedAt(rows: seq<seq<bool>>, anchor: Coords, nRot: nat, flipped: bool, p: Present, c: Coords)
    requires IsSpace(rows) && IsPresent(p) && c.0 < MAX_TREE_SIZE && c.1 < MAX_TREE_SIZE
    ensures Placed(rows, anchor, nRot, flipped, p)[c.0][c.1] == (rows[c.0][c.1] || Covers(anchor, nRot, flipped, p, c))
  {
  }

  /** Putting a first placement in front of disjoint ones that avoid it
      keeps them disjoint. */
  lemma DisjointCons(queue: seq<Present>, idx: nat, first: Placement, rest: seq<Placement>)
    requires AllPresents(queue) && idx + 1 + |rest| <= |queue|
    requires Disjoint(queue, idx + 1, rest)
    requires forall k, c :: 0 <= k < |rest| && Covers(rest[k].anchor, rest[k].nRot, rest[k].flipped, queue[idx + 1 + k], c) ==>
               !Covers(first.anchor, first.nRot, first.flipped, queue[idx], c)
    ensures Disjoint(queue, idx, [first] + rest)
  {
    var ps := [first] + rest;
    forall k, l | 0 <= k < l < |ps|
      ensures Apart(queue, idx, ps, k, l)
    {
      assert ps[l] == rest[l - 1] && idx + l == idx + 1 + (l - 1);
      if k > 0 {
        assert ps[k] == rest[k - 1] && idx + k == idx + 1 + (k - 1);
        assert Apart(queue, idx + 1, rest, k - 1, l - 1);
      }
    }
  }

  /** Putting a fitting first placement in front of ones that fit keeps
      them all fitting. */
  lemma AllFitCons(rows: seq<seq<bool>>, queue: seq<Present>, idx: nat, first: Placement, rest: seq<Placement>)
    requires IsSpace(rows) && AllPresents(queue) && idx + 1 + |rest| <= |queue|
    requires Fits(rows, first.anchor, first.nRot, first.flipped, queue[idx])
    requires forall k :: 0 <= k < |rest| ==> Fits(rows, rest[k].anchor, rest[k].nRot, rest[k].flipped, queue[idx + 1 + k])
    ensures AllFit(rows, queue, idx, [first] + rest)
  {
    var ps := [first] + rest;
    forall k | 0 <= k < |ps|
      ensures Fits(rows, ps[k].anchor, ps[k].nRot, ps[k].flipped, queue[idx + k])
    {
      if k > 0 {
        assert ps[k] == rest[k - 1] && idx + k == idx + 1 + (k - 1);
      }
    }
  }

  /** When the search succeeds, the placements it made are a packing of
      the remaining presents into the space. */
  lemma {:induction false} PackingOf(rows: seq<seq<bool>>, queue: seq<Present>, idx: nat) returns (ps: seq<Placement>)
    requires IsSpace(rows) && AllPresents(queue) && idx <= |queue|
    requires CanPack(rows, queue, idx)
    ensures IsPacking(rows, queue, idx, ps)
    decreases |queue| - idx
  {
    if idx == |queue| {
      return [];
    }
    var c, nRot, flipped := FirstPlacement(rows, queue, idx);
    var first := Placement(c, nRot, flipped);
    var after := Placed(rows, c, nRot, flipped, queue[idx]);
    var rest := PackingOf(after, queue, idx + 1);
    forall k | 0 <= k < |rest|
      ensures Fits(rows, rest[k].anchor, rest[k].nRot, rest[k].flipped, queue[idx + 1 + k])
      ensures forall c :: Covers(rest[k].anchor, rest[k].nRot, rest[k].flipped, queue[idx + 1 + k], c) ==>
                            !Covers(first.anchor, first.nRot, first.flipped, queue[idx], c)
    {
      assert Fits(after, rest[k].anchor, rest[k].nRot, rest[k].flipped, queue[idx + 1 + k]);
      FitsAfterPlaced(rows, first, queue[idx], rest[k], queue[idx + 1 + k]);
    }
    AllFitCons(rows, queue, idx, first, rest);
    DisjointCons(queue, idx, first, rest);
    ps := [first] + rest;
  }

  /* ---------------------------------------------------------------- */
  /* Free area of a new tree                                            */
  /* ---------------------------------------------------------------- */

  function Min(a: nat, b: nat): nat
  {
    if a < b then a else b
  }

  /** Every cell of a list counts when the test always holds. */
  lemma {:induction false} CountWhereAll(cs: seq<Coords>, p: Coords -> bool)
    requires forall c :: c in cs ==> p(c)
    ensures CountWhere(cs, p) == |cs|
  {
    if |cs| > 0 {
      assert forall c :: c in cs[..|cs| - 1] ==> c in cs;
      CountWhereAll(cs[..|cs| - 1], p);
    }
  }

  /** The free cells of a new tree are the cells of its shape, clipped to
      the grid. */
  lemma SpaceFreeSet(sizeI: nat, sizeJ: nat, always: Coords -> bool)
    requires forall c :: always(c)
    ensures FreeSet(Space(sizeI, sizeJ))
            == set c | c in IterCoords(Min(sizeI, MAX_TREE_SIZE), Min(sizeJ, MAX_TREE_SIZE)) && always(c)
  {
    var rows := Space(sizeI, sizeJ);
    var h, w := Min(sizeI, MAX_TREE_SIZE), Min(sizeJ, MAX_TREE_SIZE);
    forall c: Coords
      ensures c in FreeSet(rows) <==> c in IterCoords(h, w)
    {
      if c.0 < MAX_TREE_SIZE && c.1 < MAX_TREE_SIZE {
        assert !rows[c.0][c.1] <==> c.0 < sizeI && c.1 < sizeJ;
      }
    }
  }

  /** A new tree has as many free cells as its shape, clipped to the
      grid, has cells. */
  lemma SpaceFreeSpaces(sizeI: nat, sizeJ: nat)
    ensures FreeSpaces(Space(sizeI, sizeJ)) == Min(sizeI, MAX_TREE_SIZE) * Min(sizeJ, MAX_TREE_SIZE)
  {
    var h, w := Min(sizeI, MAX_TREE_SIZE), Min(sizeJ, MAX_TREE_SIZE);
    var always: Coords -> bool := _ => true;
    FreeSpacesCard(Space(sizeI, sizeJ));
    SpaceFreeSet(sizeI, sizeJ, always);
    CountWhereIterCoords(h, w, always);
    CountWhereAll(IterCoords(h, w), always);
  }

  /* ---------------------------------------------------------------- */
  /* Parsing                                                            */
  /* ---------------------------------------------------------------- */

  /** Lines taken by the present shapes: a header, three rows and a blank
      line for each type. */
  const PRESENT_LINES: nat := N_PRESENT_TYPES * (PRESENT_SIZE + 2)

  /** The three lines of present type `k`'s shape. */
  function ShapeLines(lines: seq<string>, k: nat): (rowLines: seq<string>)
    requires k < N_PRESENT_TYPES && |lines| >= PRESENT_LINES
    ensures |rowLines| == PRESENT_SIZE
  {
    lines[k * (PRESENT_SIZE + 2) + 1 .. k * (PRESENT_SIZE + 2) + 1 + PRESENT_SIZE]
  }

  /** The blank line that ends present type `k`'s block. */
  function SeparatorLine(lines: seq<string>, k: nat): string
    requires k < N_PRESENT_TYPES && |lines| >= PRESENT_LINES
  {
    lines[k * (PRESENT_SIZE + 2) + PRESENT_SIZE + 1]
  }

  /** A shape row has no `#` beyond the present's width. */
  predicate ShapeLineFits(line: string)
  {
    forall j :: 0 <= j < |line| && line[j] == '#' ==> j < PRESENT_SIZE
  }

  /** The present whose shape rows are `rowLines`: `#` marks a filled cell. */
  function Shape(rowLines: seq<string>): (p: Present)
    requires |rowLines| == PRESENT_SIZE
    ensures IsPresent(p)
  {
    seq(PRESENT_SIZE, i requires 0 <= i < PRESENT_SIZE =>
      seq(PRESENT_SIZE, j => 0 <= j < |rowLines[i]| && rowLines[i][j] == '#'))
  }

  /** The present shapes of an input. */
  function PresentTypes(lines: seq<string>): (types: seq<Present>)
    requires |lines| >= PRESENT_LINES
    ensures |types| == N_PRESENT_TYPES && AllPresents(types)
  {
    seq(N_PRESENT_TYPES, k requires 0 <= k < N_PRESENT_TYPES => Shape(ShapeLines(lines, k)))
  }

  /** `parse_input` does not panic on the present blocks: all six blocks
      are complete, their shape rows fit and each ends with a blank line. */
  predicate PresentBlocksParse(lines: seq<string>)
  {
    && |lines| >= PRESENT_LINES
    && forall k :: 0 <= k < N_PRESENT_TYPES ==>
         && (forall i :: 0 <= i < PRESENT_SIZE ==> ShapeLineFits(ShapeLines(lines, k)[i]))
         && Trim(SeparatorLine(lines, k)) == ""
  }

  /** `parse_input` does not panic on a tree line `HxW: n0 n1 .. n5`. */
  predicate TreeLineParses(line: string)
  {
    var parts := Split(line, ':');
    && |parts| >= 2
    && var dims := Split(parts[0], 'x');
       var nums := Split(Trim(parts[1]), ' ');
       && |dims| == 2 && ParseNat(dims[0], U64_MAX).Some? && ParseNat(dims[1], U64_MAX).Some?
       && |nums| == N_PRESENT_TYPES && forall k :: 0 <= k < |nums| ==> ParseNat(nums[k], U64_MAX).Some?
  }

  /** The shape a tree line gives. */
  function TreeShape(line: string): (nat, nat)
    requires TreeLineParses(line)
  {
    var dims := Split(Split(line, ':')[0], 'x');
    (ParseNat(dims[0], U64_MAX).value, ParseNat(dims[1], U64_MAX).value)
  }

  /** The demand counts a tree line gives, one per present type. */
  function TreeDemand(line: string): (counts: seq<nat>)
    requires TreeLineParses(line)
    ensures |counts| == N_PRESENT_TYPES
  {
    var nums := Split(Trim(Split(line, ':')[1]), ' ');
    seq(N_PRESENT_TYPES, k requires 0 <= k < N_PRESENT_TYPES => ParseNat(nums[k], U64_MAX).value)
  }

  /** An input `parse_input` reads without panicking. */
  predicate ValidInput(lines: seq<string>)
  {
    PresentBlocksParse(lines) && forall k :: PRESENT_LINES <= k < |lines| ==> TreeLineParses(lines[k])
  }

  /** Marks the `#` cells of one shape row (the inner `for_each` over a
      line's characters in `parse_input`). */
  method ParseShapeLine(grid: Grid<bool>, i: nat, line: string)
    requires grid.Height() == PRESENT_SIZE && grid.Width() == PRESENT_SIZE && i < PRESENT_SIZE
    requires ShapeLineFits(line)
    modifies grid.cells
    ensures forall a, b :: 0 <= a < PRESENT_SIZE && 0 <= b < PRESENT_SIZE ==>
              grid.cells[a, b] == (old(grid.cells[a, b]) || (a == i && b < |line| && line[b] == '#'))
  {
    for j := 0 to |line|
      invariant forall a, b :: 0 <= a < PRESENT_SIZE && 0 <= b < PRESENT_SIZE ==>
                  grid.cells[a, b] == (old(grid.cells[a, b]) || (a == i && b < j && line[b] == '#'))
    {
      if line[j] == '#' {
        var r := grid.Set((i, j), true);
      }
    }
  }

  /** One present block's shape rows, read into a new `Present` grid. */
  method ParseShape(rowLines: seq<string>) returns (p: Present)
    requires |rowLines| == PRESENT_SIZE
    requires forall i :: 0 <= i < PRESENT_SIZE ==> ShapeLineFits(rowLines[i])
    ensures p == Shape(rowLines)
  {
    var grid := new Grid.Create(PRESENT_SIZE, PRESENT_SIZE, false);
    for i := 0 to PRESENT_SIZE
      invariant forall a, b :: 0 <= a < PRESENT_SIZE && 0 <= b < PRESENT_SIZE ==>
                  grid.cells[a, b] == (a < i && b < |rowLines[a]| && rowLines[a][b] == '#')
    {
      ParseShapeLine(grid, i, rowLines[i]);
    }
    p := grid.Cells();
    assert forall a :: 0 <= a < PRESENT_SIZE ==> p[a] == Shape(rowLines)[a];
  }

  /** `tree` is the new tree `parse_input` makes from `line`. */
  ghost predicate TreeOfLine(tree: Tree, line: string)
    reads tree.grid.cells
  {
    && TreeLineParses(line)
    && ValidTree(tree) && tree.shape == TreeShape(line) && tree.presents == TreeDemand(line)
    && tree.grid.Cells() == Space(tree.shape.0, tree.shape.1)
  }

  /** The present blocks at the top of the input (the `while` loop of
      `parse_input`). */
  method ParsePresents(lines: seq<string>) returns (presents: seq<Present>)
    requires PresentBlocksParse(lines)
    ensures presents == PresentTypes(lines)
  {
    presents := [];
    var presentIdx := 0;
    while presentIdx < N_PRESENT_TYPES
      invariant presentIdx <= N_PRESENT_TYPES
      invariant presents == PresentTypes(lines)[..presentIdx]
    {
      var shape := ParseShape(ShapeLines(lines, presentIdx));
      presents := presents + [shape];
      presentIdx := presentIdx + 1;
    }
  }

  /** One tree line: a new tree of the given shape with the given demand
      counts (the body of the last `for_each` of `parse_input`). */
  method ParseTree(line: string) returns (tree: Tree)
    requires TreeLineParses(line)
    ensures TreeOfLine(tree, line) && fresh(tree.grid.cells)
  {
    var shape := TreeShape(line);
    tree := NewTree(shape.0, shape.1);
    tree := tree.(presents := TreeDemand(line));
  }

  /** `parse_input`: six present blocks, then one tree per line, each a
      new tree of the given shape with the given demand counts. */
  method ParseInput(lines: seq<string>) returns (presents: seq<Present>, trees: seq<Tree>)
    requires ValidInput(lines)
    ensures presents == PresentTypes(lines)
    ensures |trees| == |lines| - PRESENT_LINES
    ensures forall k :: 0 <= k < |trees| ==> TreeOfLine(trees[k], lines[PRESENT_LINES + k])
  {
    presents := ParsePresents(lines);
    trees := ParseTrees(lines[PRESENT_LINES..]);
  }

  /** The final `for_each` of `parse_input`: one new tree
      per remaining line, in order. */
  method ParseTrees(treeLines: seq<string>) returns (trees: seq<Tree>)
    requires forall k :: 0 <= k < |treeLines| ==> TreeLineParses(treeLines[k])
    ensures |trees| == |treeLines|
    ensures forall k :: 0 <= k < |trees| ==> TreeOfLine(trees[k], treeLines[k])
  {
    trees := [];
    for k := 0 to |treeLines|
      invariant |trees| == k
      invariant forall t :: 0 <= t < k ==> TreeOfLine(trees[t], treeLines[t])
    {
      var tree := ParseTree(treeLines[k]);
      TreesSnoc(trees, tree, treeLines[..k + 1]);
      trees := trees + [tree];
    }
  }

  /** Appending the tree of the next line keeps every tree matched with its line. */
  lemma TreesSnoc(trees: seq<Tree>, tree: Tree, treeLines: seq<string>)
    requires |treeLines| == |trees| + 1
    requires forall t :: 0 <= t < |trees| ==> TreeOfLine(trees[t], treeLines[t])
    requires TreeOfLine(tree, treeLines[|trees|])
    ensures forall t :: 0 <= t < |trees| + 1 ==> TreeOfLine((trees + [tree])[t], treeLines[t])
  {
  }

  /* ---------------------------------------------------------------- */
  /* The answer                                                         */
  /* ---------------------------------------------------------------- */

  /** The search's verdict for the tree on `line`. */
  predicate TreeFits(line: string, types: seq<Present>)
    requires |types| == N_PRESENT_TYPES && AllPresents(types)
  {
    && TreeLineParses(line)
    && var shape := TreeShape(line);
       CanPack(Space(shape.0, shape.1), Expand(TreeDemand(line), types), 0)
  }

  /** How many of the tree lines get a `true` verdict. */
  function CountFitting(treeLines: seq<string>, types: seq<Present>): (n: nat)
    requires |types| == N_PRESENT_TYPES && AllPresents(types)
    ensures n <= |treeLines|
  {
    if |treeLines| == 0 then 0
    else
      CountFitting(treeLines[..|treeLines| - 1], types)
      + (if TreeFits(treeLines[|treeLines| - 1], types) then 1 else 0)
  }

  /** A parsed tree's verdict is the verdict of its line. */
  lemma TreeVerdict(tree: Tree, line: string, types: seq<Present>)
    requires TreeLineParses(line) && |types| == N_PRESENT_TYPES && AllPresents(types)
    requires ValidTree(tree) && tree.presents == TreeDemand(line)
    requires tree.grid.Cells() == Space(TreeShape(line).0, TreeShape(line).1)
    ensures CanPack(tree.grid.Cells(), Expand(tree.presents, types), 0) == TreeFits(line, types)
  {
  }

  /** `is_valid` on the tree parsed from `line`. */
  method LineIsValid(tree: Tree, line: string, types: seq<Present>) returns (ok: bool)
    requires |types| == N_PRESENT_TYPES && AllPresents(types)
    requires TreeOfLine(tree, line)
    ensures ok == TreeFits(line, types)
  {
    TreeVerdict(tree, line, types);
    ok := IsValid(tree, types);
  }

  /** Counting one more line adds one exactly when that tree fits. */
  lemma CountFittingStep(treeLines: seq<string>, k: nat, types: seq<Present>)
    requires k < |treeLines|
    requires |types| == N_PRESENT_TYPES && AllPresents(types)
    ensures CountFitting(treeLines[..k + 1], types)
            == CountFitting(treeLines[..k], types) + (if TreeFits(treeLines[k], types) then 1 else 0)
  {
    assert treeLines[..k + 1][..k] == treeLines[..k];
  }

  /** Every tree the count includes has a packing of its presents. */
  lemma FittingTreePacks(line: string, types: seq<Present>) returns (ps: seq<Placement>)
    requires TreeLineParses(line) && |types| == N_PRESENT_TYPES && AllPresents(types)
    requires TreeFits(line, types)
    ensures var shape := TreeShape(line);
            var queue := Expand(TreeDemand(line), types);
            AllPresents(queue) && IsPacking(Space(shape.0, shape.1), queue, 0, ps)
  {
    var shape := TreeShape(line);
    var queue := Expand(TreeDemand(line), types);
    ExpandAllPresents(TreeDemand(line), types);
    ps := PackingOf(Space(shape.0, shape.1), queue, 0);
  }

  /** The queue holds only presents of the given types. */
  lemma ExpandAllPresents(counts: seq<nat>, types: seq<Present>)
    requires |counts| <= |types| && AllPresents(types)
    ensures AllPresents(Expand(counts, types))
  {
    var queue := Expand(counts, types);
    forall k | 0 <= k < |queue|
      ensures IsPresent(queue[k])
    {
      var t :| 0 <= t < |types| && types[t] == queue[k];
    }
  }

  /** The `filter(..).count()` of `calculate_result`: how many of the
      parsed trees `is_valid` accepts. */
  method CountValid(trees: seq<Tree>, treeLines: seq<string>, presents: seq<Present>) returns (result: nat)
    requires |presents| == N_PRESENT_TYPES && AllPresents(presents)
    requires |trees| == |treeLines|
    requires forall t :: 0 <= t < |trees| ==> TreeOfLine(trees[t], treeLines[t])
    ensures result == CountFitting(treeLines, presents)
  {
    result := 0;
    for k := 0 to |trees|
      invariant result == CountFitting(treeLines[..k], presents)
      invariant forall t :: 0 <= t < |trees| ==> TreeOfLine(trees[t], treeLines[t])
    {
      var ok := LineIsValid(trees[k], treeLines[k], presents);
      CountFittingStep(treeLines, k, presents);
      if ok {
        result := result + 1;
      }
    }
    assert treeLines[..|trees|] == treeLines;
  }

  /** `calculate_result`: the number of trees whose presents `is_valid`
      can place. */
  method CalculateResult(lines: seq<string>) returns (result: nat)
    requires ValidInput(lines)
    ensures result == CountFitting(lines[PRESENT_LINES..], PresentTypes(lines))
    ensures result <= |lines| - PRESENT_LINES
  {
    var presents, trees := ParseInput(lines);
    var treeLines := lines[PRESENT_LINES..];
    assert forall t :: 0 <= t < |trees| ==> treeLines[t] == lines[PRESENT_LINES + t];
    result := CountValid(trees, treeLines, presents);
  }
}
