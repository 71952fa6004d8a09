/**
 * Day 9, part 2 (src/bin/day_09_2.rs): the red tiles, in input order and
 * back to the first, are joined by straight runs of tiles along a shared
 * row or column. A rectangle with two red corners counts only when none of
 * those tiles lies strictly inside it; the answer is the largest such
 * rectangle's area.
 *
 * The parser is that of part 1.
 */
module Day09Part2 {
  import opened Wrappers
  import opened Itertools
  import opened Day09Part1

  function MinOf(a: nat, b: nat): (m: nat)
    ensures m <= a && m <= b && (m == a || m == b)
  {
    if a <= b then a else b
  }

  function MaxOf(a: nat, b: nat): (m: nat)
    ensures a <= m && b <= m && (m == a || m == b)
  {
    if a <= b then b else a
  }

  /* Rectangles. */

  datatype Rectangle = Rectangle(leftX: nat, rightX: nat, bottomY: nat, topY: nat)

  /** `Rectangle::new`: the rectangle with corners at two tiles, its sides
      the smaller and larger of their coordinates. */
  function NewRectangle(tile1: RedTile, tile2: RedTile): (rect: Rectangle)
    ensures rect.leftX <= rect.rightX && rect.bottomY <= rect.topY
    ensures rect.leftX <= tile1.x <= rect.rightX && rect.leftX <= tile2.x <= rect.rightX
    ensures rect.bottomY <= tile1.y <= rect.topY && rect.bottomY <= tile2.y <= rect.topY
    ensures {rect.leftX, rect.rightX} == {tile1.x, tile2.x} && {rect.bottomY, rect.topY} == {tile1.y, tile2.y}
  {
    Rectangle(MinOf(tile1.x, tile2.x), MaxOf(tile1.x, tile2.x), MinOf(tile1.y, tile2.y), MaxOf(tile1.y, tile2.y))
  }

  /** The rectangle does not depend on which corner comes first. */
  lemma NewRectangleSymmetric(tile1: RedTile, tile2: RedTile)
    ensures NewRectangle(tile1, tile2) == NewRectangle(tile2, tile1)
  {
  }

  /** `contains`: the point lies in the rectangle, its sides included. */
  predicate Contains(rect: Rectangle, x: nat, y: nat)
    ensures Contains(rect, x, y) ==> rect.leftX <= rect.rightX && rect.bottomY <= rect.topY
  {
    x >= rect.leftX && x <= rect.rightX && y >= rect.bottomY && y <= rect.topY
  }

  /** `contains_in_perimeter`: the point lies on a side. */
  predicate ContainsInPerimeter(rect: Rectangle, x: nat, y: nat)
    ensures rect.leftX <= rect.rightX && rect.bottomY <= rect.topY ==>
              (ContainsInPerimeter(rect, x, y) ==> Contains(rect, x, y))
  {
    || ((y == rect.bottomY || y == rect.topY) && (x >= rect.leftX && x <= rect.rightX))
    || ((x == rect.leftX || x == rect.rightX) && (y >= rect.bottomY && y <= rect.topY))
  }

  /** `contains_not_in_perimeter`: the point lies strictly inside. */
  predicate ContainsNotInPerimeter(rect: Rectangle, x: nat, y: nat)
    ensures ContainsNotInPerimeter(rect, x, y) ==> Contains(rect, x, y) && !ContainsInPerimeter(rect, x, y)
  {
    x > rect.leftX && x < rect.rightX && y > rect.bottomY && y < rect.topY
  }

  /** A rectangle with its sides in order (as `Rectangle::new` builds
      them) is its sides and its inside, and no point is both. */
  lemma PerimeterAndInterior(rect: Rectangle, x: nat, y: nat)
    requires rect.leftX <= rect.rightX && rect.bottomY <= rect.topY
    ensures Contains(rect, x, y) <==> ContainsInPerimeter(rect, x, y) || ContainsNotInPerimeter(rect, x, y)
    ensures !(ContainsInPerimeter(rect, x, y) && ContainsNotInPerimeter(rect, x, y))
  {
  }

  /** Both corner tiles lie on the rectangle's sides. */
  lemma CornersInPerimeter(tile1: RedTile, tile2: RedTile)
    ensures ContainsInPerimeter(NewRectangle(tile1, tile2), tile1.x, tile1.y)
    ensures ContainsInPerimeter(NewRectangle(tile1, tile2), tile2.x, tile2.y)
  {
  }

  /** `is_valid`: no listed point lies strictly inside the rectangle, so
      each lies outside it or on one of its sides. */
  predicate IsValid(rect: Rectangle, redTileConnections: seq<(nat, nat)>)
    ensures IsValid(rect, redTileConnections) <==>
              forall k :: 0 <= k < |redTileConnections| ==>
                !Contains(rect, redTileConnections[k].0, redTileConnections[k].1)
                || ContainsInPerimeter(rect, redTileConnections[k].0, redTileConnections[k].1)
  {
    !exists k :: 0 <= k < |redTileConnections| && ContainsNotInPerimeter(rect, redTileConnections[k].0, redTileConnections[k].1)
  }

  /** `area`: the number of tiles in the rectangle, sides included. */
  function Area(rect: Rectangle): (area: nat)
    requires rect.leftX <= rect.rightX && rect.bottomY <= rect.topY
    ensures area >= 1
  {
    var w := rect.rightX - rect.leftX + 1;
    var h := rect.topY - rect.bottomY + 1;
    assert w * h >= 1 * h;
    w * h
  }

  /** The rectangle of two tiles has the area part 1 gives them. */
  lemma AreaIsConnectedArea(tile1: RedTile, tile2: RedTile)
    ensures Area(NewRectangle(tile1, tile2)) == ConnectedArea(tile1, tile2)
  {
    var rect := NewRectangle(tile1, tile2);
    assert rect.rightX - rect.leftX == AbsDiff(tile1.x, tile2.x);
    assert rect.topY - rect.bottomY == AbsDiff(tile1.y, tile2.y);
  }

  /* The runs of tiles between red tiles. */

  /** The red tile after tile `i`, the first one after the last. */
  function Next(tiles: seq<RedTile>, i: nat): RedTile
    requires i < |tiles|
  {
    if i + 1 < |tiles| then tiles[i + 1] else tiles[0]
  }

  /** Two red tiles share a column or a row, and the larger coordinate
      along it is positive, so that `range_end - 1` does not underflow. */
  predicate Joinable(a: RedTile, b: RedTile)
  {
    || (a.x == b.x && MaxOf(a.y, b.y) >= 1)
    || (a.x != b.x && a.y == b.y && MaxOf(a.x, b.x) >= 1)
  }

  /** `find_red_tile_connections` does not panic: there is a first tile,
      and every tile is joinable to the next. */
  predicate Aligned(tiles: seq<RedTile>)
  {
    |tiles| >= 1 && forall i {:trigger Next(tiles, i)} :: 0 <= i < |tiles| ==> Joinable(tiles[i], Next(tiles, i))
  }

  /** The points of column `x` from row `lo` up to, not including, row
      `hi`, in ascending order. */
  function ColumnRun(x: nat, lo: nat, hi: nat): seq<(nat, nat)>
    decreases hi - lo
  {
    if lo >= hi then [] else ColumnRun(x, lo, hi - 1) + [(x, hi - 1)]
  }

  /** The points of row `y` from column `lo` up to, not including, column
      `hi`, in ascending order. */
  function RowRun(y: nat, lo: nat, hi: nat): seq<(nat, nat)>
    decreases hi - lo
  {
    if lo >= hi then [] else RowRun(y, lo, hi - 1) + [(hi - 1, y)]
  }

  lemma {:induction false} ColumnRunMembers(x: nat, lo: nat, hi: nat, p: (nat, nat))
    ensures p in ColumnRun(x, lo, hi) <==> p.0 == x && lo <= p.1 < hi
    decreases hi - lo
  {
    if lo < hi {
      ColumnRunMembers(x, lo, hi - 1, p);
    }
  }

  lemma {:induction false} RowRunMembers(y: nat, lo: nat, hi: nat, p: (nat, nat))
    ensures p in RowRun(y, lo, hi) <==> p.1 == y && lo <= p.0 < hi
    decreases hi - lo
  {
    if lo < hi {
      RowRunMembers(y, lo, hi - 1, p);
    }
  }

  /** The points strictly between two joinable tiles on their shared
      column (or, failing that, row), in ascending order. */
  function Between(a: RedTile, b: RedTile): seq<(nat, nat)>
    requires Joinable(a, b)
  {
    if a.x == b.x then ColumnRun(a.x, MinOf(a.y, b.y) + 1, MaxOf(a.y, b.y))
    else RowRun(a.y, MinOf(a.x, b.x) + 1, MaxOf(a.x, b.x))
  }

  /** A point lies between two joinable tiles exactly when it is on their
      shared column strictly between their rows, or (when they share a row
      only) on that row strictly between their columns. */
  lemma BetweenMembers(a: RedTile, b: RedTile, p: (nat, nat))
    requires Joinable(a, b)
    ensures p in Between(a, b) <==>
              if a.x == b.x then p.0 == a.x && MinOf(a.y, b.y) < p.1 < MaxOf(a.y, b.y)
              else p.1 == a.y && MinOf(a.x, b.x) < p.0 < MaxOf(a.x, b.x)
  {
    if a.x == b.x {
      ColumnRunMembers(a.x, MinOf(a.y, b.y) + 1, MaxOf(a.y, b.y), p);
    } else {
      RowRunMembers(a.y, MinOf(a.x, b.x) + 1, MaxOf(a.x, b.x), p);
    }
  }

  /** The red tiles' own coordinates, in order. */
  function Coords(tiles: seq<RedTile>): (coords: seq<(nat, nat)>)
    ensures |coords| == |tiles| && forall i :: 0 <= i < |tiles| ==> coords[i] == (tiles[i].x, tiles[i].y)
  {
    seq(|tiles|, i requires 0 <= i < |tiles| => (tiles[i].x, tiles[i].y))
  }

  /** The points between tile `i` and the next. */
  function Edge(tiles: seq<RedTile>, i: nat): seq<(nat, nat)>
    requires Aligned(tiles) && i < |tiles|
  {
    Between(tiles[i], Next(tiles, i))
  }

  /** The points between each of the first `m` tiles and the next. */
  function EdgePoints(tiles: seq<RedTile>, m: nat): seq<(nat, nat)>
    requires Aligned(tiles) && m <= |tiles|
  {
    if m == 0 then [] else EdgePoints(tiles, m - 1) + Edge(tiles, m - 1)
  }

  /** The red tiles, then the points between consecutive ones. */
  function Connections(tiles: seq<RedTile>): seq<(nat, nat)>
    requires Aligned(tiles)
  {
    Coords(tiles) + EdgePoints(tiles, |tiles|)
  }

  /** A point is listed exactly when it is a red tile or lies strictly
      between one and the next. */
  lemma {:induction false} EdgePointsMembers(tiles: seq<RedTile>, m: nat, p: (nat, nat))
    requires Aligned(tiles) && m <= |tiles|
    ensures p in EdgePoints(tiles, m) <==> exists i :: 0 <= i < m && p in Edge(tiles, i)
  {
    if m > 0 {
      EdgePointsMembers(tiles, m - 1, p);
      var last := Edge(tiles, m - 1);
      assert EdgePoints(tiles, m) == EdgePoints(tiles, m - 1) + last;
      if p in last {
        assert 0 <= m - 1 < m && p in Edge(tiles, m - 1);
      }
    }
  }

  lemma ConnectionsMembers(tiles: seq<RedTile>, p: (nat, nat))
    requires Aligned(tiles)
    ensures p in Connections(tiles) <==>
              (exists i :: 0 <= i < |tiles| && p == (tiles[i].x, tiles[i].y)) ||
              (exists i :: 0 <= i < |tiles| && p in Edge(tiles, i))
  {
    EdgePointsMembers(tiles, |tiles|, p);
    if p in Coords(tiles) {
      var i :| 0 <= i < |tiles| && Coords(tiles)[i] == p;
    }
  }

  lemma ConcatAssoc(s: seq<(nat, nat)>, t: seq<(nat, nat)>, u: seq<(nat, nat)>)
    ensures s + t + u == s + (t + u)
  {
  }

  /** The points between tile `i` and the next, appended to the points so
      far, give the points of one more tile. */
  lemma EdgePointsStep(tiles: seq<RedTile>, i: nat, before: seq<(nat, nat)>)
    requires Aligned(tiles) && i < |tiles|
    requires before == Coords(tiles) + EdgePoints(tiles, i)
    ensures before + Edge(tiles, i) == Coords(tiles) + EdgePoints(tiles, i + 1)
  {
    assert EdgePoints(tiles, i + 1) == EdgePoints(tiles, i) + Edge(tiles, i);
    ConcatAssoc(Coords(tiles), EdgePoints(tiles, i), Edge(tiles, i));
  }

  /** The `for_each` over `(range_start + 1)..=(range_end - 1)` on a
      shared column: push the points of column `x` from row `first` to row
      `last`. */
  method PushColumn(coords: seq<(nat, nat)>, x: nat, first: nat, last: nat) returns (pushed: seq<(nat, nat)>)
    ensures pushed == coords + ColumnRun(x, first, last + 1)
  {
    pushed := coords;
    var y := first;
    while y <= last
      invariant first <= y && (y <= last + 1 || y == first)
      invariant pushed == coords + ColumnRun(x, first, y)
      decreases last + 1 - y
    {
      ConcatAssoc(coords, ColumnRun(x, first, y), [(x, y)]);
      pushed := pushed + [(x, y)];
      y := y + 1;
    }
    if y > last + 1 {
      assert ColumnRun(x, first, last + 1) == [];
    }
  }

  /** The same along a shared row: push the points of row `y` from column
      `first` to column `last`. */
  method PushRow(coords: seq<(nat, nat)>, y: nat, first: nat, last: nat) returns (pushed: seq<(nat, nat)>)
    ensures pushed == coords + RowRun(y, first, last + 1)
  {
    pushed := coords;
    var x := first;
    while x <= last
      invariant first <= x && (x <= last + 1 || x == first)
      invariant pushed == coords + RowRun(y, first, x)
      decreases last + 1 - x
    {
      ConcatAssoc(coords, RowRun(y, first, x), [(x, y)]);
      pushed := pushed + [(x, y)];
      x := x + 1;
    }
    if x > last + 1 {
      assert RowRun(y, first, last + 1) == [];
    }
  }

  /** The coordinates with the first appended again hold tile `i` at `i`
      and the next tile at `i + 1`, and the two are joinable. */
  lemma ClosedCoords(tiles: seq<RedTile>, closed: seq<(nat, nat)>, i: nat)
    requires Aligned(tiles) && i < |tiles|
    requires closed == Coords(tiles) + [Coords(tiles)[0]]
    ensures closed[i] == (tiles[i].x, tiles[i].y) && closed[i + 1] == (Next(tiles, i).x, Next(tiles, i).y)
    ensures Joinable(tiles[i], Next(tiles, i))
  {
  }

  /** `find_red_tile_connections`: start from the tiles' coordinates, then,
      for each tile and the next (the first after the last), push the
      points strictly between them along the shared column, or else the
      shared row. */
  method FindRedTileConnections(tileList: seq<RedTile>) returns (connectionCoords: seq<(nat, nat)>)
    requires Aligned(tileList)
    ensures connectionCoords == Connections(tileList)
  {
    var redTileCoords := Coords(tileList);
    connectionCoords := redTileCoords;
    var nRedTiles := |redTileCoords|;
    redTileCoords := redTileCoords + [redTileCoords[0]];
    for i := 0 to nRedTiles
      invariant connectionCoords == Coords(tileList) + EdgePoints(tileList, i)
    {
      var (tile1X, tile1Y) := redTileCoords[i];
      var (tile2X, tile2Y) := redTileCoords[i + 1];
      ghost var a, b := tileList[i], Next(tileList, i);
      ClosedCoords(tileList, redTileCoords, i);
      ghost var before := connectionCoords;
      if tile1X == tile2X {
        var rangeStart, rangeEnd := MinOf(tile1Y, tile2Y), MaxOf(tile1Y, tile2Y);
        connectionCoords := PushColumn(connectionCoords, tile1X, rangeStart + 1, rangeEnd - 1);
      } else if tile1Y == tile2Y {
        var rangeStart, rangeEnd := MinOf(tile1X, tile2X), MaxOf(tile1X, tile2X);
        connectionCoords := PushRow(connectionCoords, tile1Y, rangeStart + 1, rangeEnd - 1);
      } else {
        assert false;
      }
      EdgePointsStep(tileList, i, before);
    }
  }

  /* The largest valid rectangle. */

  /** The rectangle of the pair `p` of tiles (of none, when `p` names a
      missing tile). */
  function PairRectangle(tiles: seq<RedTile>, p: (nat, nat)): (rect: Rectangle)
    ensures rect.leftX <= rect.rightX && rect.bottomY <= rect.topY
  {
    if p.0 < |tiles| && p.1 < |tiles| then NewRectangle(tiles[p.0], tiles[p.1]) else Rectangle(0, 0, 0, 0)
  }

  /** Two tiles, the first listed before the second, whose rectangle holds
      no listed point strictly inside. */
  predicate ValidPair(tiles: seq<RedTile>, conns: seq<(nat, nat)>, i: nat, j: nat)
  {
    i < j < |tiles| && IsValid(NewRectangle(tiles[i], tiles[j]), conns)
  }

  /** The `filter_map` of `calculate_result` over the pairs `ps`: the
      areas of the valid rectangles. */
  function ValidAreas(tiles: seq<RedTile>, conns: seq<(nat, nat)>, ps: seq<(nat, nat)>): (areas: seq<nat>)
    ensures forall a :: a in areas <==>
              exists k :: 0 <= k < |ps| && IsValid(PairRectangle(tiles, ps[k]), conns) && a == Area(PairRectangle(tiles, ps[k]))
  {
    if |ps| == 0 then []
    else
      var rect := PairRectangle(tiles, ps[|ps| - 1]);
      var rest := ps[..|ps| - 1];
      assert forall k :: 0 <= k < |rest| ==> rest[k] == ps[k];
      ValidAreas(tiles, conns, rest) + (if IsValid(rect, conns) then [Area(rect)] else [])
  }

  lemma ValidPairListed(tiles: seq<RedTile>, conns: seq<(nat, nat)>, i: nat, j: nat)
    requires ValidPair(tiles, conns, i, j)
    ensures Area(NewRectangle(tiles[i], tiles[j])) in ValidAreas(tiles, conns, Combinations(|tiles|))
  {
    var ps := Combinations(|tiles|);
    assert (i, j) in ps;
    var k :| 0 <= k < |ps| && ps[k] == (i, j);
    assert PairRectangle(tiles, ps[k]) == NewRectangle(tiles[i], tiles[j]);
  }

  /** The largest area over valid pairs is that of a valid pair, and no
      valid pair has a larger one. */
  lemma LargestValidArea(tiles: seq<RedTile>, conns: seq<(nat, nat)>, i: nat, j: nat)
    requires ValidPair(tiles, conns, i, j)
    ensures Max(ValidAreas(tiles, conns, Combinations(|tiles|))).Some?
    ensures exists i: nat, j: nat :: ValidPair(tiles, conns, i, j) &&
                           Max(ValidAreas(tiles, conns, Combinations(|tiles|))).value == Area(NewRectangle(tiles[i], tiles[j]))
    ensures forall i: nat, j: nat :: ValidPair(tiles, conns, i, j) ==>
                           Area(NewRectangle(tiles[i], tiles[j])) <= Max(ValidAreas(tiles, conns, Combinations(|tiles|))).value
  {
    var ps := Combinations(|tiles|);
    var areas := ValidAreas(tiles, conns, ps);
    ValidPairListed(tiles, conns, i, j);
    var largest := Max(areas).value;
    var k :| 0 <= k < |ps| && IsValid(PairRectangle(tiles, ps[k]), conns) && largest == Area(PairRectangle(tiles, ps[k]));
    assert ps[k] in ps;
    assert ValidPair(tiles, conns, ps[k].0, ps[k].1);
    forall a: nat, b: nat | ValidPair(tiles, conns, a, b)
      ensures Area(NewRectangle(tiles[a], tiles[b])) <= largest
    {
      ValidPairListed(tiles, conns, a, b);
    }
  }

  /** `calculate_result` does not panic: every line parses, the tiles are
      aligned, and some pair of tiles is valid. */
  predicate ValidInput(lines: seq<string>)
  {
    && LinesParse(lines)
    && Aligned(ParseTiles(lines))
    && exists i: nat, j: nat :: i < j < |lines| && ValidPair(ParseTiles(lines), Connections(ParseTiles(lines)), i, j)
  }

  /** `calculate_result`: the largest area of a rectangle between two red
      tiles with no listed point strictly inside. */
  method CalculateResult(lines: seq<string>) returns (largest: nat)
    requires ValidInput(lines)
    ensures exists i: nat, j: nat :: && ValidPair(ParseTiles(lines), Connections(ParseTiles(lines)), i, j)
                                     && largest == Area(NewRectangle(ParseTiles(lines)[i], ParseTiles(lines)[j]))
    ensures forall i: nat, j: nat :: ValidPair(ParseTiles(lines), Connections(ParseTiles(lines)), i, j) ==>
                                     Area(NewRectangle(ParseTiles(lines)[i], ParseTiles(lines)[j])) <= largest
  {
    var tileList := ParseTiles(lines);
    var redTileConnections := FindRedTileConnections(tileList);
    ghost var i: nat, j: nat :| i < j < |lines| && ValidPair(tileList, redTileConnections, i, j);
    LargestValidArea(tileList, redTileConnections, i, j);
    largest := Max(ValidAreas(tileList, redTileConnections, Combinations(|tileList|))).value;
  }
}
