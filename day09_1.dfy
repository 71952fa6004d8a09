/**
 * Day 9, part 1 (src/bin/day_09_1.rs): red tiles sit at grid points; any
 * two of them are opposite corners of a rectangle of tiles, and the answer
 * is the largest such rectangle's area, counted in tiles.
 *
 * Coordinates are `usize`s, taken as 64 bits wide.
 */
module Day09Part1 {
  import opened Wrappers
  import opened Strings
  import opened Itertools

  datatype RedTile = RedTile(x: nat, y: nat)

  /* Parsing. */

  /** `from_string`: exactly two `,`-separated `usize`s, untrimmed;
      anything else is an error. */
  function FromString(input: string): (r: Result<RedTile, ()>)
    ensures CountChar(input, ',') != 1 ==> r.Err?
    ensures r.Ok? ==> r.value.x <= U64_MAX && r.value.y <= U64_MAX
  {
    SplitLength(input, ',');
    var parts := Split(input, ',');
    if |parts| != 2 then Err(())
    else
      var x := ParseNat(parts[0], U64_MAX);
      var y := ParseNat(parts[1], U64_MAX);
      if x.Some? && y.Some? then Ok(RedTile(x.value, y.value)) else Err(())
  }

  /** The line of a tile: its coordinates, `,`-separated. */
  function Line(t: RedTile): string
  {
    Decimal(t.x) + "," + Decimal(t.y)
  }

  /** Parsing the line of a tile whose coordinates are `usize`s gives the
      tile back. */
  lemma FromStringRoundTrip(t: RedTile)
    requires t.x <= U64_MAX && t.y <= U64_MAX
    ensures FromString(Line(t)) == Ok(t)
  {
    DecimalRoundTrip(t.x);
    DecimalRoundTrip(t.y);
    assert ',' !in Decimal(t.x) by {
      forall i | 0 <= i < |Decimal(t.x)| ensures Decimal(t.x)[i] != ',' {
        assert IsDigit(Decimal(t.x)[i]);
      }
    }
    assert ',' !in Decimal(t.y) by {
      forall i | 0 <= i < |Decimal(t.y)| ensures Decimal(t.y)[i] != ',' {
        assert IsDigit(Decimal(t.y)[i]);
      }
    }
    SplitPrefix(Decimal(t.x), Decimal(t.y), ',');
    SplitNoSep(Decimal(t.y), ',');
    ParseDecimal(t.x, U64_MAX);
    ParseDecimal(t.y, U64_MAX);
  }

  /** Every line parses: the `expect` of `parse_tiles` does not panic. */
  predicate LinesParse(lines: seq<string>)
  {
    forall l :: 0 <= l < |lines| ==> FromString(lines[l]).Ok?
  }

  /** `parse_tiles`: the tiles, one per line. */
  function ParseTiles(lines: seq<string>): (tiles: seq<RedTile>)
    requires LinesParse(lines)
    ensures |tiles| == |lines| && forall l :: 0 <= l < |lines| ==> FromString(lines[l]) == Ok(tiles[l])
  {
    seq(|lines|, l requires 0 <= l < |lines| => FromString(lines[l]).value)
  }

  /* Areas. */

  /** `abs_diff`: the distance between two naturals. */
  function AbsDiff(a: nat, b: nat): (d: nat)
    ensures a + d == b || b + d == a
  {
    if a <= b then b - a else a - b
  }

  /** `connected_area`: the number of tiles in the rectangle with corners
      `a` and `b`, both corners and their row and column included. */
  function ConnectedArea(a: RedTile, b: RedTile): (area: nat)
    ensures area >= 1
  {
    var w := AbsDiff(a.x, b.x) + 1;
    var h := AbsDiff(a.y, b.y) + 1;
    assert w * h >= 1 * h;
    w * h
  }

  /** The area does not depend on which corner comes first. */
  lemma ConnectedAreaSymmetric(a: RedTile, b: RedTile)
    ensures ConnectedArea(a, b) == ConnectedArea(b, a)
  {
  }

  /** Two tiles in the same row span a row of tiles. */
  lemma ConnectedAreaRow(a: RedTile, b: RedTile)
    requires a.y == b.y
    ensures ConnectedArea(a, b) == AbsDiff(a.x, b.x) + 1
  {
  }

  /** The area of every pair of tiles, in `tuple_combinations` order. */
  function Areas(tiles: seq<RedTile>): (areas: seq<nat>)
    ensures |areas| == |Combinations(|tiles|)|
    ensures forall k :: 0 <= k < |areas| ==>
              var p := Combinations(|tiles|)[k];
              p.0 < p.1 < |tiles| && areas[k] == ConnectedArea(tiles[p.0], tiles[p.1])
  {
    var ps := Combinations(|tiles|);
    assert forall k :: 0 <= k < |ps| ==> ps[k] in ps;
    seq(|ps|, k requires 0 <= k < |ps| => ConnectedArea(tiles[ps[k].0], tiles[ps[k].1]))
  }

  /** `calculate_result` does not panic: every line parses and there are
      at least two tiles, so at least one pair. */
  predicate ValidInput(lines: seq<string>)
  {
    LinesParse(lines) && |lines| >= 2
  }

  /** The largest area over the pairs of at least two tiles is the area
      of one of the pairs, and no pair has a larger one. */
  lemma LargestArea(tiles: seq<RedTile>)
    requires |tiles| >= 2
    ensures Max(Areas(tiles)).Some?
    ensures exists i, j :: 0 <= i < j < |tiles| && Max(Areas(tiles)).value == ConnectedArea(tiles[i], tiles[j])
    ensures forall i, j :: 0 <= i < j < |tiles| ==> ConnectedArea(tiles[i], tiles[j]) <= Max(Areas(tiles)).value
  {
    var areas := Areas(tiles);
    var ps := Combinations(|tiles|);
    assert (0, 1) in ps;
    var largest := Max(areas).value;
    var k :| 0 <= k < |areas| && areas[k] == largest;
    assert ps[k].0 < ps[k].1 < |tiles| && largest == ConnectedArea(tiles[ps[k].0], tiles[ps[k].1]);
    forall i, j | 0 <= i < j < |tiles|
      ensures ConnectedArea(tiles[i], tiles[j]) <= largest
    {
      AreaListed(tiles, i, j);
    }
  }

  lemma AreaListed(tiles: seq<RedTile>, i: nat, j: nat)
    requires i < j < |tiles|
    ensures ConnectedArea(tiles[i], tiles[j]) in Areas(tiles)
  {
    var ps := Combinations(|tiles|);
    assert (i, j) in ps;
    var k :| 0 <= k < |ps| && ps[k] == (i, j);
    assert Areas(tiles)[k] == ConnectedArea(tiles[i], tiles[j]);
  }

  /** `calculate_result`: the largest area over all pairs of tiles. */
  function CalculateResult(lines: seq<string>): (largest: nat)
    requires ValidInput(lines)
    ensures exists i, j :: 0 <= i < j < |lines| && largest == ConnectedArea(ParseTiles(lines)[i], ParseTiles(lines)[j])
    ensures forall i, j :: 0 <= i < j < |lines| ==> ConnectedArea(ParseTiles(lines)[i], ParseTiles(lines)[j]) <= largest
  {
    LargestArea(ParseTiles(lines));
    Max(Areas(ParseTiles(lines))).value
  }
}
