/**
 * Day 5, part 1 (src/bin/day_05_1.rs): the input is a list of inclusive ID
 * ranges `a-b`, a blank line, then one ID per line; the answer counts the
 * listed IDs that lie in at least one range.
 *
 * The range type, its parser and the input split are shared with part 2.
 */
module Day05Part1 {
  import opened Wrappers
  import opened Strings

  /** `IDRange(a, b)`: the IDs from `a` to `b`, both ends included. */
  datatype IdRange = IdRange(lo: nat, hi: nat)

  /** A range holding at least one ID. */
  predicate WellFormed(r: IdRange)
  {
    r.lo <= r.hi
  }

  /** `contains`: both ends are inclusive. */
  predicate Contains(r: IdRange, id: nat)
    ensures Contains(r, id) ==> WellFormed(r)
  {
    r.lo <= id <= r.hi
  }

  /** `try_combine` as written in part 1: the ranges are ordered by start
      (`other` first on a tie), and they are combined when the first ENDS AT
      OR BEFORE the start of the second. Nothing calls it. */
  function TryCombine(self: IdRange, other: IdRange): (r: Result<IdRange, ()>)
    ensures r.Ok? ==> r.value.lo <= self.lo && r.value.lo <= other.lo
    ensures r.Ok? ==> self.hi <= r.value.hi && other.hi <= r.value.hi
  {
    var (first, second) := if self.lo < other.lo then (self, other) else (other, self);
    if first.hi <= second.lo then
      Ok(IdRange(first.lo, if first.hi < second.hi then second.hi else first.hi))
    else Err(())
  }

  /** Two ranges with a gap between them are combined into one range that
      also covers the gap. */
  lemma TryCombineJoinsGap()
    ensures TryCombine(IdRange(1, 2), IdRange(5, 6)) == Ok(IdRange(1, 6))
    ensures Contains(IdRange(1, 6), 3) && !Contains(IdRange(1, 2), 3) && !Contains(IdRange(5, 6), 3)
  {
  }

  /** Conversely, overlapping ranges are refused: an `Err` from the
      part 1 `try_combine` means the ranges share an ID. */
  lemma TryCombineRefusesOverlap(a: IdRange, b: IdRange)
    requires WellFormed(a) && WellFormed(b) && TryCombine(a, b).Err?
    ensures exists x :: Contains(a, x) && Contains(b, x)
  {
    var second := if a.lo < b.lo then b else a;
    assert Contains(a, second.lo) && Contains(b, second.lo);
  }

  /** The `expect`s of `from_string`: when the spec has exactly two
      `-`-separated parts, both parse as `u64`. */
  predicate BoundsParse(spec: string)
  {
    var bounds := Split(spec, '-');
    |bounds| == 2 ==> ParseNat(bounds[0], U64_MAX).Some? && ParseNat(bounds[1], U64_MAX).Some?
  }

  /** `from_string`: `Err` unless the spec splits into exactly two parts at
      `-`. */
  function FromString(spec: string): (r: Result<IdRange, ()>)
    requires BoundsParse(spec)
    ensures r.Ok? <==> CountChar(spec, '-') == 1
    ensures r.Ok? ==> r.value.lo <= U64_MAX && r.value.hi <= U64_MAX
  {
    SplitLength(spec, '-');
    var bounds := Split(spec, '-');
    if |bounds| == 2 then
      Ok(IdRange(ParseNat(bounds[0], U64_MAX).value, ParseNat(bounds[1], U64_MAX).value))
    else Err(())
  }

  /** Writing a range out as `a-b` and parsing it gives it back. */
  lemma FromStringRoundTrip(r: IdRange)
    requires r.lo <= U64_MAX && r.hi <= U64_MAX
    ensures BoundsParse(Decimal(r.lo) + "-" + Decimal(r.hi))
    ensures FromString(Decimal(r.lo) + "-" + Decimal(r.hi)) == Ok(r)
  {
    SplitJoin([Decimal(r.lo), Decimal(r.hi)], '-');
    assert Join([Decimal(r.lo), Decimal(r.hi)], '-') == Decimal(r.lo) + "-" + Decimal(r.hi);
    ParseDecimal(r.lo, U64_MAX);
    ParseDecimal(r.hi, U64_MAX);
  }

  /* The input: ranges, a blank line, IDs. */

  /** The `take_while` of `calculate_result`: the position of the first
      line that is blank once trimmed, or the number of lines. */
  function FirstBlank(lines: seq<string>): (n: nat)
    ensures n <= |lines|
    ensures forall i :: 0 <= i < n ==> Trim(lines[i]) != ""
    ensures n < |lines| ==> Trim(lines[n]) == ""
  {
    if |lines| == 0 || Trim(lines[0]) == "" then 0 else 1 + FirstBlank(lines[1..])
  }

  /** The range lines, before the first blank line, all parse (otherwise
      an `expect` panics). */
  predicate ValidRangeLines(lines: seq<string>)
  {
    forall i :: 0 <= i < FirstBlank(lines) ==> BoundsParse(lines[i]) && FromString(lines[i]).Ok?
  }

  /** The ranges of the input, in their order. */
  function Ranges(lines: seq<string>): (ranges: seq<IdRange>)
    requires ValidRangeLines(lines)
    ensures |ranges| == FirstBlank(lines)
    ensures forall i :: 0 <= i < |ranges| ==> Ok(ranges[i]) == FromString(lines[i])
  {
    seq(FirstBlank(lines), i requires 0 <= i < FirstBlank(lines) => FromString(lines[i]).value)
  }

  /** The position of the first ID line: `take_while` consumes the blank
      line it stops at. */
  function IdStart(lines: seq<string>): nat
  {
    if FirstBlank(lines) < |lines| then FirstBlank(lines) + 1 else |lines|
  }

  /** Every line after the blank one parses as a `u64` as it stands (it is
      not trimmed). */
  predicate ValidInput(lines: seq<string>)
  {
    && ValidRangeLines(lines)
    && forall i :: IdStart(lines) <= i < |lines| ==> ParseNat(lines[i], U64_MAX).Some?
  }

  /** The IDs of the input, in their order. */
  function Ids(lines: seq<string>): (ids: seq<nat>)
    requires ValidInput(lines)
    ensures |ids| == |lines| - IdStart(lines)
    ensures forall i :: 0 <= i < |ids| ==> Some(ids[i]) == ParseNat(lines[IdStart(lines) + i], U64_MAX)
  {
    var start := IdStart(lines);
    seq(|lines| - start, i requires 0 <= i < |lines| - start => ParseNat(lines[start + i], U64_MAX).value)
  }

  /* Counting. */

  /** Some range contains `id`. */
  predicate Fresh(ranges: seq<IdRange>, id: nat)
  {
    exists k :: 0 <= k < |ranges| && Contains(ranges[k], id)
  }

  /** The inner `filter(...).count()`: how many ranges contain `id`; it is
      positive exactly when some range does. */
  function CountContaining(ranges: seq<IdRange>, id: nat): (n: nat)
    ensures n <= |ranges|
    ensures n > 0 <==> Fresh(ranges, id)
  {
    if |ranges| == 0 then 0
    else
      var rest := ranges[..|ranges| - 1];
      assert forall k :: 0 <= k < |rest| ==> rest[k] == ranges[k];
      CountContaining(rest, id) + (if Contains(ranges[|ranges| - 1], id) then 1 else 0)
  }

  /** The outer `filter(...).count()`: the listed IDs that some range
      contains; an ID listed twice counts twice. */
  function CountFresh(ids: seq<nat>, ranges: seq<IdRange>): (n: nat)
    ensures n <= |ids|
  {
    if |ids| == 0 then 0
    else CountFresh(ids[..|ids| - 1], ranges) + (if CountContaining(ranges, ids[|ids| - 1]) > 0 then 1 else 0)
  }

  /** The positions of the listed IDs that some range contains. */
  function FreshPositions(ids: seq<nat>, ranges: seq<IdRange>): set<nat>
  {
    set i: nat | i < |ids| && Fresh(ranges, ids[i])
  }

  /** The count is the number of list positions holding a fresh ID. */
  lemma {:induction false} CountFreshIsCard(ids: seq<nat>, ranges: seq<IdRange>)
    ensures CountFresh(ids, ranges) == |FreshPositions(ids, ranges)|
  {
    if |ids| > 0 {
      var n := |ids| - 1;
      var prefix := ids[..n];
      CountFreshIsCard(prefix, ranges);
      var before := FreshPositions(prefix, ranges);
      var after := FreshPositions(ids, ranges);
      if Fresh(ranges, ids[n]) {
        assert after == before + {n};
      } else {
        assert after == before;
      }
    }
  }

  /** `calculate_result`. */
  function CalculateResult(lines: seq<string>): (total: nat)
    requires ValidInput(lines)
    ensures total <= |Ids(lines)|
  {
    CountFresh(Ids(lines), Ranges(lines))
  }

  /** The answer is the number of ID lines whose ID lies in some range. */
  lemma CalculateResultCountsFresh(lines: seq<string>)
    requires ValidInput(lines)
    ensures CalculateResult(lines) == |FreshPositions(Ids(lines), Ranges(lines))|
  {
    CountFreshIsCard(Ids(lines), Ranges(lines));
  }
}
