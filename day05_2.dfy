/**
 * Day 5, part 2 (src/bin/day_05_2.rs): the answer is the number of IDs
 * that lie in at least one range. The ranges are sorted, then merged pass
 * after pass until a pass leaves their number unchanged, and the lengths of
 * the merged ranges are added up.
 *
 * The range type, `from_string` and the input split are those of part 1;
 * the IDs after the blank line are not read.
 */
module Day05Part2 {
  import opened Wrappers
  import opened Strings
  import opened Day05Part1

  /** The IDs of one range. */
  function Ids(r: IdRange): set<nat>
  {
    set x: nat | x <= r.hi && Contains(r, x)
  }

  /** The IDs of a list of ranges. */
  function CoveredIds(rs: seq<IdRange>): set<nat>
  {
    if |rs| == 0 then {} else CoveredIds(rs[..|rs| - 1]) + Ids(rs[|rs| - 1])
  }

  predicate AllWellFormed(rs: seq<IdRange>)
  {
    forall k :: 0 <= k < |rs| ==> WellFormed(rs[k])
  }

  /** `try_combine` of part 2: the ranges are ordered by start (`other`
      first on a tie), and combined when the first reaches the start of the
      second. */
  function TryCombine(self: IdRange, other: IdRange): (r: Result<IdRange, ()>)
    ensures r.Ok? ==> r.value.lo <= self.lo && r.value.lo <= other.lo
    ensures r.Ok? ==> self.hi <= r.value.hi && other.hi <= r.value.hi
  {
    var (first, second) := if self.lo < other.lo then (self, other) else (other, self);
    if first.hi >= second.lo then
      Ok(IdRange(first.lo, if first.hi < second.hi then second.hi else first.hi))
    else Err(())
  }

  /** Two ranges are combined exactly when they share an ID, and then the
      combined range holds exactly the IDs of the two. */
  lemma TryCombineIsUnion(a: IdRange, b: IdRange)
    requires WellFormed(a) && WellFormed(b)
    ensures TryCombine(a, b).Ok? <==> Ids(a) * Ids(b) != {}
    ensures TryCombine(a, b).Ok? ==>
              WellFormed(TryCombine(a, b).value) && Ids(TryCombine(a, b).value) == Ids(a) + Ids(b)
  {
    var second := if a.lo < b.lo then b else a;
    if TryCombine(a, b).Ok? {
      assert second.lo in Ids(a) * Ids(b);
    }
  }

  /** Whatever the ranges, a combination starts where the earlier one
      starts, is well formed and holds exactly the IDs of the two: an
      inverted range (end below start) holds no ID, and a combination never
      takes its end from one. */
  lemma TryCombineCovers(a: IdRange, b: IdRange)
    ensures TryCombine(a, b).Ok? ==>
              TryCombine(a, b).value.lo == (if a.lo < b.lo then a.lo else b.lo)
              && WellFormed(TryCombine(a, b).value)
              && Ids(TryCombine(a, b).value) == Ids(a) + Ids(b)
  {
    if TryCombine(a, b).Ok? {
      var c := TryCombine(a, b).value;
      forall x: nat
        ensures x in Ids(c) <==> x in Ids(a) + Ids(b)
      {
      }
    }
  }

  /** The number of IDs from `lo` to `hi`. */
  lemma {:induction false} IdsCard(r: IdRange)
    requires WellFormed(r)
    ensures |Ids(r)| == r.hi - r.lo + 1
    decreases r.hi - r.lo
  {
    if r.lo < r.hi {
      var shorter := IdRange(r.lo, r.hi - 1);
      IdsCard(shorter);
      assert Ids(r) == Ids(shorter) + {r.hi} by {
        forall x: nat
          ensures x in Ids(r) <==> x in Ids(shorter) + {r.hi}
        {
        }
      }
    } else {
      assert Ids(r) == {r.lo};
    }
  }

  /** `len`: the number of IDs in the range (the subtraction underflows on
      a range whose end is below its start). */
  function Len(r: IdRange): (n: nat)
    requires WellFormed(r)
    ensures n == |Ids(r)|
  {
    IdsCard(r);
    r.hi - r.lo + 1
  }

  /* Sorting: `#[derive(Ord)]` orders ranges by start, then by end. */

  predicate LexLe(a: IdRange, b: IdRange)
  {
    a.lo < b.lo || (a.lo == b.lo && a.hi <= b.hi)
  }

  predicate Sorted(rs: seq<IdRange>)
  {
    forall i, j :: 0 <= i < j < |rs| ==> LexLe(rs[i], rs[j])
  }

  function Insert(x: IdRange, rs: seq<IdRange>): (r: seq<IdRange>)
    requires Sorted(rs)
    ensures Sorted(r) && multiset(r) == multiset{x} + multiset(rs)
  {
    if |rs| == 0 || LexLe(x, rs[0]) then [x] + rs
    else
      var rest := Insert(x, rs[1..]);
      InsertBehindHead(x, rs, rest);
      [rs[0]] + rest
  }

  /** A range that sorts after the head goes into the tail: the head in
      front of the sorted tail is sorted and holds the same ranges. */
  lemma InsertBehindHead(x: IdRange, rs: seq<IdRange>, rest: seq<IdRange>)
    requires Sorted(rs) && |rs| > 0 && !LexLe(x, rs[0])
    requires Sorted(rest) && multiset(rest) == multiset{x} + multiset(rs[1..])
    ensures Sorted([rs[0]] + rest) && multiset([rs[0]] + rest) == multiset{x} + multiset(rs)
  {
    assert rs == [rs[0]] + rs[1..];
    var r := [rs[0]] + rest;
    forall j | 0 <= j < |rest|
      ensures LexLe(rs[0], rest[j])
    {
      assert rest[j] in multiset(rest);
      if rest[j] != x {
        assert rest[j] in rs[1..];
      }
    }
    forall i, j | 0 <= i < j < |r|
      ensures LexLe(r[i], r[j])
    {
      assert r[j] == rest[j - 1];
      if i > 0 {
        assert r[i] == rest[i - 1];
      }
    }
  }

  /** `sort`: the ranges in the order of `Ord`, as a permutation. */
  function Sort(rs: seq<IdRange>): (r: seq<IdRange>)
    ensures Sorted(r) && multiset(r) == multiset(rs)
  {
    if |rs| == 0 then []
    else
      assert rs == [rs[0]] + rs[1..];
      Insert(rs[0], Sort(rs[1..]))
  }

  /* One merging pass: the `fold` of `calculate_result`. */

  /** The fold closure: pop the last range of the accumulator, push the
      combination with `range` if there is one, the two ranges otherwise. */
  function MergeStep(acc: seq<IdRange>, range: IdRange): (r: seq<IdRange>)
  {
    if |acc| == 0 then [range]
    else
      var last := acc[|acc| - 1];
      var rest := acc[..|acc| - 1];
      var c := TryCombine(last, range);
      if c.Ok? then rest + [c.value] else rest + [last] + [range]
  }

  /** The whole fold from an empty accumulator; it never has more ranges
      than it started with. */
  function Merge(rs: seq<IdRange>): (acc: seq<IdRange>)
    ensures |acc| <= |rs|
    ensures |rs| > 0 ==> |acc| > 0
  {
    if |rs| == 0 then [] else MergeStep(Merge(rs[..|rs| - 1]), rs[|rs| - 1])
  }

  /** The pass as the source writes it, with a vector that is popped and
      pushed. */
  method MergePass(ranges: seq<IdRange>) returns (acc: seq<IdRange>)
    ensures acc == Merge(ranges)
  {
    acc := [];
    for i := 0 to |ranges|
      invariant acc == Merge(ranges[..i])
    {
      assert ranges[..i + 1][..i] == ranges[..i];
      var range := ranges[i];
      if |acc| > 0 {
        var last := acc[|acc| - 1];
        acc := acc[..|acc| - 1];
        var combined := TryCombine(last, range);
        if combined.Ok? {
          acc := acc + [combined.value];
        } else {
          acc := acc + [last];
          acc := acc + [range];
        }
      } else {
        acc := acc + [range];
      }
    }
    assert ranges[..|ranges|] == ranges;
  }

  lemma {:induction false} CoveredIdsAppend(a: seq<IdRange>, b: seq<IdRange>)
    ensures CoveredIds(a + b) == CoveredIds(a) + CoveredIds(b)
    decreases |b|
  {
    if |b| == 0 {
      assert a + b == a;
    } else {
      assert (a + b)[..|a + b| - 1] == a + b[..|b| - 1];
      CoveredIdsAppend(a, b[..|b| - 1]);
    }
  }

  /** A step adds the IDs of `range` to those of the accumulator, and
      keeps well-formed ranges well formed. */
  lemma MergeStepCovers(acc: seq<IdRange>, range: IdRange)
    ensures AllWellFormed(acc) && WellFormed(range) ==> AllWellFormed(MergeStep(acc, range))
    ensures CoveredIds(MergeStep(acc, range)) == CoveredIds(acc) + Ids(range)
  {
    if |acc| > 0 {
      var last := acc[|acc| - 1];
      var rest := acc[..|acc| - 1];
      assert acc == rest + [last];
      TryCombineCovers(last, range);
      var c := TryCombine(last, range);
      CoveredIdsAppend(rest, [last]);
      if c.Ok? {
        CoveredIdsAppend(rest, [c.value]);
      } else {
        CoveredIdsAppend(acc, [range]);
      }
    }
  }

  /** Merging keeps the set of covered IDs, and well-formed ranges well
      formed. */
  lemma {:induction false} MergeCovers(rs: seq<IdRange>)
    ensures AllWellFormed(rs) ==> AllWellFormed(Merge(rs))
    ensures CoveredIds(Merge(rs)) == CoveredIds(rs)
  {
    if |rs| > 0 {
      MergeCovers(rs[..|rs| - 1]);
      MergeStepCovers(Merge(rs[..|rs| - 1]), rs[|rs| - 1]);
    }
  }

  /** Ranges by non-decreasing start. */
  predicate SortedByStart(rs: seq<IdRange>)
  {
    forall i, j :: 0 <= i < j < |rs| ==> rs[i].lo <= rs[j].lo
  }

  /** Each range ends before the next one starts. */
  predicate Disjoint(rs: seq<IdRange>)
  {
    forall i, j :: 0 <= i < j < |rs| ==> rs[i].hi < rs[j].lo
  }

  /** The result of a step on a disjoint accumulator whose ranges all start
      at or before `range` is again disjoint, and ends with a range that
      starts at or before `range`. */
  lemma MergeStepDisjoint(acc: seq<IdRange>, range: IdRange)
    requires AllWellFormed(acc) && WellFormed(range) && Disjoint(acc)
    requires forall k :: 0 <= k < |acc| ==> acc[k].lo <= range.lo
    ensures Disjoint(MergeStep(acc, range))
    ensures forall k :: 0 <= k < |MergeStep(acc, range)| ==> MergeStep(acc, range)[k].lo <= range.lo
  {
  }

  /** A pass over ranges sorted by start leaves disjoint ranges, each
      starting at or before the last input range. */
  lemma {:induction false} MergeSortedIsDisjoint(rs: seq<IdRange>)
    requires AllWellFormed(rs) && SortedByStart(rs)
    ensures Disjoint(Merge(rs))
    ensures |rs| > 0 ==> forall k :: 0 <= k < |Merge(rs)| ==> Merge(rs)[k].lo <= rs[|rs| - 1].lo
  {
    if |rs| > 0 {
      var prefix := rs[..|rs| - 1];
      MergeSortedIsDisjoint(prefix);
      MergeCovers(prefix);
      MergeStepDisjoint(Merge(prefix), rs[|rs| - 1]);
    }
  }

  /** A pass over ranges that are already disjoint and in order changes
      nothing. */
  lemma {:induction false} MergeDisjointIsIdentity(rs: seq<IdRange>)
    requires AllWellFormed(rs) && Disjoint(rs)
    ensures Merge(rs) == rs
  {
    if |rs| > 0 {
      var prefix := rs[..|rs| - 1];
      MergeDisjointIsIdentity(prefix);
      MergeStepApart(prefix, rs[|rs| - 1]);
      assert rs == prefix + [rs[|rs| - 1]];
    }
  }

  /** A step on ranges sorted by start, none starting after `range`, keeps
      them sorted by start and starting no later than `range`: a
      combination starts where the accumulated range did. */
  lemma MergeStepSorted(acc: seq<IdRange>, range: IdRange)
    requires SortedByStart(acc) && forall k :: 0 <= k < |acc| ==> acc[k].lo <= range.lo
    ensures SortedByStart(MergeStep(acc, range))
    ensures forall k :: 0 <= k < |MergeStep(acc, range)| ==> MergeStep(acc, range)[k].lo <= range.lo
  {
    if |acc| > 0 {
      TryCombineCovers(acc[|acc| - 1], range);
    }
  }

  /** A pass over ranges sorted by start, inverted ones included, leaves
      them sorted by start, none starting after the last input range. */
  lemma {:induction false} MergeSortedByStart(rs: seq<IdRange>)
    requires SortedByStart(rs)
    ensures SortedByStart(Merge(rs))
    ensures |rs| > 0 ==> forall k :: 0 <= k < |Merge(rs)| ==> Merge(rs)[k].lo <= rs[|rs| - 1].lo
  {
    if |rs| > 0 {
      var prefix := rs[..|rs| - 1];
      MergeSortedByStart(prefix);
      MergeStepSorted(Merge(prefix), rs[|rs| - 1]);
    }
  }

  /** A pass that keeps the number of ranges combined nothing, so it gave
      its input back. */
  lemma {:induction false} MergeSameLength(rs: seq<IdRange>)
    ensures |Merge(rs)| == |rs| ==> Merge(rs) == rs
  {
    if |rs| > 0 && |Merge(rs)| == |rs| {
      var prefix, x := rs[..|rs| - 1], rs[|rs| - 1];
      assert prefix + [x] == rs;
      var acc := Merge(prefix);
      assert Merge(rs) == MergeStep(acc, x);
      if |acc| == 0 {
        assert |prefix| == 0;
      } else {
        var last, rest := acc[|acc| - 1], acc[..|acc| - 1];
        assert rest + [last] == acc;
        assert TryCombine(last, x).Err?;
        assert MergeStep(acc, x) == acc + [x];
        MergeSameLength(prefix);
      }
    }
  }

  /** The `while` loop of `calculate_result`: merge passes until a pass
      keeps the number of ranges. The result covers the same IDs and no
      further pass changes it. */
  function Settle(rs: seq<IdRange>): (r: seq<IdRange>)
    ensures CoveredIds(r) == CoveredIds(rs) && Merge(r) == r
    decreases |rs|
  {
    if |rs| == 0 then []
    else
      var m := Merge(rs);
      MergeCovers(rs);
      MergeSameLength(rs);
      if |m| == |rs| then m else Settle(m)
  }

  /** Settling ranges sorted by start leaves them sorted by start. */
  lemma {:induction false} SettleSortedByStart(rs: seq<IdRange>)
    requires SortedByStart(rs)
    ensures SortedByStart(Settle(rs))
    decreases |rs|
  {
    if |rs| > 0 {
      MergeSortedByStart(rs);
      if |Merge(rs)| != |rs| {
        SettleSortedByStart(Merge(rs));
      }
    }
  }

  /** A range that starts after the last accumulated range ends is pushed
      as it is. */
  lemma MergeStepApart(acc: seq<IdRange>, range: IdRange)
    requires AllWellFormed(acc) && WellFormed(range)
    requires |acc| > 0 ==> acc[|acc| - 1].hi < range.lo
    ensures MergeStep(acc, range) == acc + [range]
  {
    if |acc| > 0 {
      assert acc[..|acc| - 1] + [acc[|acc| - 1]] == acc;
    }
  }

  /* Adding up the lengths. */

  /** `map(len).sum()`. */
  function SumLen(rs: seq<IdRange>): nat
    requires AllWellFormed(rs)
  {
    if |rs| == 0 then 0 else SumLen(rs[..|rs| - 1]) + Len(rs[|rs| - 1])
  }

  /** All IDs covered by `rs` are below `bound` when every range ends
      below it. */
  lemma {:induction false} CoveredBelow(rs: seq<IdRange>, bound: nat)
    requires forall k :: 0 <= k < |rs| ==> rs[k].hi < bound
    ensures forall x :: x in CoveredIds(rs) ==> x < bound
  {
    if |rs| > 0 {
      CoveredBelow(rs[..|rs| - 1], bound);
    }
  }

  /** For disjoint ranges the lengths add up to the number of covered
      IDs. */
  lemma {:induction false} SumLenIsCard(rs: seq<IdRange>)
    requires AllWellFormed(rs) && Disjoint(rs)
    ensures SumLen(rs) == |CoveredIds(rs)|
  {
    if |rs| > 0 {
      var prefix := rs[..|rs| - 1];
      var last := rs[|rs| - 1];
      SumLenIsCard(prefix);
      CoveredBelow(prefix, last.lo);
      assert CoveredIds(prefix) * Ids(last) == {};
    }
  }

  /* The whole computation. */

  /** The range lines parse, and no range left after the merge passes has
      its end below its start (`len` underflows on such a range). An
      inverted range that a merge absorbs is accepted. */
  predicate ValidInput(lines: seq<string>)
  {
    ValidRangeLines(lines) && AllWellFormed(Settle(Sort(Ranges(lines))))
  }

  /** `calculate_result`: sort, then merge until a pass keeps the number
      of ranges, then add up the lengths. The answer is the number of IDs
      that lie in some range. */
  method CalculateResult(lines: seq<string>) returns (total: nat)
    requires ValidInput(lines)
    ensures total == |CoveredIds(Ranges(lines))|
  {
    var ranges := Ranges(lines);
    var deduplicated := Sort(ranges);
    var deduplicatedLast: seq<IdRange> := [];
    SortedSamePermutation(ranges, deduplicated);
    ghost var settled := Settle(deduplicated);
    while |deduplicated| != |deduplicatedLast|
      invariant SortedByStart(deduplicated)
      invariant CoveredIds(deduplicated) == CoveredIds(ranges)
      invariant if |deduplicated| != |deduplicatedLast| then Settle(deduplicated) == settled
                else deduplicated == settled
      decreases |deduplicated| + (if |deduplicated| != |deduplicatedLast| then 1 else 0)
    {
      deduplicatedLast := deduplicated;
      deduplicated := MergePass(deduplicated);
      MergeCovers(deduplicatedLast);
      MergeSortedByStart(deduplicatedLast);
    }
    MergeSortedIsDisjoint(deduplicated);
    total := SumLen(deduplicated);
    SumLenIsCard(deduplicated);
  }

  /** An inverted range is accepted when a merge absorbs it: `5-3` after
      `1-10` disappears into `1-10`, so `len` never sees it. */
  lemma InvertedRangeAbsorbed(lines: seq<string>)
    requires lines == ["1-10", "5-3", ""]
    ensures ValidInput(lines)
    ensures Settle(Sort(Ranges(lines))) == [IdRange(1, 10)]
  {
    var a, b := IdRange(1, 10), IdRange(5, 3);
    ExampleSpecs();
    TwoRangeLines(lines, a, b);
    SortTwo(a, b);
    ExampleMerge(a, b);
  }

  /** Two ranges already in start order sort to themselves. */
  lemma SortTwo(a: IdRange, b: IdRange)
    requires a.lo < b.lo
    ensures Sort([a, b]) == [a, b]
  {
    assert [a, b][1..] == [b] && [b][1..] == [];
    assert Sort([b]) == Insert(b, []) == [b];
    assert Insert(a, [b]) == [a, b];
  }

  lemma ExampleMerge(a: IdRange, b: IdRange)
    requires a == IdRange(1, 10) && b == IdRange(5, 3)
    ensures Settle([a, b]) == [a]
  {
    assert [a, b][..1] == [a] && [a][..0] == [];
    assert Merge([a]) == [a];
    assert Merge([a, b]) == MergeStep([a], b) == [a];
  }

  /** Two formatted ranges followed by a blank line read back as those
      two ranges. */
  lemma TwoRangeLines(lines: seq<string>, a: IdRange, b: IdRange)
    requires a.lo <= U64_MAX && a.hi <= U64_MAX && b.lo <= U64_MAX && b.hi <= U64_MAX
    requires lines == [Decimal(a.lo) + "-" + Decimal(a.hi), Decimal(b.lo) + "-" + Decimal(b.hi), ""]
    ensures ValidRangeLines(lines) && Ranges(lines) == [a, b]
  {
    TwoSpecsFirstBlank(lines, a, b);
    FromStringRoundTrip(a);
    FromStringRoundTrip(b);
    TwoParsedLines(lines, a, b);
  }

  /** Two range lines that parse, then a blank line. */
  lemma TwoParsedLines(lines: seq<string>, a: IdRange, b: IdRange)
    requires |lines| == 3 && FirstBlank(lines) == 2
    requires BoundsParse(lines[0]) && FromString(lines[0]) == Ok(a)
    requires BoundsParse(lines[1]) && FromString(lines[1]) == Ok(b)
    ensures ValidRangeLines(lines) && Ranges(lines) == [a, b]
  {
    forall i | 0 <= i < FirstBlank(lines)
      ensures BoundsParse(lines[i]) && FromString(lines[i]).Ok?
    {
      assert i == 0 || i == 1;
    }
    var ranges := Ranges(lines);
    assert ranges[0] == a && ranges[1] == b;
  }

  lemma TwoSpecsFirstBlank(lines: seq<string>, a: IdRange, b: IdRange)
    requires lines == [Decimal(a.lo) + "-" + Decimal(a.hi), Decimal(b.lo) + "-" + Decimal(b.hi), ""]
    ensures FirstBlank(lines) == 2
  {
    SpecNotBlank(a);
    SpecNotBlank(b);
    TwoLinesBeforeBlank(lines);
  }

  /** A formatted range is not a blank line. */
  lemma SpecNotBlank(r: IdRange)
    ensures Trim(Decimal(r.lo) + "-" + Decimal(r.hi)) != ""
  {
    var spec := Decimal(r.lo) + "-" + Decimal(r.hi);
    assert IsDigit(spec[0]) && IsDigit(spec[|spec| - 1]);
    TrimUnpadded(spec);
  }

  /** Two non-blank lines, then a blank line: the range lines are the
      first two. */
  lemma TwoLinesBeforeBlank(lines: seq<string>)
    requires |lines| == 3 && Trim(lines[0]) != "" && Trim(lines[1]) != "" && lines[2] == ""
    ensures FirstBlank(lines) == 2
  {
    var tail := lines[1..];
    assert tail[1..] == [""];
    assert FirstBlank(tail[1..]) == 0;
    assert FirstBlank(tail) == 1;
  }

  /** The two range lines are what `format!` writes for their bounds. */
  lemma ExampleSpecs()
    ensures "1-10" == Decimal(1) + "-" + Decimal(10)
    ensures "5-3" == Decimal(5) + "-" + Decimal(3)
  {
    assert DigitChar(0) == '0' && DigitChar(1) == '1' && DigitChar(3) == '3' && DigitChar(5) == '5';
    assert Decimal(1) == ['1'] && Decimal(3) == ['3'] && Decimal(5) == ['5'];
    assert Decimal(10) == Decimal(1) + [DigitChar(0)];
  }


  /** Sorting keeps the ranges, so their covered IDs, and orders them by
      start. */
  lemma SortedSamePermutation(rs: seq<IdRange>, sorted: seq<IdRange>)
    requires sorted == Sort(rs)
    ensures AllWellFormed(rs) ==> AllWellFormed(sorted)
    ensures SortedByStart(sorted)
    ensures CoveredIds(sorted) == CoveredIds(rs)
  {
    if AllWellFormed(rs) {
      forall k | 0 <= k < |sorted|
        ensures WellFormed(sorted[k])
      {
        assert sorted[k] in multiset(rs);
      }
    }
    PermutationCovers(rs, sorted);
  }

  /** Two lists holding the same ranges cover the same IDs. */
  lemma PermutationCovers(a: seq<IdRange>, b: seq<IdRange>)
    requires multiset(a) == multiset(b)
    ensures CoveredIds(a) == CoveredIds(b)
  {
    forall x
      ensures x in CoveredIds(a) <==> x in CoveredIds(b)
    {
      CoveredIdsMember(a, x);
      CoveredIdsMember(b, x);
      if x in CoveredIds(a) {
        var k :| 0 <= k < |a| && Contains(a[k], x);
        assert a[k] in multiset(b);
      }
      if x in CoveredIds(b) {
        var k :| 0 <= k < |b| && Contains(b[k], x);
        assert b[k] in multiset(a);
      }
    }
  }

  /** An ID is covered exactly when some range of the list contains it. */
  lemma {:induction false} CoveredIdsMember(rs: seq<IdRange>, x: nat)
    ensures x in CoveredIds(rs) <==> exists k :: 0 <= k < |rs| && Contains(rs[k], x)
  {
    if |rs| > 0 {
      var prefix := rs[..|rs| - 1];
      CoveredIdsMember(prefix, x);
      if x in CoveredIds(prefix) {
        var k :| 0 <= k < |prefix| && Contains(prefix[k], x);
        assert rs[k] == prefix[k];
      }
      if k :| 0 <= k < |rs| && Contains(rs[k], x) {
        if k < |prefix| {
          assert prefix[k] == rs[k];
        }
      }
    }
  }
}
