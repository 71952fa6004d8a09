/**
 * Day 2, part 2 (src/bin/day_02_2.rs): an ID is now invalid when its
 * decimal form is some block repeated at least twice. The range list is
 * read exactly as in part 1.
 */
module Day02Part2 {
  import opened Strings
  import Day02Part1
  import opened Arith

  /** `b` written `r` times in a row. */
  function Repeat(b: string, r: nat): (s: string)
    ensures |s| == |b| * r
  {
    if r == 0 then [] else Repeat(b, r - 1) + b
  }

  /** The digit string equals its first `k` characters repeated `|s| / k`
      times, for some block length `k` between 1 and `|s| / 2` that divides
      `|s|`. */
  predicate IsRepeated(n: nat)
  {
    var s := Decimal(n);
    exists k :: 1 <= k <= |s| / 2 && RepeatsEvery(s, k)
  }

  /** `s` is its first `k` characters repeated `|s| / k` times. */
  predicate RepeatsEvery(s: string, k: nat)
    requires 1 <= k <= |s|
  {
    |s| % k == 0 && s == Repeat(s[..k], |s| / k)
  }

  /** Block `i` of `r` copies of `b` is `b`. */
  lemma {:induction false} RepeatBlock(b: string, r: nat, i: nat)
    requires i < r
    ensures i * |b| + |b| <= |b| * r
    ensures Repeat(b, r)[i * |b|..i * |b| + |b|] == b
  {
    MulLe(i + 1, r, |b|);
    if i < r - 1 {
      RepeatBlock(b, r - 1, i);
      MulLe(i + 1, r - 1, |b|);
    } else {
      assert |Repeat(b, r - 1)| == i * |b|;
    }
  }

  lemma MulAtMostOne(q: nat, k: nat)
    ensures q <= 1 ==> q * k <= k
  {
    if q <= 1 {
      MulLe(q, 1, k);
    }
  }

  lemma MulLe(a: nat, b: nat, k: nat)
    requires a <= b
    ensures a * k <= b * k && (a + 1) * k == a * k + k
  {
    MulMono(a, b, k);
    Distrib(k, a, 1);
  }

  /** One more matching block extends the repeated prefix. */
  lemma RepeatStep(s: string, b: string, i: nat)
    requires (i + 1) * |b| <= |s|
    requires s[..i * |b|] == Repeat(b, i)
    requires s[i * |b|..(i + 1) * |b|] == b
    ensures s[..(i + 1) * |b|] == Repeat(b, i + 1)
  {
    MulLe(i, i, |b|);
    assert s[..(i + 1) * |b|] == s[..i * |b|] + s[i * |b|..(i + 1) * |b|];
  }

  /** A block that differs from the first rules block length `k` out. */
  lemma MismatchNotRepeating(s: string, k: nat, i: nat)
    requires 1 <= k <= |s| && |s| % k == 0
    requires 1 <= i && (i + 1) * k <= |s|
    requires s[i * k..(i + 1) * k] != s[..k]
    ensures !RepeatsEvery(s, k)
  {
    if RepeatsEvery(s, k) {
      var nReps := |s| / k;
      assert nReps * k == |s|;
      if nReps <= i {
        MulLe(nReps, i, k);
      }
      RepeatBlock(s[..k], nReps, i);
      MulLe(i, i, k);
    }
  }

  /** The inner loop of `check_number` for one block length `k` dividing
      the length: compare blocks 1, 2, ... with block 0, stopping at the
      first mismatch. */
  method AllBlocksEqual(numberStr: string, k: nat) returns (allEqual: bool)
    requires 1 <= k <= |numberStr| && |numberStr| % k == 0
    ensures allEqual <==> RepeatsEvery(numberStr, k)
  {
    var len := |numberStr|;
    var nReps := len / k;
    DivAtLeastOne(len, k);
    assert nReps * k == len;
    var firstPart := numberStr[..k];
    allEqual := true;
    for i := 1 to nReps
      invariant allEqual
      invariant i * k <= len
      invariant numberStr[..i * k] == Repeat(firstPart, i)
    {
      MulLe(i + 1, nReps, k);
      var comparedPart := numberStr[i * k..(i + 1) * k];
      if firstPart != comparedPart {
        allEqual := false;
        MismatchNotRepeating(numberStr, k, i);
        break;
      }
      RepeatStep(numberStr, firstPart, i);
    }
    if allEqual {
      assert numberStr[..nReps * k] == numberStr;
    }
  }

  /** `check_number`: tries every block length from 1 to half the length
      that divides it, and succeeds at the first whose blocks all equal the
      first. */
  method CheckNumber(number: nat) returns (r: bool)
    ensures r <==> IsRepeated(number)
  {
    var numberStr := Decimal(number);
    var len := |numberStr|;
    for k := 1 to len / 2 + 1
      invariant forall k' :: 1 <= k' < k && k' <= len ==> !RepeatsEvery(numberStr, k')
    {
      if len % k == 0 {
        var allEqual := AllBlocksEqual(numberStr, k);
        if allEqual {
          return true;
        }
      }
    }
    return false;
  }

  /** Any block repeated at least twice will do: the bounds on `k` in
      `IsRepeated` lose nothing. */
  lemma RepeatedIffSomeBlock(n: nat)
    ensures IsRepeated(n) <==> exists b: string, reps: nat :: reps >= 2 && Decimal(n) == Repeat(b, reps)
  {
    var s := Decimal(n);
    if IsRepeated(n) {
      var k :| 1 <= k <= |s| / 2 && RepeatsEvery(s, k);
      MulAtMostOne(|s| / k, k);
      assert |s| / k >= 2;
    }
    if b: string, reps: nat :| reps >= 2 && s == Repeat(b, reps) {
      SomeBlockIsRepeated(n, b, reps);
    }
  }

  lemma SomeBlockIsRepeated(n: nat, b: string, reps: nat)
    requires reps >= 2 && Decimal(n) == Repeat(b, reps)
    ensures IsRepeated(n)
  {
    var s := Decimal(n);
    var k := |b|;
    assert k >= 1;
    DivExact(k, reps);
    MulLe(2, reps, k);
    assert |s| / 2 >= k;
    RepeatBlock(b, reps, 0);
    assert s[..k] == b;
    assert 1 <= k <= |s| / 2 && RepeatsEvery(s, k);
  }

  /** Every ID that part 1 rejects is rejected here too. */
  lemma DoubledIsRepeated(n: nat)
    requires Day02Part1.IsDoubled(n)
    ensures IsRepeated(n)
  {
    var s := Decimal(n);
    var k := |s| / 2;
    assert s == s[..k] + s[k..];
    assert Repeat(s[..k], 2) == s by {
      assert Repeat(s[..k], 1) == s[..k];
    }
    DivExact(k, 2);
    assert 1 <= k <= |s| / 2 && RepeatsEvery(s, k);
  }

  /** A one-digit number is never repeated. */
  lemma SingleDigitNotRepeated(n: nat)
    requires n < 10
    ensures !IsRepeated(n)
  {
  }

  /** The sum of the repeated numbers in [a, b]. */
  function SumRepeated(a: nat, b: nat): nat
    decreases b + 1 - a
  {
    if a > b then 0 else (if IsRepeated(a) then a else 0) + SumRepeated(a + 1, b)
  }

  /** `check_range`: walks the range, adding every repeated number. */
  method CheckRange(range: (nat, nat)) returns (total: nat)
    requires range.1 + 1 <= U64_MAX
    ensures total == SumRepeated(range.0, range.1)
  {
    var (a, b0) := range;
    var b := b0 + 1;
    total := 0;
    var n := a;
    while n < b
      invariant a <= n && (a <= b ==> n <= b)
      invariant total + SumRepeated(n, b0) == SumRepeated(a, b0)
    {
      var invalid := CheckNumber(n);
      if invalid {
        total := total + n;
      }
      n := n + 1;
    }
  }

  /** Part 2's sum dominates part 1's over any range. */
  lemma {:induction false} SumRepeatedAtLeastDoubled(a: nat, b: nat)
    ensures Day02Part1.SumDoubled(a, b) <= SumRepeated(a, b)
    decreases b + 1 - a
  {
    if a <= b {
      SumRepeatedAtLeastDoubled(a + 1, b);
      if Day02Part1.IsDoubled(a) {
        DoubledIsRepeated(a);
      }
    }
  }

  function SumOverRanges(ranges: seq<(nat, nat)>): nat
  {
    if |ranges| == 0 then 0
    else SumOverRanges(ranges[..|ranges| - 1]) + SumRepeated(ranges[|ranges| - 1].0, ranges[|ranges| - 1].1)
  }

  lemma SumOverRangesStep(ranges: seq<(nat, nat)>, i: nat)
    requires i < |ranges|
    ensures SumOverRanges(ranges[..i + 1]) == SumOverRanges(ranges[..i]) + SumRepeated(ranges[i].0, ranges[i].1)
  {
    assert ranges[..i + 1][..i] == ranges[..i];
  }

  /** `calculate_result`: the part 1 parser, then `check_range` summed over
      the ranges. */
  method CalculateResult(lines: seq<string>) returns (result: nat)
    requires |lines| >= 1 && Day02Part1.ValidRangeList(lines[0])
    ensures result == SumOverRanges(Day02Part1.ParseRanges(lines[0]))
  {
    var ranges := Day02Part1.ParseRanges(lines[0]);
    result := 0;
    for i := 0 to |ranges|
      invariant result == SumOverRanges(ranges[..i])
    {
      var t := CheckRange(ranges[i]);
      SumOverRangesStep(ranges, i);
      result := result + t;
    }
    assert ranges[..|ranges|] == ranges;
  }
}
