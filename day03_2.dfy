/**
 * Day 3, part 2 (src/bin/day_03_2.rs): the joltage of a bank is now the
 * largest twelve-digit number formed by twelve of its digits in order,
 * found greedily: step `k` takes the first largest digit of the window
 * that still leaves room for the remaining `11 - k` digits.
 */
module Day03Part2 {
  import opened Strings
  import opened Day03Part1
  import Arith

  /** Strictly increasing positions. */
  predicate Increasing(ps: seq<nat>)
  {
    forall i, j :: 0 <= i < j < |ps| ==> ps[i] < ps[j]
  }

  /** `p` holds the first largest digit of `bank[lo..hi]`. */
  predicate IsFirstMax(bank: string, lo: nat, hi: nat, p: nat)
    requires AllDigits(bank) && hi <= |bank|
  {
    && lo <= p < hi
    && (forall t :: lo <= t < hi ==> D(bank, t) <= D(bank, p))
    && (forall t :: lo <= t < p ==> D(bank, t) < D(bank, p))
  }

  /** One step of the greedy search, started at `idx` with the window
      ending (exclusively) at `hi`: the position of the window's first
      largest digit. Step `k` of `largest_12_digit_number` has
      `hi == |bank| - (11 - k)`, which leaves room for the remaining
      `11 - k` digits. */
  function GreedyStep(bank: string, idx: nat, hi: nat): (p: nat)
    requires AllDigits(bank) && idx < hi <= |bank|
    ensures idx <= p < hi
    decreases hi
  {
    if hi == idx + 1 then idx
    else
      var q := GreedyStep(bank, idx, hi - 1);
      if D(bank, hi - 1) > D(bank, q) then hi - 1 else q
  }

  /** The step is `largest_digit_position_value` of the window, shifted
      to a position of the bank. */
  lemma {:induction false} GreedyStepIsFold(bank: string, idx: nat, hi: nat)
    requires AllDigits(bank) && idx < hi <= |bank|
    ensures GreedyStep(bank, idx, hi) == idx + LargestDigitPositionValue(bank[idx..hi]).0
    ensures D(bank, GreedyStep(bank, idx, hi)) == LargestDigitPositionValue(bank[idx..hi]).1
    decreases hi
  {
    var window := bank[idx..hi];
    var n := D(bank, hi - 1);
    assert D(window, |window| - 1) == n;
    if hi > idx + 1 {
      GreedyStepIsFold(bank, idx, hi - 1);
      var prefix := window[..|window| - 1];
      assert prefix == bank[idx..hi - 1];
      var (i, v) := LargestDigitPositionValue(prefix);
      assert LargestDigitPositionValue(window) == if n > v then (|window| - 1, n) else (i, v);
      var q := GreedyStep(bank, idx, hi - 1);
      assert q == idx + i && D(bank, q) == v;
      assert GreedyStep(bank, idx, hi) == if n > v then hi - 1 else q;
    }
  }

  /** The step picks the first largest digit of its window. */
  lemma GreedyStepIsFirstMax(bank: string, idx: nat, hi: nat)
    requires AllDigits(bank) && idx < hi <= |bank|
    ensures GreedyStep(bank, idx, hi) == idx + LargestDigitPositionValue(bank[idx..hi]).0
    ensures D(bank, GreedyStep(bank, idx, hi)) == LargestDigitPositionValue(bank[idx..hi]).1
    ensures IsFirstMax(bank, idx, hi, GreedyStep(bank, idx, hi))
  {
    GreedyStepIsFold(bank, idx, hi);
    var window := bank[idx..hi];
    assert forall t :: idx <= t < hi ==> D(bank, t) == D(window, t - idx);
  }

  /** The positions the greedy search picks from the window ending at `hi`
      on, each window one longer than the last and starting just after the
      previous pick, until the window reaches the end of the bank. */
  function GreedyPicks(bank: string, idx: nat, hi: nat): (ps: seq<nat>)
    requires AllDigits(bank) && idx < hi <= |bank| + 1
    ensures |ps| == |bank| + 1 - hi
    ensures forall j :: 0 <= j < |ps| ==> idx <= ps[j] < |bank|
    decreases |bank| + 1 - hi
  {
    if hi == |bank| + 1 then []
    else
      var p := GreedyStep(bank, idx, hi);
      [p] + GreedyPicks(bank, p + 1, hi + 1)
  }

  /** The twelve positions `largest_12_digit_number` picks. */
  function Greedy12(bank: string): (ps: seq<nat>)
    requires AllDigits(bank) && |bank| >= 12
    ensures |ps| == 12
  {
    GreedyPicks(bank, 0, |bank| - 11)
  }

  /** The greedy picks are increasing positions of the bank. */
  lemma {:induction false} GreedyIncreasing(bank: string, idx: nat, hi: nat)
    requires AllDigits(bank) && idx < hi <= |bank| + 1
    ensures Increasing(GreedyPicks(bank, idx, hi))
    decreases |bank| + 1 - hi
  {
    if hi <= |bank| {
      var p := GreedyStep(bank, idx, hi);
      var rest := GreedyPicks(bank, p + 1, hi + 1);
      GreedyIncreasing(bank, p + 1, hi + 1);
      var ps := [p] + rest;
      assert GreedyPicks(bank, idx, hi) == ps;
      forall i, j | 0 <= i < j < |ps|
        ensures ps[i] < ps[j]
      {
        assert ps[j] == rest[j - 1];
        if i > 0 {
          assert ps[i] == rest[i - 1];
        }
      }
    }
  }

  /** The digits at the given positions. */
  function Values(bank: string, ps: seq<nat>): (ds: seq<nat>)
    requires AllDigits(bank) && forall j :: 0 <= j < |ps| ==> ps[j] < |bank|
    ensures |ds| == |ps| && forall j :: 0 <= j < |ds| ==> ds[j] == D(bank, ps[j]) < 10
  {
    seq(|ps|, j requires 0 <= j < |ps| => D(bank, ps[j]))
  }

  lemma ValuesCons(bank: string, p: nat, rest: seq<nat>)
    requires AllDigits(bank) && p < |bank| && forall j :: 0 <= j < |rest| ==> rest[j] < |bank|
    ensures Values(bank, [p] + rest) == [D(bank, p)] + Values(bank, rest)
  {
    var ps := [p] + rest;
    assert forall j :: 0 < j < |ps| ==> ps[j] == rest[j - 1];
  }

  /** A digit sequence read as a decimal, first digit most significant. */
  function MsbValue(ds: seq<nat>): nat
  {
    if |ds| == 0 then 0 else MsbValue(ds[..|ds| - 1]) * 10 + ds[|ds| - 1]
  }

  /** `digits.reverse()`. */
  function Reverse(ds: seq<nat>): (rs: seq<nat>)
    ensures |rs| == |ds| && forall j :: 0 <= j < |ds| ==> rs[j] == ds[|ds| - 1 - j]
  {
    if |ds| == 0 then [] else [ds[|ds| - 1]] + Reverse(ds[..|ds| - 1])
  }

  /** `digits.iter().enumerate().map(|(i, v)| v * 10^i).sum()`: entry `i`
      weighs 10^i. */
  function PlaceValueSum(ds: seq<nat>): nat
  {
    if |ds| == 0 then 0 else ds[0] + 10 * PlaceValueSum(ds[1..])
  }

  /** Reversing and weighing by place value reads the digits
      most-significant first. */
  lemma {:induction false} PlaceValueOfReverse(ds: seq<nat>)
    ensures PlaceValueSum(Reverse(ds)) == MsbValue(ds)
  {
    if |ds| > 0 {
      PlaceValueOfReverse(ds[..|ds| - 1]);
      assert Reverse(ds)[1..] == Reverse(ds[..|ds| - 1]);
    }
  }

  /** A bank `largest_12_digit_number` accepts: at least 11 characters
      (shorter banks underflow `len - (11 - k)`), all digits once there
      are 12 or more. With exactly 11 every window is empty and no
      character is read. */
  predicate ValidLongBank(bank: string)
  {
    |bank| >= 11 && (|bank| >= 12 ==> AllDigits(bank))
  }

  /** `largest_12_digit_number`. A bank of exactly 11 characters makes
      every window empty and yields 0. */
  method Largest12DigitNumber(bank: string) returns (result: nat)
    requires ValidLongBank(bank)
    ensures |bank| == 11 ==> result == 0
    ensures |bank| >= 12 ==> result == MsbValue(Values(bank, Greedy12(bank)))
  {
    var idx: nat := 0;
    var digits: seq<nat> := [];
    ghost var whole := LoopStart(bank);
    for k := 0 to 12
      invariant idx <= |bank| - 11 + k
      invariant LoopState(bank, idx, k, digits, whole)
    {
      WindowDigits(bank, idx, k, digits, whole);
      var i, v := PickDigit(bank, idx, k);
      LoopStateStep(bank, idx, k, digits, whole, i, v);
      idx := idx + i + 1;
      digits := digits + [v];
    }
    var reversed := Reverse(digits);
    result := PlaceValueSum(reversed);
    LoopStateDone(bank, idx, digits, whole);
  }

  /** Loop state of `largest_12_digit_number` before step `k`: with 11
      digits every pick so far is 0 from an empty window; otherwise the
      digits so far are the first `k` greedy digits. */
  ghost predicate LoopState(bank: string, idx: nat, k: nat, digits: seq<nat>, whole: seq<nat>)
    requires ValidLongBank(bank)
  {
    && |digits| == k
    && idx <= |bank| - 11 + k
    && if |bank| == 11 then idx == k && forall j :: 0 <= j < k ==> digits[j] == 0
       else GreedyProgress(bank, idx, |bank| - 11 + k, digits, whole)
  }

  /** The window of step `k` holds only digits: it is empty for an
      11-character bank, and a longer bank is all digits. */
  lemma WindowDigits(bank: string, idx: nat, k: nat, digits: seq<nat>, whole: seq<nat>)
    requires ValidLongBank(bank) && k < 12
    requires LoopState(bank, idx, k, digits, whole)
    ensures idx <= |bank| - 11 + k && AllDigits(bank[idx..|bank| - 11 + k])
  {
  }

  /** One step of the loop, picking offset `i` and digit `v` as
      `PickDigit` does, keeps the loop state. */
  lemma LoopStateStep(bank: string, idx: nat, k: nat, digits: seq<nat>, whole: seq<nat>, i: nat, v: nat)
    requires ValidLongBank(bank) && k < 12
    requires LoopState(bank, idx, k, digits, whole)
    requires idx == |bank| - 11 + k ==> i == 0 && v == 0
    requires |bank| >= 12 && idx < |bank| - 11 + k ==>
               idx + i == GreedyStep(bank, idx, |bank| - 11 + k) && v == D(bank, idx + i)
    ensures LoopState(bank, idx + i + 1, k + 1, digits + [v], whole)
  {
    if |bank| == 11 {
      ZeroPickStep(bank, idx, k, digits, whole, i, v);
    } else {
      LoopStateIsProgress(bank, idx, k, digits, whole);
      GreedyPickStep(bank, idx, k, digits, whole, i, v);
    }
  }

  /** With an 11-digit bank the window is empty and the loop appends one
      more 0 digit. */
  lemma ZeroPickStep(bank: string, idx: nat, k: nat, digits: seq<nat>, whole: seq<nat>, i: nat, v: nat)
    requires |bank| == 11 && k < 12
    requires LoopState(bank, idx, k, digits, whole)
    requires idx == |bank| - 11 + k ==> i == 0 && v == 0
    ensures LoopState(bank, idx + i + 1, k + 1, digits + [v], whole)
  {
    assert forall j :: 0 <= j < k + 1 ==> (digits + [v])[j] == 0;
  }

  /** With a longer bank the loop state is greedy progress, and the
      window of step `k` is not empty. */
  lemma LoopStateIsProgress(bank: string, idx: nat, k: nat, digits: seq<nat>, whole: seq<nat>)
    requires AllDigits(bank) && |bank| >= 12
    requires LoopState(bank, idx, k, digits, whole)
    ensures |digits| == k && idx < |bank| - 11 + k
    ensures GreedyProgress(bank, idx, |bank| - 11 + k, digits, whole)
  {
  }

  /** With a longer bank the loop appends the next greedy digit. */
  lemma GreedyPickStep(bank: string, idx: nat, k: nat, digits: seq<nat>, whole: seq<nat>, i: nat, v: nat)
    requires AllDigits(bank) && |bank| >= 12 && k < 12 && |digits| == k
    requires GreedyProgress(bank, idx, |bank| - 11 + k, digits, whole)
    requires idx + i == GreedyStep(bank, idx, |bank| - 11 + k) && v == D(bank, idx + i)
    ensures LoopState(bank, idx + i + 1, k + 1, digits + [v], whole)
  {
    GreedyProgressStep(bank, idx, |bank| - 11 + k, digits, whole, idx + i, |bank| - 11 + (k + 1), v);
  }

  /** Before the first step no digit is taken and all the greedy digits,
      `whole`, are still to come. */
  lemma LoopStart(bank: string) returns (whole: seq<nat>)
    requires ValidLongBank(bank)
    ensures LoopState(bank, 0, 0, [], whole)
    ensures |bank| >= 12 ==> whole == Values(bank, Greedy12(bank))
  {
    whole := [];
    if |bank| >= 12 {
      whole := GreedyDigits(bank, 0, |bank| - 11);
      GreedyDigitsAreValues(bank, 0, |bank| - 11);
      assert [] + whole == whole;
    }
  }

  /** After twelve steps the place-value sum of the reversed digits is the
      greedy number, or 0 for an 11-digit bank. */
  lemma LoopStateDone(bank: string, idx: nat, digits: seq<nat>, whole: seq<nat>)
    requires ValidLongBank(bank)
    requires LoopState(bank, idx, 12, digits, whole)
    requires |bank| >= 12 ==> whole == Values(bank, Greedy12(bank))
    ensures |bank| == 11 ==> PlaceValueSum(Reverse(digits)) == 0
    ensures |bank| >= 12 ==> PlaceValueSum(Reverse(digits)) == MsbValue(Values(bank, Greedy12(bank)))
  {
    PlaceValueOfReverse(digits);
    if |bank| == 11 {
      ZeroDigits(digits);
    } else {
      assert digits == whole;
    }
  }

  /** Loop state of `largest_12_digit_number` after some steps: the
      digits taken so far followed by those the search still takes from
      `idx` on make up `whole`, all the greedy digits. */
  ghost predicate GreedyProgress(bank: string, idx: nat, hi: nat, digits: seq<nat>, whole: seq<nat>)
    requires AllDigits(bank) && |bank| >= 12
  {
    && idx < hi <= |bank| + 1
    && digits + GreedyDigits(bank, idx, hi) == whole
  }

  /** The body of the loop of `largest_12_digit_number` at step `k`: the
      first largest digit of the window that leaves room for `11 - k` more
      digits, as an offset from `idx` and its value. */
  method PickDigit(bank: string, idx: nat, k: nat) returns (i: nat, v: nat)
    requires ValidLongBank(bank) && k < 12 && idx <= |bank| - 11 + k
    requires AllDigits(bank[idx..|bank| - 11 + k])
    ensures idx == |bank| - 11 + k ==> i == 0 && v == 0
    ensures |bank| >= 12 && idx < |bank| - 11 + k ==>
              idx + i == GreedyStep(bank, idx, |bank| - 11 + k) && v == D(bank, idx + i)
  {
    var window := bank[idx..|bank| - (11 - k)];
    var r := LargestDigitPositionValue(window);
    i, v := r.0, r.1;
    if |bank| >= 12 && idx < |bank| - 11 + k {
      GreedyStepIsFirstMax(bank, idx, |bank| - 11 + k);
    }
  }

  /** One more step `k` of the search, which picks offset `i` and digit
      `v`, keeps the loop state. */
  lemma GreedyProgressStep(bank: string, idx: nat, hi: nat, digits: seq<nat>, whole: seq<nat>, p: nat, hi2: nat, v: nat)
    requires AllDigits(bank) && |bank| >= 12 && hi <= |bank| && hi2 == hi + 1
    requires GreedyProgress(bank, idx, hi, digits, whole)
    requires p == GreedyStep(bank, idx, hi) && v == D(bank, p)
    ensures GreedyProgress(bank, p + 1, hi2, digits + [v], whole)
  {
    GreedyValuesStep(bank, idx, hi, p, hi2);
    AppendShift(digits, v, GreedyDigits(bank, p + 1, hi2), whole);
  }

  /** Moving one element from the front of the right part to the back of
      the left part keeps a concatenation. */
  lemma AppendShift(left: seq<nat>, v: nat, right: seq<nat>, whole: seq<nat>)
    requires left + ([v] + right) == whole
    ensures (left + [v]) + right == whole
  {
    assert (left + [v]) + right == left + ([v] + right);
  }

  /** The digits the greedy search picks from window `[idx, hi)` on,
      round by round. */
  function GreedyDigits(bank: string, idx: nat, hi: nat): (ds: seq<nat>)
    requires AllDigits(bank) && idx < hi <= |bank| + 1
    ensures |ds| == |bank| + 1 - hi
    decreases |bank| + 1 - hi
  {
    if hi == |bank| + 1 then []
    else
      var p := GreedyStep(bank, idx, hi);
      [D(bank, p)] + GreedyDigits(bank, p + 1, hi + 1)
  }

  /** The greedy digits are the digits at the greedy picks. */
  lemma {:induction false} GreedyDigitsAreValues(bank: string, idx: nat, hi: nat)
    requires AllDigits(bank) && idx < hi <= |bank| + 1
    ensures GreedyDigits(bank, idx, hi) == Values(bank, GreedyPicks(bank, idx, hi))
    decreases |bank| + 1 - hi
  {
    if hi <= |bank| {
      var p := GreedyStep(bank, idx, hi);
      GreedyDigitsAreValues(bank, p + 1, hi + 1);
      GreedyPicksStep(bank, idx, hi, p, hi + 1);
      ValuesCons(bank, p, GreedyPicks(bank, p + 1, hi + 1));
    }
  }

  /** One step of the greedy search peels the first value off. */
  lemma GreedyValuesStep(bank: string, idx: nat, hi: nat, p: nat, hi2: nat)
    requires AllDigits(bank) && idx < hi <= |bank| && p == GreedyStep(bank, idx, hi) && hi2 == hi + 1
    ensures GreedyDigits(bank, idx, hi) == [D(bank, p)] + GreedyDigits(bank, p + 1, hi2)
  {
  }

  /** One step of the greedy search peels the first pick off. */
  lemma GreedyPicksStep(bank: string, idx: nat, hi: nat, p: nat, hi2: nat)
    requires AllDigits(bank) && idx < hi <= |bank| && p == GreedyStep(bank, idx, hi) && hi2 == hi + 1
    ensures GreedyPicks(bank, idx, hi) == [p] + GreedyPicks(bank, p + 1, hi2)
  {
  }

  lemma {:induction false} ZeroDigits(ds: seq<nat>)
    requires forall j :: 0 <= j < |ds| ==> ds[j] == 0
    ensures MsbValue(ds) == 0
  {
    if |ds| > 0 {
      ZeroDigits(ds[..|ds| - 1]);
    }
  }

  /** Twelve digits make a number below 10^12. */
  lemma {:induction false} MsbValueBound(ds: seq<nat>)
    requires forall j :: 0 <= j < |ds| ==> ds[j] < 10
    ensures MsbValue(ds) < Pow10(|ds|)
  {
    if |ds| > 0 {
      MsbValueBound(ds[..|ds| - 1]);
    }
  }

  /** Reading a digit in front of others. */
  lemma {:induction false} MsbValueCons(a: nat, r: seq<nat>)
    ensures MsbValue([a] + r) == a * Pow10(|r|) + MsbValue(r)
  {
    if |r| > 0 {
      assert ([a] + r)[..|r|] == [a] + r[..|r| - 1];
      MsbValueCons(a, r[..|r| - 1]);
    }
  }

  /** The positions of an increasing sequence spread at least one apart. */
  lemma {:induction false} IncreasingSpread(ps: seq<nat>, j: nat)
    requires Increasing(ps) && j < |ps|
    ensures ps[0] + j <= ps[j]
  {
    if j > 0 {
      IncreasingSpread(ps, j - 1);
    }
  }

  /** The greedy choice is optimal: no increasing positions at or after
      `idx`, as many as there are steps left, give digits that come after
      the greedy picks' digits in dictionary order. */
  lemma {:induction false} GreedyIsOptimal(bank: string, idx: nat, hi: nat, ps: seq<nat>)
    requires AllDigits(bank) && idx < hi <= |bank| + 1
    requires |ps| == |bank| + 1 - hi && Increasing(ps)
    requires forall j :: 0 <= j < |ps| ==> idx <= ps[j] < |bank|
    ensures DigitsLe(Values(bank, ps), Values(bank, GreedyPicks(bank, idx, hi)))
    decreases |bank| + 1 - hi
  {
    if hi <= |bank| {
      var q := GreedyStep(bank, idx, hi);
      var rest := IncreasingTail(ps);
      GreedyStepBeats(bank, idx, hi, ps[0]);
      if D(bank, ps[0]) == D(bank, q) {
        GreedyIsOptimal(bank, q + 1, hi + 1, rest);
      }
      GreedyOptimalStep(bank, idx, hi, q, ps, rest);
    }
  }

  /** The step of `GreedyIsOptimal`: the greedy pick's digit is at least
      the first digit of `ps`, and when they tie the rest of `ps` comes no
      later than the rest of the greedy picks. */
  lemma GreedyOptimalStep(bank: string, idx: nat, hi: nat, q: nat, ps: seq<nat>, rest: seq<nat>)
    requires AllDigits(bank) && idx < hi <= |bank| && q == GreedyStep(bank, idx, hi)
    requires |ps| == |bank| + 1 - hi && ps == [ps[0]] + rest
    requires idx <= ps[0] < |bank| && forall j :: 0 <= j < |rest| ==> rest[j] < |bank|
    requires D(bank, ps[0]) <= D(bank, q)
    requires D(bank, ps[0]) == D(bank, q) ==> DigitsLe(Values(bank, rest), Values(bank, GreedyPicks(bank, q + 1, hi + 1)))
    ensures DigitsLe(Values(bank, ps), Values(bank, GreedyPicks(bank, idx, hi)))
  {
    var grest := GreedyPicks(bank, q + 1, hi + 1);
    GreedyPicksStep(bank, idx, hi, q, hi + 1);
    ValuesCons(bank, ps[0], rest);
    ValuesCons(bank, q, grest);
    DigitsLeCons(D(bank, ps[0]), D(bank, q), Values(bank, rest), Values(bank, grest));
  }

  /** Dictionary order on digit sequences: the first digit decides, and a
      tie defers to the rest. */
  predicate DigitsLe(x: seq<nat>, y: seq<nat>)
  {
    if |x| == 0 || |y| == 0 then true
    else x[0] < y[0] || (x[0] == y[0] && DigitsLe(x[1..], y[1..]))
  }

  /** `DigitsLe` on sequences with known leading digits. */
  lemma DigitsLeCons(a: nat, g: nat, r: seq<nat>, t: seq<nat>)
    requires a <= g && (a == g ==> DigitsLe(r, t))
    ensures DigitsLe([a] + r, [g] + t)
  {
    assert ([a] + r)[1..] == r && ([g] + t)[1..] == t;
  }

  /** For decimals of equal length, dictionary order is numeric order. */
  lemma {:induction false} DigitsLeValue(x: seq<nat>, y: seq<nat>)
    requires |x| == |y| && DigitsLe(x, y)
    requires forall j :: 0 <= j < |x| ==> x[j] < 10
    ensures MsbValue(x) <= MsbValue(y)
  {
    if |x| > 0 {
      var r := x[1..];
      var t := y[1..];
      assert x == [x[0]] + r && y == [y[0]] + t;
      if x[0] < y[0] {
        SmallerLeadingDigit(x[0], y[0], r, t);
      } else {
        DigitsLeValue(r, t);
        SameLeadingDigit(x[0], r, t);
      }
    }
  }

  /** Splitting the first position off an increasing sequence. */
  lemma IncreasingTail(ps: seq<nat>) returns (rest: seq<nat>)
    requires |ps| >= 1 && Increasing(ps)
    ensures ps == [ps[0]] + rest && Increasing(rest)
    ensures forall j :: 0 <= j < |rest| ==> ps[0] < rest[j]
    ensures ps[0] + |ps| - 1 <= ps[|ps| - 1]
  {
    rest := ps[1..];
    IncreasingSpread(ps, |ps| - 1);
    assert ps == [ps[0]] + rest;
    forall i, j | 0 <= i < j < |rest|
      ensures rest[i] < rest[j]
    {
      assert rest[i] == ps[i + 1] && rest[j] == ps[j + 1];
    }
  }

  /** No digit of the window beats the step's pick, and an equal digit
      does not come before it. */
  lemma GreedyStepBeats(bank: string, idx: nat, hi: nat, p: nat)
    requires AllDigits(bank) && idx <= p < hi <= |bank|
    ensures D(bank, p) <= D(bank, GreedyStep(bank, idx, hi))
    ensures D(bank, p) == D(bank, GreedyStep(bank, idx, hi)) ==> GreedyStep(bank, idx, hi) <= p
  {
    GreedyStepIsFirstMax(bank, idx, hi);
  }

  /** Of two digit strings of the same length, the one with the smaller
      leading digit reads smaller. */
  lemma SmallerLeadingDigit(a: nat, g: nat, r: seq<nat>, t: seq<nat>)
    requires a < g && |r| == |t|
    requires forall j :: 0 <= j < |r| ==> r[j] < 10
    ensures MsbValue([a] + r) <= MsbValue([g] + t)
  {
    MsbValueCons(a, r);
    MsbValueCons(g, t);
    MsbValueBound(r);
    var p := Pow10(|r|);
    assert (a + 1) * p <= g * p by {
      Arith.MulMono(a + 1, g, p);
    }
  }

  /** Behind the same leading digit, the larger rest reads larger. */
  lemma SameLeadingDigit(a: nat, r: seq<nat>, t: seq<nat>)
    requires |r| == |t| && MsbValue(r) <= MsbValue(t)
    ensures MsbValue([a] + r) <= MsbValue([a] + t)
  {
    MsbValueCons(a, r);
    MsbValueCons(a, t);
  }

  /** `largest_12_digit_number` picks twelve digits of the bank in their
      order, and no other choice of twelve makes a larger number; the
      result is below 10^12. */
  lemma Largest12IsMaximum(bank: string, ps: seq<nat>)
    requires AllDigits(bank) && |bank| >= 12
    requires |ps| == 12 && Increasing(ps) && forall j :: 0 <= j < 12 ==> ps[j] < |bank|
    ensures Increasing(Greedy12(bank))
    ensures MsbValue(Values(bank, ps)) <= MsbValue(Values(bank, Greedy12(bank))) < Pow10(12)
  {
    var g := Greedy12(bank);
    GreedyIncreasing(bank, 0, |bank| - 11);
    GreedyIsOptimal(bank, 0, |bank| - 11, ps);
    var vg := Values(bank, g);
    DigitsLeValue(Values(bank, ps), vg);
    MsbValueBound(vg);
  }

  /** The result of `largest_12_digit_number` for a bank: 0 for 11
      characters, otherwise the number the greedy picks form. */
  function LongBankValue(bank: string): nat
    requires ValidLongBank(bank)
  {
    if |bank| == 11 then 0 else MsbValue(Values(bank, Greedy12(bank)))
  }

  /** The sum of the per-line results. */
  function TotalJoltage(lines: seq<string>): nat
    requires forall j :: 0 <= j < |lines| ==> ValidLongBank(lines[j])
  {
    if |lines| == 0 then 0
    else
      var line := lines[|lines| - 1];
      TotalJoltage(lines[..|lines| - 1])
        + LongBankValue(line)
  }

  /** `calculate_result`: `largest_12_digit_number` summed over the lines. */
  method CalculateResult(lines: seq<string>) returns (total: nat)
    requires forall j :: 0 <= j < |lines| ==> ValidLongBank(lines[j])
    ensures total == TotalJoltage(lines)
    ensures total <= |lines| * Pow10(12)
  {
    total := 0;
    for j := 0 to |lines|
      invariant total == TotalJoltage(lines[..j])
      invariant total <= j * 1_000_000_000_000
    {
      var res := Largest12DigitNumber(lines[j]);
      TotalJoltageStep(lines, j, res);
      total := total + res;
    }
    assert lines[..|lines|] == lines;
    assert Pow10(12) == 1_000_000_000_000;
  }

  /** One more line adds its result, which has at most twelve digits. */
  lemma TotalJoltageStep(lines: seq<string>, j: nat, res: nat)
    requires forall k :: 0 <= k < |lines| ==> ValidLongBank(lines[k])
    requires j < |lines|
    requires res == LongBankValue(lines[j])
    ensures TotalJoltage(lines[..j + 1]) == TotalJoltage(lines[..j]) + res
    ensures res < Pow10(12) == 1_000_000_000_000
  {
    assert lines[..j + 1][..j] == lines[..j];
    if |lines[j]| >= 12 {
      MsbValueBound(Values(lines[j], Greedy12(lines[j])));
    }
  }
}
