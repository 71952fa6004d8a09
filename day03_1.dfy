/**
 * Day 3, part 1 (src/bin/day_03_1.rs): each line is a bank of digit
 * batteries; the joltage of a bank is the largest two-digit number formed
 * by two of its digits in their order, and the answer sums the banks.
 */
module Day03Part1 {
  import opened Strings

  /** The digit at position `i`. */
  function D(bank: string, i: nat): nat
    requires i < |bank| && AllDigits(bank)
  {
    DigitValue(bank[i])
  }

  /** `largest_digit_position_value`: a left fold from `(0, 0)` that moves
      to a digit only when it is strictly larger. The result is the largest
      digit and the position of its first occurrence; `(0, 0)` for an empty
      bank. */
  function LargestDigitPositionValue(bank: string): (r: (nat, nat))
    requires AllDigits(bank)
    ensures r.1 < 10
    ensures |bank| == 0 ==> r == (0, 0)
    ensures |bank| > 0 ==> r.0 < |bank| && D(bank, r.0) == r.1
    ensures forall j :: 0 <= j < |bank| ==> D(bank, j) <= r.1
    ensures forall j :: 0 <= j < r.0 ==> D(bank, j) < r.1
  {
    if |bank| == 0 then (0, 0)
    else
      var prefix := bank[..|bank| - 1];
      assert forall j :: 0 <= j < |prefix| ==> D(prefix, j) == D(bank, j);
      var (idx, val) := LargestDigitPositionValue(prefix);
      var n := DigitValue(bank[|bank| - 1]);
      if n > val then (|bank| - 1, n) else (idx, val)
  }

  /** `following_largest_digit`: the largest digit after position `pos`.
      Only the characters after `pos` are read, so only they must be
      digits. */
  function FollowingLargestDigit(bank: string, pos: nat): (v: nat)
    requires pos + 1 <= |bank| && AllDigits(bank[pos + 1..])
    ensures v < 10
    ensures forall j :: pos < j < |bank| ==> IsDigit(bank[j]) && DigitValue(bank[j]) <= v
    ensures pos + 1 < |bank| ==> exists j :: pos < j < |bank| && DigitValue(bank[j]) == v
    ensures pos + 1 == |bank| ==> v == 0
  {
    var suffix := bank[pos + 1..];
    var (_, v) := LargestDigitPositionValue(suffix);
    assert forall j :: pos < j < |bank| ==>
      bank[j] == suffix[j - pos - 1] && DigitValue(bank[j]) == D(suffix, j - pos - 1);
    if |suffix| > 0 then
      var i := LargestDigitPositionValue(suffix).0;
      assert DigitValue(bank[pos + 1 + i]) == D(suffix, i);
      v
    else v
  }

  /** A line `calculate_result` accepts: at least one character (it
      computes `line.len() - 1`), all decimal digits once there are two
      or more. A one-character line is never read: both searches run over
      empty slices. */
  predicate ValidBank(line: string)
  {
    |line| >= 1 && (|line| >= 2 ==> AllDigits(line))
  }

  /** The joltage of one line: the largest digit of all but the last
      character, then the largest digit after its first occurrence. */
  function Joltage(line: string): (res: nat)
    requires ValidBank(line)
    ensures res <= 99
  {
    var prefix := line[..|line| - 1];
    var (i, a) := LargestDigitPositionValue(prefix);
    var b := FollowingLargestDigit(line, i);
    10 * a + b
  }

  /** The greedy choice is optimal: `Joltage` is the largest `10 * d[p] +
      d[q]` over positions `p < q`, and 0 for a one-character line,
      whatever its character. */
  lemma JoltageIsBestPair(line: string)
    requires ValidBank(line)
    ensures forall p, q :: 0 <= p < q < |line| ==> 10 * D(line, p) + D(line, q) <= Joltage(line)
    ensures |line| >= 2 ==> exists p, q :: 0 <= p < q < |line| && 10 * D(line, p) + D(line, q) == Joltage(line)
    ensures |line| == 1 ==> Joltage(line) == 0
  {
    var prefix := line[..|line| - 1];
    var (i, a) := LargestDigitPositionValue(prefix);
    var b := FollowingLargestDigit(line, i);
    assert forall j :: 0 <= j < |prefix| ==> D(prefix, j) == D(line, j);
    forall p, q | 0 <= p < q < |line|
      ensures 10 * D(line, p) + D(line, q) <= 10 * a + b
    {
      assert D(line, p) <= a;
      if D(line, p) == a {
        assert p >= i;
      }
    }
    if |line| >= 2 {
      var q :| i < q < |line| && DigitValue(line[q]) == b;
      assert 10 * D(line, i) + D(line, q) == 10 * a + b;
    }
  }

  /** `calculate_result`: the sum of the lines' joltages. */
  function Total(lines: seq<string>): (t: nat)
    requires forall k :: 0 <= k < |lines| ==> ValidBank(lines[k])
    ensures t <= 99 * |lines|
  {
    if |lines| == 0 then 0 else Total(lines[..|lines| - 1]) + Joltage(lines[|lines| - 1])
  }
}
