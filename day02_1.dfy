/**
 * Day 2, part 1 (src/bin/day_02_1.rs): the input is one line of
 * comma-separated inclusive ranges `a-b`; an ID is invalid when its decimal
 * form is some digit string written twice, and the answer sums the invalid
 * IDs of every range.
 *
 * IDs are Rust `u64`s; `b + 1` must not overflow. The sums are unbounded
 * here.
 */
module Day02Part1 {
  import opened Strings

  /** The decimal form has even length and equal halves. */
  predicate IsDoubled(n: nat)
  {
    var s := Decimal(n);
    |s| % 2 == 0 && s[..|s| / 2] == s[|s| / 2..]
  }

  /** The sum of the doubled numbers in [a, b] (0 for an empty range). */
  function SumDoubled(a: nat, b: nat): nat
    decreases b + 1 - a
  {
    if a > b then 0 else (if IsDoubled(a) then a else 0) + SumDoubled(a + 1, b)
  }

  /** `check_range`: walks the range, adding every doubled number. */
  method CheckRange(range: (nat, nat)) returns (total: nat)
    requires range.1 + 1 <= U64_MAX
    ensures total == SumDoubled(range.0, range.1)
  {
    var (a, b0) := range;
    var b := b0 + 1;
    total := 0;
    var n := a;
    while n < b
      invariant a <= n && (a <= b ==> n <= b)
      invariant total + SumDoubled(n, b0) == SumDoubled(a, b0)
    {
      var nStr := Decimal(n);
      if |nStr| % 2 == 0 {
        var lhs, rhs := nStr[..|nStr| / 2], nStr[|nStr| / 2..];
        if lhs == rhs {
          total := total + n;
        }
      }
      n := n + 1;
    }
  }

  /** A doubled number is a positive `m` times 10^d + 1, where `d` is the
      number of digits of `m`: written out, `m` twice. */
  lemma DoubledIffMultiple(n: nat)
    ensures IsDoubled(n) <==> exists m: nat :: m >= 1 && n == m * (Pow10(|Decimal(m)|) + 1)
  {
    if IsDoubled(n) {
      var m := DoubledHalf(n);
    }
    if m: nat :| m >= 1 && n == m * (Pow10(|Decimal(m)|) + 1) {
      MultipleIsDoubled(m);
    }
  }

  lemma DoubledHalf(n: nat) returns (m: nat)
    requires IsDoubled(n)
    ensures m >= 1 && n == m * (Pow10(|Decimal(m)|) + 1)
  {
    var s := Decimal(n);
    var k := |s| / 2;
    var h := s[..k];
    assert s == h + h by {
      assert s == s[..k] + s[k..];
    }
    assert Canonical(h) by {
      assert h[0] == s[0];
    }
    m := HalfValue(n, h);
  }

  /** The value of the repeated half `h` is the `m` of `DoubledHalf`. */
  lemma HalfValue(n: nat, h: string) returns (m: nat)
    requires Decimal(n) == h + h && Canonical(h)
    ensures m >= 1 && n == m * (Pow10(|Decimal(m)|) + 1)
  {
    DecimalRoundTrip(n);
    DigitsValueAppend(h, h);
    DecimalOfCanonical(h);
    DigitsValueLower(h);
    m := DigitsValue(h);
    Distribute(m, Pow10(|h|));
  }

  lemma MultipleIsDoubled(m: nat)
    requires m >= 1
    ensures IsDoubled(m * (Pow10(|Decimal(m)|) + 1))
  {
    var h := Decimal(m);
    DecimalRoundTrip(m);
    DigitsValueAppend(h, h);
    assert h[0] != '0' by {
      if |h| == 1 {
        assert h == [DigitChar(m)];
        assert DigitValue(h[0]) == m;
      }
    }
    Distribute(m, Pow10(|h|));
    TwiceIsDoubled(h);
    assert DigitsValue(h + h) == m * (Pow10(|Decimal(m)|) + 1);
  }

  /** A decimal without a leading zero, written twice, is doubled. */
  lemma TwiceIsDoubled(h: string)
    requires Canonical(h) && h[0] != '0'
    ensures AllDigits(h + h) && IsDoubled(DigitsValue(h + h))
  {
    var t := h + h;
    assert t[0] == h[0];
    DecimalOfCanonical(t);
    assert t[..|h|] == h && t[|h|..] == h;
  }

  lemma Distribute(m: int, p: int)
    ensures m * (p + 1) == m * p + m
  {
  }

  /** A range whose numbers all have the same odd number of digits holds
      no doubled number. */
  lemma {:induction false} OddLengthRangeSumsToZero(a: nat, b: nat, j: nat)
    requires Pow10(2 * j) <= a && b < Pow10(2 * j + 1)
    ensures SumDoubled(a, b) == 0
    decreases b + 1 - a
  {
    if a <= b {
      DecimalLength(a);
      OddLengthRangeSumsToZero(a + 1, b, j);
      var d := |Decimal(a)|;
      if d < 2 * j + 1 {
        Pow10Mono(d, 2 * j);
      } else if d > 2 * j + 1 {
        Pow10Mono(2 * j + 1, d - 1);
      }
      assert d == 2 * j + 1;
    }
  }

  lemma {:induction false} Pow10Mono(i: nat, j: nat)
    requires i <= j
    ensures Pow10(i) <= Pow10(j)
    decreases j
  {
    if i < j {
      Pow10Mono(i, j - 1);
    }
  }

  /** Cutting a range in two does not change its sum. */
  lemma {:induction false} SumDoubledSplit(a: nat, b: nat, c: nat)
    requires a <= b + 1 <= c + 1
    ensures SumDoubled(a, c) == SumDoubled(a, b) + SumDoubled(b + 1, c)
    decreases b + 1 - a
  {
    if a <= b {
      SumDoubledSplit(a + 1, b, c);
    }
  }

  /** One range `parse` accepts: at least two `-`-separated parts, the
      first two `u64`s (any further parts are ignored). */
  predicate ValidRange(r: string)
  {
    var parts := Split(r, '-');
    |parts| >= 2 && ParseNat(parts[0], U64_MAX).Some? && ParseNat(parts[1], U64_MAX).Some?
  }

  function ParseRange(r: string): (range: (nat, nat))
    requires ValidRange(r)
    ensures range.0 <= U64_MAX && range.1 <= U64_MAX
  {
    var parts := Split(r, '-');
    (ParseNat(parts[0], U64_MAX).value, ParseNat(parts[1], U64_MAX).value)
  }

  /** Writing a range out as `a-b` and parsing it gives it back. */
  lemma ParseRangeRoundTrip(a: nat, b: nat)
    requires a <= U64_MAX && b <= U64_MAX
    ensures ValidRange(Decimal(a) + "-" + Decimal(b))
    ensures ParseRange(Decimal(a) + "-" + Decimal(b)) == (a, b)
  {
    SplitJoin([Decimal(a), Decimal(b)], '-');
    assert Join([Decimal(a), Decimal(b)], '-') == Decimal(a) + "-" + Decimal(b);
    ParseDecimal(a, U64_MAX);
    ParseDecimal(b, U64_MAX);
  }

  /** A first input line every one of whose comma-separated ranges parses
      and has an end below `u64::MAX`. */
  predicate ValidRangeList(line: string)
  {
    var rs := Split(line, ',');
    forall i :: 0 <= i < |rs| ==> ValidRange(rs[i]) && ParseRange(rs[i]).1 + 1 <= U64_MAX
  }

  function ParseRanges(line: string): (ranges: seq<(nat, nat)>)
    requires ValidRangeList(line)
    ensures |ranges| == |Split(line, ',')|
    ensures forall i :: 0 <= i < |ranges| ==> ranges[i].1 + 1 <= U64_MAX
  {
    var rs := Split(line, ',');
    seq(|rs|, i requires 0 <= i < |rs| => ParseRange(rs[i]))
  }

  /** The sum over a list of ranges. */
  function SumOverRanges(ranges: seq<(nat, nat)>): nat
  {
    if |ranges| == 0 then 0
    else SumOverRanges(ranges[..|ranges| - 1]) + SumDoubled(ranges[|ranges| - 1].0, ranges[|ranges| - 1].1)
  }

  lemma SumOverRangesStep(ranges: seq<(nat, nat)>, i: nat)
    requires i < |ranges|
    ensures SumOverRanges(ranges[..i + 1]) == SumOverRanges(ranges[..i]) + SumDoubled(ranges[i].0, ranges[i].1)
  {
    assert ranges[..i + 1][..i] == ranges[..i];
  }

  /** `calculate_result`: parse the first line and add up `check_range` of
      every range. */
  method CalculateResult(lines: seq<string>) returns (result: nat)
    requires |lines| >= 1 && ValidRangeList(lines[0])
    ensures result == SumOverRanges(ParseRanges(lines[0]))
  {
    var ranges := ParseRanges(lines[0]);
    result := 0;
    for i := 0 to |ranges|
      invariant result == SumOverRanges(ranges[..i])
    {
      var t := CheckRange(ranges[i]);
      SumOverRangesStep(ranges, i);
      result := result + t;
    }
    assert ranges[..|ranges|] == ranges;
  }
}
