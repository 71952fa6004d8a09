/**
 * Day 1, part 2 (src/bin/day_01_2.rs): the same dial, now turned one click
 * at a time, counting every click that lands on 0 (including those in the
 * middle of a turn).
 *
 * Dial and click counts are Rust `i32`s. A negative click count is
 * accepted by the parser and makes an empty `0..clicks` range, so it turns
 * nothing.
 */
module Day01Part2 {
  import opened Strings

  const MaxDialValue: int := 99

  datatype TurnDirection = Left | Right

  /** A line `parse_line` accepts: `L` or `R`, then an `i32`. Anything else
      panics. */
  predicate ValidLine(line: string)
  {
    |line| >= 1 && (line[0] == 'L' || line[0] == 'R') && ParseInt(line[1..], I32_MIN, I32_MAX).Some?
  }

  /** `parse_line`: the direction letter and the (signed) click count. */
  function ParseLine(line: string): (r: (TurnDirection, int))
    requires ValidLine(line)
    ensures r.0 == Left <==> line[0] == 'L'
    ensures I32_MIN <= r.1 <= I32_MAX
  {
    (if line[0] == 'L' then Left else Right, ParseInt(line[1..], I32_MIN, I32_MAX).value)
  }

  /** Parsing undoes writing an instruction out, negative counts included. */
  lemma ParseLineRoundTrip(dir: TurnDirection, clicks: int)
    requires I32_MIN <= clicks <= I32_MAX
    ensures var text := if clicks < 0 then "-" + Decimal(-clicks) else Decimal(clicks);
            var line := [if dir == Left then 'L' else 'R'] + text;
            ValidLine(line) && ParseLine(line) == (dir, clicks)
  {
    var text := if clicks < 0 then "-" + Decimal(-clicks) else Decimal(clicks);
    var line := [if dir == Left then 'L' else 'R'] + text;
    assert line[1..] == text;
    if clicks < 0 {
      ParseSignedDecimal(-clicks, true, I32_MIN, I32_MAX);
    } else {
      ParseSignedDecimal(clicks, false, I32_MIN, I32_MAX);
    }
  }

  /** Where click `t` of a turn from `dial` would land on an endless dial. */
  function Offset(dial: int, direction: TurnDirection, t: int): int
  {
    if direction == Left then dial - t else dial + t
  }

  /** How many of clicks 1..clicks of a turn from `dial` land on 0. */
  function ZeroHits(dial: int, direction: TurnDirection, clicks: int): nat
    decreases clicks
  {
    if clicks <= 0 then 0
    else ZeroHits(dial, direction, clicks - 1) + (if Offset(dial, direction, clicks) % (MaxDialValue + 1) == 0 then 1 else 0)
  }

  /** `turn`: one click at a time, wrapping between 0 and 99 and counting
      each click that lands on 0. A turn ends where the arithmetic turn
      modulo 100 ends, and a non-positive click count changes nothing. */
  method Turn(dial: int, direction: TurnDirection, clicks: int, zeroCounter: nat)
    returns (newDial: int, newCounter: nat)
    requires 0 <= dial <= MaxDialValue
    ensures 0 <= newDial <= MaxDialValue
    ensures newDial == Offset(dial, direction, if clicks < 0 then 0 else clicks) % (MaxDialValue + 1)
    ensures newCounter == zeroCounter + ZeroHits(dial, direction, clicks)
    ensures clicks <= 0 ==> newDial == dial && newCounter == zeroCounter
  {
    newDial, newCounter := dial, zeroCounter;
    var n := if clicks < 0 then 0 else clicks;
    for k := 0 to n
      invariant 0 <= newDial <= MaxDialValue
      invariant newDial == Offset(dial, direction, k) % (MaxDialValue + 1)
      invariant newCounter == zeroCounter + ZeroHits(dial, direction, k)
    {
      ClickStep(dial, direction, k, newDial);
      match direction {
        case Left =>
          if newDial == 0 {
            newDial := MaxDialValue;
          } else {
            newDial := newDial - 1;
            if newDial == 0 {
              newCounter := newCounter + 1;
            }
          }
        case Right =>
          if newDial == MaxDialValue {
            newDial := 0;
            newCounter := newCounter + 1;
          } else {
            newDial := newDial + 1;
          }
      }
    }
  }

  /** One click, wrapping between 0 and 99, moves the dial to the next
      offset modulo 100. */
  lemma ClickStep(dial: int, direction: TurnDirection, k: nat, cur: int)
    requires cur == Offset(dial, direction, k) % (MaxDialValue + 1)
    ensures direction == Left ==>
              (if cur == 0 then MaxDialValue else cur - 1) == Offset(dial, direction, k + 1) % (MaxDialValue + 1)
    ensures direction == Right ==>
              (if cur == MaxDialValue then 0 else cur + 1) == Offset(dial, direction, k + 1) % (MaxDialValue + 1)
  {
    assert MaxDialValue + 1 == 100;
    var x := Offset(dial, direction, k);
    var q := x / 100;
    assert x == 100 * q + cur;
    if direction == Left {
      assert Offset(dial, direction, k + 1) == x - 1;
      if cur == 0 {
        assert x - 1 == 100 * (q - 1) + 99;
        DivModUnique(q - 1, 99);
      } else {
        assert x - 1 == 100 * q + (cur - 1);
        DivModUnique(q, cur - 1);
      }
    } else {
      assert Offset(dial, direction, k + 1) == x + 1;
      if cur == 99 {
        assert x + 1 == 100 * (q + 1) + 0;
        DivModUnique(q + 1, 0);
      } else {
        assert x + 1 == 100 * q + (cur + 1);
        DivModUnique(q, cur + 1);
      }
    }
  }

  /** Turning right from `dial` passes 0 once per completed hundred. */
  lemma {:induction false} ZeroHitsRight(dial: int, clicks: nat)
    requires 0 <= dial <= MaxDialValue
    ensures ZeroHits(dial, Right, clicks) == (dial + clicks) / (MaxDialValue + 1)
  {
    if clicks > 0 {
      ZeroHitsRight(dial, clicks - 1);
      DivStep(dial + clicks);
    }
  }

  /** Turning left from `dial` first reaches 0 after `dial` clicks (after
      100 if it starts at 0), then once per further hundred. */
  lemma {:induction false} ZeroHitsLeft(dial: int, clicks: nat)
    requires 0 <= dial <= MaxDialValue
    ensures ZeroHits(dial, Left, clicks) == (clicks + (MaxDialValue + 1 - dial) % (MaxDialValue + 1)) / (MaxDialValue + 1)
  {
    if clicks > 0 {
      ZeroHitsLeft(dial, clicks - 1);
      DivStep(clicks + (MaxDialValue + 1 - dial) % (MaxDialValue + 1));
      LeftClickHitsZero(dial, clicks);
    }
  }

  /** Click number `clicks` to the left lands on 0 exactly when `clicks`
      plus the distance from `dial` down to 0 is a multiple of 100. */
  lemma LeftClickHitsZero(dial: int, clicks: nat)
    requires 0 <= dial <= MaxDialValue
    ensures Offset(dial, Left, clicks) % (MaxDialValue + 1) == 0 <==>
            (clicks + (MaxDialValue + 1 - dial) % (MaxDialValue + 1)) % (MaxDialValue + 1) == 0
  {
    var e := (MaxDialValue + 1 - dial) % (MaxDialValue + 1);
    assert clicks + e == (clicks - dial) + (if dial == 0 then 0 else MaxDialValue + 1);
    MultipleShift(clicks - dial, if dial == 0 then 0 else 1);
    MultipleNeg(dial - clicks);
  }

  lemma MultipleShift(a: int, k: int)
    ensures (a + (MaxDialValue + 1) * k) % (MaxDialValue + 1) == 0 <==> a % (MaxDialValue + 1) == 0
  {
    assert MaxDialValue + 1 == 100;
    var q := a / 100;
    assert a + 100 * k == 100 * (q + k) + a % 100;
    DivModUnique(q + k, a % 100);
  }

  lemma MultipleNeg(a: int)
    ensures a % (MaxDialValue + 1) == 0 <==> (-a) % (MaxDialValue + 1) == 0
  {
    assert MaxDialValue + 1 == 100;
    NegMultiple(a);
  }

  lemma NegMultiple(a: int)
    ensures a % 100 == 0 <==> (-a) % 100 == 0
  {
    var q := a / 100;
    var r := a % 100;
    if r == 0 {
      assert -a == 100 * (-q) + 0;
      DivModUnique(-q, 0);
    } else {
      assert -a == 100 * (-q - 1) + (100 - r);
      DivModUnique(-q - 1, 100 - r);
    }
  }

  /** `100 * t + s` with `0 <= s < 100` leaves remainder `s`. */
  lemma DivModUnique(t: int, s: int)
    requires 0 <= s < 100
    ensures (100 * t + s) % 100 == s
  {
  }

  /** Going from `m - 1` to `m` raises `m / 100` exactly when `m` is a
      multiple of 100. */
  lemma DivStep(m: int)
    ensures m / (MaxDialValue + 1) == (m - 1) / (MaxDialValue + 1) + (if m % (MaxDialValue + 1) == 0 then 1 else 0)
  {
  }

  /** The instruction's clicks, or 0 for a negative count. */
  function Clicks(instr: (TurnDirection, int)): nat
  {
    if instr.1 < 0 then 0 else instr.1
  }

  /** Where the dial stands after `instrs`, starting from 50. */
  function DialAfter(instrs: seq<(TurnDirection, int)>): (d: int)
    ensures 0 <= d <= MaxDialValue
  {
    if |instrs| == 0 then 50
    else
      var last := instrs[|instrs| - 1];
      Offset(DialAfter(instrs[..|instrs| - 1]), last.0, Clicks(last)) % (MaxDialValue + 1)
  }

  /** All clicks of all instructions that land on 0. */
  function TotalZeroHits(instrs: seq<(TurnDirection, int)>): nat
  {
    if |instrs| == 0 then 0
    else
      var last := instrs[|instrs| - 1];
      TotalZeroHits(instrs[..|instrs| - 1]) + ZeroHits(DialAfter(instrs[..|instrs| - 1]), last.0, last.1)
  }

  /** `lines.map(parse_line)`: the instructions the lines give. This file's
      own `parse_line` reads the clicks as an `i32`, not part 1's `u32`, so
      part 1's `Instructions` is not reused. */
  function Instructions(lines: seq<string>): (instrs: seq<(TurnDirection, int)>)
    requires forall k :: 0 <= k < |lines| ==> ValidLine(lines[k])
    ensures |instrs| == |lines|
  {
    seq(|lines|, k requires 0 <= k < |lines| => ParseLine(lines[k]))
  }

  /** `calculate_result`: `lines.map(parse_line)`, then the `for_each`
      over the instructions. */
  method CalculateResult(lines: seq<string>) returns (nZeros: nat)
    requires forall k :: 0 <= k < |lines| ==> ValidLine(lines[k])
    ensures nZeros == TotalZeroHits(Instructions(lines))
  {
    var instrs := Instructions(lines);
    nZeros := CountZeroHits(instrs);
  }

  /** The `for_each` of `calculate_result`: turn the dial through every
      instruction from 50 and report the accumulated zero count. */
  method CountZeroHits(instrs: seq<(TurnDirection, int)>) returns (nZeros: nat)
    ensures nZeros == TotalZeroHits(instrs)
  {
    var dialValue := 50;
    nZeros := 0;
    for k := 0 to |instrs|
      invariant dialValue == DialAfter(instrs[..k])
      invariant nZeros == TotalZeroHits(instrs[..k])
    {
      assert instrs[..k + 1][..k] == instrs[..k];
      dialValue, nZeros := Turn(dialValue, instrs[k].0, instrs[k].1, nZeros);
    }
    assert instrs[..|instrs|] == instrs;
  }
}
