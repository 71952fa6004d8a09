/**
 * Day 1, part 1 (src/bin/day_01_1.rs): a dial showing 0..99 starts at 50
 * and is turned left or right by a number of clicks; the answer counts the
 * instructions after which it shows 0.
 *
 * The dial and the click counts are Rust `u32`s; the only arithmetic that
 * can overflow is the addition at the start of `turn_right`, which panics
 * in a debug build and is therefore a precondition here.
 */
module Day01Part1 {
  import opened Strings

  const MaxDialValue: nat := 99

  datatype TurnDirection = Left | Right

  /** A line `parse_line` accepts: `L` or `R`, then a `u32`. Anything else
      panics. */
  predicate ValidLine(line: string)
  {
    |line| >= 1 && (line[0] == 'L' || line[0] == 'R') && ParseNat(line[1..], U32_MAX).Some?
  }

  /** `parse_line`: the direction letter and the click count after it. */
  function ParseLine(line: string): (r: (TurnDirection, nat))
    requires ValidLine(line)
    ensures r.0 == Left <==> line[0] == 'L'
    ensures r.1 <= U32_MAX
  {
    (if line[0] == 'L' then Left else Right, ParseNat(line[1..], U32_MAX).value)
  }

  /** Parsing undoes writing an instruction out. */
  lemma ParseLineRoundTrip(dir: TurnDirection, clicks: nat)
    requires clicks <= U32_MAX
    ensures ValidLine([if dir == Left then 'L' else 'R'] + Decimal(clicks))
    ensures ParseLine([if dir == Left then 'L' else 'R'] + Decimal(clicks)) == (dir, clicks)
  {
    var line := [if dir == Left then 'L' else 'R'] + Decimal(clicks);
    assert line[1..] == Decimal(clicks);
    ParseDecimal(clicks, U32_MAX);
  }

  /** `turn_left`: the closed-form turn. On a dial in range it is the turn
      modulo 100 and keeps the dial in range; on any dial it never
      underflows. */
  method TurnLeft(dial: nat, clicks: nat) returns (newDial: nat)
    ensures dial <= MaxDialValue ==> newDial == (dial - clicks) % (MaxDialValue + 1)
    ensures dial <= MaxDialValue ==> newDial <= MaxDialValue
  {
    var clicksEffective := clicks % (MaxDialValue + 1);
    if clicksEffective > dial {
      newDial := MaxDialValue - (clicksEffective - dial - 1);
    } else {
      newDial := dial - clicksEffective;
    }
  }

  /** `turn_right`: add the clicks, then take away 100 until the dial is
      back in range; the `u32` addition must not overflow. */
  method TurnRight(dial: nat, clicks: nat) returns (newDial: nat)
    requires dial + clicks <= U32_MAX
    ensures newDial == (dial + clicks) % (MaxDialValue + 1)
  {
    newDial := dial + clicks;
    while newDial > MaxDialValue
      invariant newDial % (MaxDialValue + 1) == (dial + clicks) % (MaxDialValue + 1)
    {
      newDial := newDial - (MaxDialValue + 1);
    }
  }

  /** The signed effect of one instruction on the dial. */
  function Signed(instr: (TurnDirection, nat)): int
  {
    if instr.0 == Left then -(instr.1 as int) else instr.1 as int
  }

  /** The total signed turn of a list of instructions. */
  function NetTurn(instrs: seq<(TurnDirection, nat)>): int
  {
    if |instrs| == 0 then 0 else NetTurn(instrs[..|instrs| - 1]) + Signed(instrs[|instrs| - 1])
  }

  /** Where the dial stands after `instrs`, starting from 50. */
  function DialAfter(instrs: seq<(TurnDirection, nat)>): (d: nat)
    ensures d <= MaxDialValue
  {
    (50 + NetTurn(instrs)) % (MaxDialValue + 1)
  }

  /** The number of non-empty prefixes of `instrs` after which the dial
      reads 0. */
  function ZeroCount(instrs: seq<(TurnDirection, nat)>): (n: nat)
    ensures n <= |instrs|
  {
    if |instrs| == 0 then 0
    else ZeroCount(instrs[..|instrs| - 1]) + (if DialAfter(instrs) == 0 then 1 else 0)
  }

  /** Turning right by `c` never overflows: the dial is at most 99 before
      any turn, so this is exactly the condition `turn_right` needs. */
  predicate NoOverflow(instrs: seq<(TurnDirection, nat)>)
  {
    forall k :: 0 <= k < |instrs| ==>
      && instrs[k].1 <= U32_MAX
      && (instrs[k].0 == Right ==> DialAfter(instrs[..k]) + instrs[k].1 <= U32_MAX)
  }

  /** `lines.map(parse_line)`: the instructions the lines give. */
  function Instructions(lines: seq<string>): (instrs: seq<(TurnDirection, nat)>)
    requires forall k :: 0 <= k < |lines| ==> ValidLine(lines[k])
    ensures |instrs| == |lines|
  {
    seq(|lines|, k requires 0 <= k < |lines| => ParseLine(lines[k]))
  }

  /** `calculate_result`: `lines.map(parse_line)`, then the `for_each`
      over the instructions. */
  method CalculateResult(lines: seq<string>) returns (nZeros: nat)
    requires forall k :: 0 <= k < |lines| ==> ValidLine(lines[k])
    requires NoOverflow(Instructions(lines))
    ensures nZeros == ZeroCount(Instructions(lines))
  {
    var instrs := Instructions(lines);
    nZeros := CountZeros(instrs);
  }

  /** The `for_each` of `calculate_result`: apply every instruction in turn
      and count the zeros. */
  method CountZeros(instrs: seq<(TurnDirection, nat)>) returns (nZeros: nat)
    requires NoOverflow(instrs)
    ensures nZeros == ZeroCount(instrs)
  {
    var dialValue := 50;
    nZeros := 0;
    for k := 0 to |instrs|
      invariant dialValue == DialAfter(instrs[..k])
      invariant nZeros == ZeroCount(instrs[..k])
    {
      var (direction, clicks) := instrs[k];
      DialStep(instrs, k);
      match direction {
        case Left => dialValue := TurnLeft(dialValue, clicks);
        case Right => dialValue := TurnRight(dialValue, clicks);
      }
      if dialValue == 0 {
        nZeros := nZeros + 1;
      }
    }
    assert instrs[..|instrs|] == instrs;
  }

  /** One more instruction moves the dial by its signed click count,
      modulo 100. */
  lemma DialStep(instrs: seq<(TurnDirection, nat)>, k: nat)
    requires k < |instrs|
    ensures instrs[..k + 1][..k] == instrs[..k]
    ensures DialAfter(instrs[..k + 1]) == (DialAfter(instrs[..k]) + Signed(instrs[k])) % (MaxDialValue + 1)
  {
    assert instrs[..k + 1][..k] == instrs[..k];
    var n := NetTurn(instrs[..k]);
    assert NetTurn(instrs[..k + 1]) == n + Signed(instrs[k]);
    ModAddLeft(50 + n, Signed(instrs[k]));
  }

  lemma ModAddLeft(a: int, b: int)
    ensures (a + b) % (MaxDialValue + 1) == (a % (MaxDialValue + 1) + b) % (MaxDialValue + 1)
  {
  }

  /** The net turn of a concatenation is the sum of the net turns: the
      final dial does not depend on how the instructions are grouped. */
  lemma {:induction false} NetTurnAppend(a: seq<(TurnDirection, nat)>, b: seq<(TurnDirection, nat)>)
    ensures NetTurn(a + b) == NetTurn(a) + NetTurn(b)
  {
    if |b| > 0 {
      assert (a + b)[..|a + b| - 1] == a + b[..|b| - 1];
      NetTurnAppend(a, b[..|b| - 1]);
    } else {
      assert a + b == a;
    }
  }

  /** A left and a right turn by the same amount cancel. */
  lemma TurnsCancel(instrs: seq<(TurnDirection, nat)>, clicks: nat)
    ensures DialAfter(instrs + [(Left, clicks), (Right, clicks)]) == DialAfter(instrs)
  {
    var pair: seq<(TurnDirection, nat)> := [(Left, clicks), (Right, clicks)];
    NetTurnAppend(instrs, pair);
    assert pair[..1] == [(Left, clicks)];
    assert NetTurn(pair[..1][..0]) == 0;
    assert NetTurn(pair[..1]) == -(clicks as int);
  }
}
