/**
 * Day 6, part 1 (src/bin/day_06_1.rs): the input is `N_NUMBER_LINES` lines
 * of `N_PROBLEMS` numbers each, then one line of `N_PROBLEMS` operators
 * (`+` or `*`); problem `i` adds or multiplies column `i`, and the answer
 * sums the problems.
 *
 * The two constants are parameters here. The operator parser and the
 * folding of a problem's numbers are shared with part 2.
 */
module Day06Part1 {
  import opened Wrappers
  import opened Strings

  datatype Operation = Add | Multiply

  /* Parsing. */

  /** `parse_number_line` does not panic: exactly `nProblems` tokens, each
      a `u64`. */
  predicate NumberLineParses(line: string, nProblems: nat)
  {
    var tokens := SplitWhitespace(line);
    |tokens| == nProblems && forall k :: 0 <= k < |tokens| ==> ParseNat(tokens[k], U64_MAX).Some?
  }

  /** `parse_number_line`: the whitespace-separated numbers of the line. */
  function ParseNumberLine(line: string, nProblems: nat): (numbers: seq<nat>)
    requires NumberLineParses(line, nProblems)
    ensures |numbers| == nProblems
    ensures forall k :: 0 <= k < |numbers| ==> numbers[k] <= U64_MAX
  {
    var tokens := SplitWhitespace(line);
    seq(|tokens|, k requires 0 <= k < |tokens| => ParseNat(tokens[k], U64_MAX).value)
  }

  /** The numbers written out in decimal, one space apart. */
  function NumberLine(numbers: seq<nat>): string
  {
    Unwords(seq(|numbers|, k requires 0 <= k < |numbers| => Decimal(numbers[k])))
  }

  /** Parsing a written-out line of `u64`s gives the numbers back. */
  lemma ParseNumberLineRoundTrip(numbers: seq<nat>)
    requires forall k :: 0 <= k < |numbers| ==> numbers[k] <= U64_MAX
    ensures NumberLineParses(NumberLine(numbers), |numbers|)
    ensures ParseNumberLine(NumberLine(numbers), |numbers|) == numbers
  {
    var tokens := seq(|numbers|, k requires 0 <= k < |numbers| => Decimal(numbers[k]));
    forall k | 0 <= k < |numbers|
      ensures IsToken(tokens[k]) && ParseNat(tokens[k], U64_MAX) == Some(numbers[k])
    {
      DecimalIsToken(numbers[k]);
      ParseDecimal(numbers[k], U64_MAX);
    }
    SplitWhitespaceUnwords(tokens);
  }

  /** The operator a token names, if any. */
  function OperationOf(token: string): (op: Option<Operation>)
    ensures op == Some(Add) <==> token == "+"
    ensures op == Some(Multiply) <==> token == "*"
  {
    if token == "+" then Some(Add) else if token == "*" then Some(Multiply) else None
  }

  /** `parse_operation_line` does not panic: exactly `nProblems` tokens,
      each `+` or `*`. */
  predicate OperationLineParses(line: string, nProblems: nat)
  {
    var tokens := SplitWhitespace(line);
    |tokens| == nProblems && forall k :: 0 <= k < |tokens| ==> OperationOf(tokens[k]).Some?
  }

  /** `parse_operation_line`: `+` is `Add`, `*` is `Multiply`. */
  function ParseOperationLine(line: string, nProblems: nat): (ops: seq<Operation>)
    requires OperationLineParses(line, nProblems)
    ensures |ops| == nProblems
  {
    var tokens := SplitWhitespace(line);
    seq(|tokens|, k requires 0 <= k < |tokens| => OperationOf(tokens[k]).value)
  }

  function Symbol(op: Operation): string
  {
    match op
    case Add => "+"
    case Multiply => "*"
  }

  /** Parsing a written-out operator line gives the operators back. */
  lemma ParseOperationLineRoundTrip(ops: seq<Operation>)
    ensures OperationLineParses(Unwords(seq(|ops|, k requires 0 <= k < |ops| => Symbol(ops[k]))), |ops|)
    ensures ParseOperationLine(Unwords(seq(|ops|, k requires 0 <= k < |ops| => Symbol(ops[k]))), |ops|) == ops
  {
    var tokens := seq(|ops|, k requires 0 <= k < |ops| => Symbol(ops[k]));
    forall k | 0 <= k < |ops|
      ensures IsToken(tokens[k]) && OperationOf(tokens[k]) == Some(ops[k])
    {
    }
    SplitWhitespaceUnwords(tokens);
  }

  /* Arithmetic. */

  /** `iter.sum()`. */
  function Sum(xs: seq<nat>): nat
  {
    if |xs| == 0 then 0 else Sum(xs[..|xs| - 1]) + xs[|xs| - 1]
  }

  /** `iter.product()`. */
  function Product(xs: seq<nat>): nat
  {
    if |xs| == 0 then 1 else Product(xs[..|xs| - 1]) * xs[|xs| - 1]
  }

  /** A problem's value: its operator folded over its numbers. */
  function Apply(op: Operation, xs: seq<nat>): nat
  {
    match op
    case Add => Sum(xs)
    case Multiply => Product(xs)
  }

  /** A product is zero exactly when one of its factors is. */
  lemma {:induction false} ProductZero(xs: seq<nat>)
    ensures Product(xs) == 0 <==> 0 in xs
  {
    if |xs| > 0 {
      var prefix := xs[..|xs| - 1];
      ProductZero(prefix);
      assert xs == prefix + [xs[|xs| - 1]];
    }
  }

  /** Every row has at least `n` numbers. */
  predicate Rectangular(rows: seq<seq<nat>>, n: nat)
  {
    forall l :: 0 <= l < |rows| ==> |rows[l]| >= n
  }

  /** Column `i` of the number lines, top to bottom. */
  function Column(rows: seq<seq<nat>>, i: nat): (col: seq<nat>)
    requires Rectangular(rows, i + 1)
    ensures |col| == |rows| && forall l :: 0 <= l < |rows| ==> col[l] == rows[l][i]
  {
    seq(|rows|, l requires 0 <= l < |rows| => rows[l][i])
  }

  /** The sum over the first `n` problems. */
  function ProblemsTotal(rows: seq<seq<nat>>, ops: seq<Operation>, n: nat): nat
    requires Rectangular(rows, n) && n <= |ops|
  {
    if n == 0 then 0 else ProblemsTotal(rows, ops, n - 1) + Apply(ops[n - 1], Column(rows, n - 1))
  }

  /** The sum of the first `n` numbers of every row. */
  function SumRows(rows: seq<seq<nat>>, n: nat): nat
    requires Rectangular(rows, n)
  {
    if |rows| == 0 then 0 else SumRows(rows[..|rows| - 1], n) + Sum(rows[|rows| - 1][..n])
  }

  lemma {:induction false} SumRowsStep(rows: seq<seq<nat>>, n: nat)
    requires Rectangular(rows, n + 1)
    ensures SumRows(rows, n + 1) == SumRows(rows, n) + Sum(Column(rows, n))
  {
    if |rows| > 0 {
      var prefix := rows[..|rows| - 1];
      var last := rows[|rows| - 1];
      SumRowsStep(prefix, n);
      assert last[..n + 1][..n] == last[..n];
      assert Column(rows, n)[..|rows| - 1] == Column(prefix, n);
    }
  }

  /** When every operator is `+`, the answer is the sum of all the
      numbers, row by row. */
  lemma {:induction false} AllAddIsGrandSum(rows: seq<seq<nat>>, ops: seq<Operation>, n: nat)
    requires Rectangular(rows, n) && n <= |ops|
    requires forall i :: 0 <= i < n ==> ops[i] == Add
    ensures ProblemsTotal(rows, ops, n) == SumRows(rows, n)
  {
    if n == 0 {
      SumRowsZero(rows);
    } else {
      AllAddIsGrandSum(rows, ops, n - 1);
      SumRowsStep(rows, n - 1);
    }
  }

  lemma {:induction false} SumRowsZero(rows: seq<seq<nat>>)
    ensures SumRows(rows, 0) == 0
  {
    if |rows| > 0 {
      SumRowsZero(rows[..|rows| - 1]);
    }
  }

  /* The whole computation. */

  /** `calculate_result` does not panic: `nNumberLines` number lines, then
      an operator line. */
  predicate ValidInput(lines: seq<string>, nProblems: nat, nNumberLines: nat)
  {
    && |lines| > nNumberLines
    && (forall l :: 0 <= l < nNumberLines ==> NumberLineParses(lines[l], nProblems))
    && OperationLineParses(lines[nNumberLines], nProblems)
  }

  function NumberRows(lines: seq<string>, nProblems: nat, nNumberLines: nat): (rows: seq<seq<nat>>)
    requires ValidInput(lines, nProblems, nNumberLines)
    ensures |rows| == nNumberLines && Rectangular(rows, nProblems)
  {
    seq(nNumberLines, l requires 0 <= l < nNumberLines => ParseNumberLine(lines[l], nProblems))
  }

  /** `calculate_result`: problem `i` folds its operator over column `i`;
      the answer is the sum of the problems, which is the sum of every
      number when every operator is `+`. */
  function CalculateResult(lines: seq<string>, nProblems: nat, nNumberLines: nat): (total: nat)
    requires ValidInput(lines, nProblems, nNumberLines)
    ensures (forall i :: 0 <= i < nProblems ==> ParseOperationLine(lines[nNumberLines], nProblems)[i] == Add) ==>
              total == SumRows(NumberRows(lines, nProblems, nNumberLines), nProblems)
  {
    var rows := NumberRows(lines, nProblems, nNumberLines);
    var ops := ParseOperationLine(lines[nNumberLines], nProblems);
    if forall i :: 0 <= i < nProblems ==> ops[i] == Add then
      AllAddIsGrandSum(rows, ops, nProblems);
      ProblemsTotal(rows, ops, nProblems)
    else
      ProblemsTotal(rows, ops, nProblems)
  }

  /** Written out as the puzzle input, the number lines and operators give
      back the total over their columns. */
  lemma CalculateResultOfWrittenInput(rows: seq<seq<nat>>, ops: seq<Operation>)
    requires Rectangular(rows, |ops|) && forall l :: 0 <= l < |rows| ==> |rows[l]| == |ops|
    requires forall l, i :: 0 <= l < |rows| && 0 <= i < |ops| ==> rows[l][i] <= U64_MAX
    ensures var lines := seq(|rows|, l requires 0 <= l < |rows| => NumberLine(rows[l]))
                         + [Unwords(seq(|ops|, k requires 0 <= k < |ops| => Symbol(ops[k])))];
            ValidInput(lines, |ops|, |rows|) && CalculateResult(lines, |ops|, |rows|) == ProblemsTotal(rows, ops, |ops|)
  {
    var lines := seq(|rows|, l requires 0 <= l < |rows| => NumberLine(rows[l]))
                 + [Unwords(seq(|ops|, k requires 0 <= k < |ops| => Symbol(ops[k])))];
    forall l | 0 <= l < |rows|
      ensures NumberLineParses(lines[l], |ops|) && ParseNumberLine(lines[l], |ops|) == rows[l]
    {
      ParseNumberLineRoundTrip(rows[l]);
    }
    ParseOperationLineRoundTrip(ops);
    assert NumberRows(lines, |ops|, |rows|) == rows;
  }
}
