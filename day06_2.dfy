/**
 * Day 6, part 2 (src/bin/day_06_2.rs): the number lines are now read
 * column by column. Each column of characters, top to bottom, is one
 * number; a column of blanks separates two problems. The operator line and
 * the folding of a problem are those of part 1.
 *
 * `N_PROBLEMS`, `N_NUMBER_LINES` and `N_NUMBER_CHARS` are parameters here;
 * bytes are characters (only ASCII input is modelled).
 */
module Day06Part2 {
  import opened Strings
  import opened Day06Part1

  /** The byte `parse_number_lines` puts at row `i`, column `j`: that of
      line `i`, or the space it starts with past the end of the line or
      below the last line. */
  function CharAt(lines: seq<string>, i: nat, j: nat): char
  {
    if i < |lines| && j < |lines[i]| then lines[i][j] else ' '
  }

  /** `lines_transp`: column `j` of the padded character matrix, read top
      to bottom. */
  function Columns(lines: seq<string>, nNumberLines: nat, nNumberChars: nat): (cols: seq<string>)
    ensures |cols| == nNumberChars
    ensures forall j :: 0 <= j < nNumberChars ==> |cols[j]| == nNumberLines
    ensures forall j, i :: 0 <= j < nNumberChars && 0 <= i < nNumberLines ==> cols[j][i] == CharAt(lines, i, j)
  {
    seq(nNumberChars, j requires 0 <= j < nNumberChars => seq(nNumberLines, i requires 0 <= i < nNumberLines => CharAt(lines, i, j)))
  }

  /** A column that separates two problems. */
  predicate Blank(col: string)
  {
    Trim(col) == ""
  }

  /** A column is blank exactly when every line has whitespace there or
      has ended. */
  lemma BlankColumnIff(lines: seq<string>, nNumberLines: nat, nNumberChars: nat, j: nat)
    requires j < nNumberChars
    ensures Blank(Columns(lines, nNumberLines, nNumberChars)[j]) <==>
              forall i :: 0 <= i < nNumberLines ==> IsWhitespace(CharAt(lines, i, j))
  {
    TrimEmpty(Columns(lines, nNumberLines, nNumberChars)[j]);
  }

  /** The `expect` of `parse_number_lines`: every non-blank column, trimmed,
      is a `u64`. */
  predicate ColumnsParse(cols: seq<string>)
  {
    forall j :: 0 <= j < |cols| && !Blank(cols[j]) ==> ParseNat(Trim(cols[j]), U64_MAX).Some?
  }

  /** The groups `parse_number_lines` builds from the columns: a blank
      column opens a new group, any other column adds its number to the
      last group. */
  function Groups(cols: seq<string>): (groups: seq<seq<nat>>)
    requires ColumnsParse(cols)
    ensures |groups| >= 1
  {
    if |cols| == 0 then [[]]
    else
      var prefix := cols[..|cols| - 1];
      assert forall j :: 0 <= j < |prefix| ==> prefix[j] == cols[j];
      var groups := Groups(prefix);
      var col := cols[|cols| - 1];
      if Blank(col) then groups + [[]]
      else groups[|groups| - 1 := groups[|groups| - 1] + [ParseNat(Trim(col), U64_MAX).value]]
  }

  /** The number of blank columns. */
  function CountBlank(cols: seq<string>): nat
  {
    if |cols| == 0 then 0 else CountBlank(cols[..|cols| - 1]) + (if Blank(cols[|cols| - 1]) then 1 else 0)
  }

  /** The numbers of the non-blank columns, left to right. */
  function ColumnNumbers(cols: seq<string>): seq<nat>
    requires ColumnsParse(cols)
  {
    if |cols| == 0 then []
    else
      var prefix := cols[..|cols| - 1];
      assert forall j :: 0 <= j < |prefix| ==> prefix[j] == cols[j];
      var col := cols[|cols| - 1];
      ColumnNumbers(prefix) + (if Blank(col) then [] else [ParseNat(Trim(col), U64_MAX).value])
  }

  function Flatten(groups: seq<seq<nat>>): seq<nat>
  {
    if |groups| == 0 then [] else Flatten(groups[..|groups| - 1]) + groups[|groups| - 1]
  }

  /** There is one group more than there are blank columns. */
  lemma {:induction false} GroupsCount(cols: seq<string>)
    requires ColumnsParse(cols)
    ensures |Groups(cols)| == CountBlank(cols) + 1
  {
    if |cols| > 0 {
      var prefix := cols[..|cols| - 1];
      assert forall j :: 0 <= j < |prefix| ==> prefix[j] == cols[j];
      GroupsCount(prefix);
    }
  }

  /** The groups, read one after the other, are the numbers of the columns
      in their left-to-right order: nothing is lost, repeated or moved. */
  lemma {:induction false} GroupsFlatten(cols: seq<string>)
    requires ColumnsParse(cols)
    ensures Flatten(Groups(cols)) == ColumnNumbers(cols)
  {
    if |cols| > 0 {
      var prefix := cols[..|cols| - 1];
      assert forall j :: 0 <= j < |prefix| ==> prefix[j] == cols[j];
      GroupsFlatten(prefix);
      var groups := Groups(prefix);
      var col := cols[|cols| - 1];
      var n := |groups| - 1;
      if Blank(col) {
        assert (groups + [[]])[..n + 1] == groups;
      } else {
        FlattenExtendLast(groups, ParseNat(Trim(col), U64_MAX).value);
      }
    }
  }

  /** Adding a number to the last group adds it to the end of the flattened
      groups. */
  lemma FlattenExtendLast(groups: seq<seq<nat>>, x: nat)
    requires |groups| >= 1
    ensures Flatten(groups[|groups| - 1 := groups[|groups| - 1] + [x]]) == Flatten(groups) + [x]
  {
    var n := |groups| - 1;
    var next := groups[n := groups[n] + [x]];
    assert next[..n] == groups[..n];
    assert Flatten(groups) == Flatten(groups[..n]) + groups[n];
  }

  /** The first phase of `parse_number_lines`: a matrix of spaces, with
      byte `j` of line `i` copied to row `i`, column `j`. */
  method FillChars(lines: seq<string>, nNumberLines: nat, nNumberChars: nat) returns (chars: array2<char>)
    requires |lines| <= nNumberLines
    requires forall i :: 0 <= i < |lines| ==> |lines[i]| <= nNumberChars
    ensures fresh(chars) && chars.Length0 == nNumberLines && chars.Length1 == nNumberChars
    ensures forall a, b :: 0 <= a < nNumberLines && 0 <= b < nNumberChars ==> chars[a, b] == CharAt(lines, a, b)
  {
    chars := new char[nNumberLines, nNumberChars]((i, j) => ' ');
    for i := 0 to |lines|
      invariant forall a, b :: 0 <= a < nNumberLines && 0 <= b < nNumberChars ==>
                  chars[a, b] == (if a < i then CharAt(lines, a, b) else ' ')
    {
      for j := 0 to |lines[i]|
        invariant forall a, b :: 0 <= a < nNumberLines && 0 <= b < nNumberChars ==>
                    chars[a, b] == (if a < i || (a == i && b < j) then CharAt(lines, a, b) else ' ')
      {
        chars[i, j] := lines[i][j];
      }
    }
  }

  /** The second phase: the matrix read column by column. */
  method Transpose(chars: array2<char>) returns (linesTransp: seq<string>)
    ensures |linesTransp| == chars.Length1
    ensures forall j :: 0 <= j < chars.Length1 ==> |linesTransp[j]| == chars.Length0
    ensures forall j, i :: 0 <= j < chars.Length1 && 0 <= i < chars.Length0 ==> linesTransp[j][i] == chars[i, j]
  {
    linesTransp := [];
    for j := 0 to chars.Length1
      invariant |linesTransp| == j
      invariant forall k :: 0 <= k < j ==> |linesTransp[k]| == chars.Length0
      invariant forall k, i :: 0 <= k < j && 0 <= i < chars.Length0 ==> linesTransp[k][i] == chars[i, k]
    {
      var bytes: string := [];
      for i := 0 to chars.Length0
        invariant |bytes| == i && forall a :: 0 <= a < i ==> bytes[a] == chars[a, j]
      {
        bytes := bytes + [chars[i, j]];
      }
      linesTransp := linesTransp + [bytes];
    }
  }

  /** The last phase: start with one empty group; a blank column pushes a
      new group, any other column pushes its number onto the last group. */
  method GroupColumns(linesTransp: seq<string>) returns (problemNumbers: seq<seq<nat>>)
    requires ColumnsParse(linesTransp)
    ensures problemNumbers == Groups(linesTransp)
  {
    problemNumbers := [[]];
    for j := 0 to |linesTransp|
      invariant problemNumbers == Groups(linesTransp[..j])
    {
      assert linesTransp[..j + 1][..j] == linesTransp[..j];
      var line := linesTransp[j];
      if |Trim(line)| == 0 {
        problemNumbers := problemNumbers + [[]];
      } else {
        var idx := |problemNumbers| - 1;
        problemNumbers := problemNumbers[idx := problemNumbers[idx] + [ParseNat(Trim(line), U64_MAX).value]];
      }
    }
    assert linesTransp[..|linesTransp|] == linesTransp;
  }

  /** `parse_number_lines`: the groups of the columns of the lines padded
      with spaces. */
  method ParseNumberLines(lines: seq<string>, nNumberLines: nat, nNumberChars: nat) returns (problemNumbers: seq<seq<nat>>)
    requires |lines| <= nNumberLines
    requires forall i :: 0 <= i < |lines| ==> |lines[i]| <= nNumberChars
    requires ColumnsParse(Columns(lines, nNumberLines, nNumberChars))
    ensures problemNumbers == Groups(Columns(lines, nNumberLines, nNumberChars))
  {
    var chars := FillChars(lines, nNumberLines, nNumberChars);
    var linesTransp := Transpose(chars);
    ghost var cols := Columns(lines, nNumberLines, nNumberChars);
    assert forall j :: 0 <= j < nNumberChars ==> linesTransp[j] == cols[j];
    assert linesTransp == cols;
    problemNumbers := GroupColumns(linesTransp);
  }

  /** The sum over the first `n` groups of their operator's fold. */
  function GroupsTotal(groups: seq<seq<nat>>, ops: seq<Operation>, n: nat): nat
    requires n <= |groups| && n <= |ops|
  {
    if n == 0 then 0 else GroupsTotal(groups, ops, n - 1) + Apply(ops[n - 1], groups[n - 1])
  }

  /** `calculate_result` does not panic: the number lines fit the matrix
      and their columns parse, the operator line is there and parses, and
      there are at least `nProblems` groups. */
  predicate ValidInput(lines: seq<string>, nProblems: nat, nNumberLines: nat, nNumberChars: nat)
  {
    && |lines| > nNumberLines
    && (forall i :: 0 <= i < nNumberLines ==> |lines[i]| <= nNumberChars)
    && ColumnsParse(Columns(lines[..nNumberLines], nNumberLines, nNumberChars))
    && |Groups(Columns(lines[..nNumberLines], nNumberLines, nNumberChars))| >= nProblems
    && OperationLineParses(lines[nNumberLines], nProblems)
  }

  /** `calculate_result`: problem `i` folds its operator over group `i`;
      the answer is the sum of the first `nProblems` problems. */
  method CalculateResult(lines: seq<string>, nProblems: nat, nNumberLines: nat, nNumberChars: nat) returns (total: nat)
    requires ValidInput(lines, nProblems, nNumberLines, nNumberChars)
    ensures total == GroupsTotal(Groups(Columns(lines[..nNumberLines], nNumberLines, nNumberChars)),
                                 ParseOperationLine(lines[nNumberLines], nProblems), nProblems)
  {
    var numberLines := lines[..nNumberLines];
    var numbers := ParseNumberLines(numberLines, nNumberLines, nNumberChars);
    var operationLine := ParseOperationLine(lines[nNumberLines], nProblems);
    total := GroupsTotal(numbers, operationLine, nProblems);
  }
}
