/**
 * The parts of Rust's standard string library that the solvers lean on:
 * `str::split` on a character, `split_ascii_whitespace`, `trim`,
 * `format!("{n}")` for an unsigned number and `str::parse` for unsigned
 * and signed integers. Strings are `seq<char>`. `split_ascii_whitespace`
 * splits at ASCII whitespace only, while `trim` strips every Unicode
 * White_Space character, as in Rust.
 */
module Strings {
  import opened Wrappers

  const U32_MAX: nat := 0xFFFF_FFFF
  const U64_MAX: nat := 0xFFFF_FFFF_FFFF_FFFF
  const I32_MIN: int := -0x8000_0000
  const I32_MAX: int := 0x7FFF_FFFF
  const I64_MIN: int := -0x8000_0000_0000_0000
  const I64_MAX: int := 0x7FFF_FFFF_FFFF_FFFF

  predicate IsDigit(c: char) { '0' <= c <= '9' }

  predicate AllDigits(s: string) { forall i :: 0 <= i < |s| ==> IsDigit(s[i]) }

  function DigitValue(c: char): (d: nat)
    requires IsDigit(c)
    ensures d < 10
  {
    c as int - '0' as int
  }

  function DigitChar(d: nat): (c: char)
    requires d < 10
    ensures IsDigit(c) && DigitValue(c) == d
  {
    (d + '0' as int) as char
  }

  /** The number a string of decimal digits denotes, most significant digit first. */
  function DigitsValue(s: string): nat
    requires AllDigits(s)
  {
    if |s| == 0 then 0 else DigitsValue(s[..|s| - 1]) * 10 + DigitValue(s[|s| - 1])
  }

  /** `format!("{n}")`: the shortest decimal representation of `n`. */
  function Decimal(n: nat): (s: string)
    ensures |s| >= 1 && AllDigits(s)
    ensures |s| > 1 ==> s[0] != '0'
  {
    if n < 10 then [DigitChar(n)] else Decimal(n / 10) + [DigitChar(n % 10)]
  }

  lemma {:induction false} DecimalRoundTrip(n: nat)
    ensures DigitsValue(Decimal(n)) == n
  {
    if n >= 10 {
      DecimalRoundTrip(n / 10);
      var s := Decimal(n);
      assert s[..|s| - 1] == Decimal(n / 10);
    }
  }

  function Pow10(k: nat): (p: nat)
    ensures p >= 1
  {
    if k == 0 then 1 else 10 * Pow10(k - 1)
  }

  /** What `format!` can produce: digits, no leading zero unless the
      number is 0. */
  predicate Canonical(s: string)
  {
    |s| >= 1 && AllDigits(s) && (|s| > 1 ==> s[0] != '0')
  }

  /** Writing digits after `s` shifts its value left by their count. */
  lemma {:induction false} DigitsValueAppend(s: string, t: string)
    requires AllDigits(s) && AllDigits(t)
    ensures AllDigits(s + t)
    ensures DigitsValue(s + t) == DigitsValue(s) * Pow10(|t|) + DigitsValue(t)
  {
    if |t| == 0 {
      assert s + t == s;
    } else {
      var u := s + t;
      var t' := t[..|t| - 1];
      assert u[..|u| - 1] == s + t';
      DigitsValueAppend(s, t');
      var a, p, b, d := DigitsValue(s), Pow10(|t'|), DigitsValue(t'), DigitValue(t[|t| - 1]);
      assert DigitsValue(u) == DigitsValue(s + t') * 10 + d;
      assert DigitsValue(t) == b * 10 + d;
      assert Pow10(|t|) == 10 * p;
      Regroup(a, p, b, d);
    }
  }

  lemma Regroup(a: int, p: int, b: int, d: int)
    ensures (a * p + b) * 10 + d == a * (10 * p) + (b * 10 + d)
  {
  }

  /** `k` digits denote less than 10^k. */
  lemma {:induction false} DigitsValueUpper(s: string)
    requires AllDigits(s)
    ensures DigitsValue(s) < Pow10(|s|)
  {
    if |s| > 0 {
      DigitsValueUpper(s[..|s| - 1]);
    }
  }

  /** `k` digits without a leading zero denote at least 10^(k-1). */
  lemma {:induction false} DigitsValueLower(s: string)
    requires |s| >= 1 && AllDigits(s) && s[0] != '0'
    ensures DigitsValue(s) >= Pow10(|s| - 1)
  {
    if |s| > 1 {
      DigitsValueLower(s[..|s| - 1]);
    }
  }

  /** Every canonical digit string is what `format!` writes for its
      value. */
  lemma {:induction false} DecimalOfCanonical(s: string)
    requires Canonical(s)
    ensures Decimal(DigitsValue(s)) == s
  {
    if |s| > 1 {
      var p := s[..|s| - 1];
      DigitsValueLower(p);
      DecimalOfCanonical(p);
      var n := DigitsValue(s);
      assert n / 10 == DigitsValue(p) && n % 10 == DigitValue(s[|s| - 1]);
      assert DigitChar(DigitValue(s[|s| - 1])) == s[|s| - 1];
    } else {
      assert DigitChar(DigitValue(s[0])) == s[0];
    }
  }

  /** `format!("{n}")` has `k` digits exactly when 10^(k-1) <= n < 10^k
      (or n < 10 for one digit). */
  lemma DecimalLength(n: nat)
    ensures n < Pow10(|Decimal(n)|)
    ensures |Decimal(n)| > 1 ==> Pow10(|Decimal(n)| - 1) <= n
  {
    DecimalRoundTrip(n);
    DigitsValueUpper(Decimal(n));
    if |Decimal(n)| > 1 {
      DigitsValueLower(Decimal(n));
    }
  }

  /** Rust's `str::parse` for an unsigned type whose largest value is `max`:
      an optional `+`, then at least one digit and nothing else, and a value
      that fits. */
  function ParseNat(s: string, max: nat): (r: Option<nat>)
    ensures r.Some? ==> r.value <= max
  {
    var digits := if |s| > 0 && s[0] == '+' then s[1..] else s;
    if |digits| == 0 || !AllDigits(digits) || DigitsValue(digits) > max then None
    else Some(DigitsValue(digits))
  }

  /** Rust's `str::parse` for a signed type with range [min, max]. */
  function ParseInt(s: string, min: int, max: int): (r: Option<int>)
    ensures r.Some? ==> min <= r.value <= max
  {
    var negative := |s| > 0 && s[0] == '-';
    var digits := if |s| > 0 && (s[0] == '-' || s[0] == '+') then s[1..] else s;
    if |digits| == 0 || !AllDigits(digits) then None
    else
      var v: int := if negative then 0 - DigitsValue(digits) as int else DigitsValue(digits);
      if v < min || v > max then None else Some(v)
  }

  /** Parsing a formatted number gives the number back. */
  lemma ParseDecimal(n: nat, max: nat)
    requires n <= max
    ensures ParseNat(Decimal(n), max) == Some(n)
  {
    DecimalRoundTrip(n);
  }

  /** Parsing a formatted number, with or without a minus sign, as a signed
      type gives the number back. */
  lemma ParseSignedDecimal(n: nat, negative: bool, min: int, max: int)
    requires min <= 0 <= max
    requires if negative then min <= -(n as int) else n <= max
    ensures ParseInt(if negative then "-" + Decimal(n) else Decimal(n), min, max)
            == Some(if negative then -(n as int) else n as int)
  {
    DecimalRoundTrip(n);
    var s := if negative then "-" + Decimal(n) else Decimal(n);
    if negative {
      assert s[1..] == Decimal(n);
    } else {
      assert IsDigit(s[0]);
      assert s[0] != '-' && s[0] != '+';
    }
  }

  /** `s.split(sep)`: the pieces between occurrences of `sep`; never empty. */
  function Split(s: string, sep: char): (parts: seq<string>)
    ensures |parts| >= 1
    ensures forall k :: 0 <= k < |parts| ==> sep !in parts[k]
  {
    if |s| == 0 then [""]
    else
      var rest := Split(s[1..], sep);
      if s[0] == sep then [""] + rest
      else [[s[0]] + rest[0]] + rest[1..]
  }

  /** The inverse of `Split`: the pieces glued back together with `sep`. */
  function Join(parts: seq<string>, sep: char): string
    requires |parts| >= 1
  {
    if |parts| == 1 then parts[0] else parts[0] + [sep] + Join(parts[1..], sep)
  }

  lemma {:induction false} JoinSplit(s: string, sep: char)
    ensures Join(Split(s, sep), sep) == s
  {
    if |s| > 0 {
      JoinSplit(s[1..], sep);
      var rest := Split(s[1..], sep);
      if s[0] != sep {
        if |rest| > 1 {
          assert Split(s, sep)[1..] == rest[1..];
        }
      } else {
        assert Split(s, sep)[1..] == rest;
      }
    }
  }

  /** A piece free of `sep`, then `sep`: splitting peels that piece off. */
  lemma {:induction false} SplitPrefix(x: string, y: string, sep: char)
    requires sep !in x
    ensures Split(x + [sep] + y, sep) == [x] + Split(y, sep)
  {
    var s := x + [sep] + y;
    if |x| == 0 {
      assert s[1..] == y;
    } else {
      assert s[1..] == x[1..] + [sep] + y;
      SplitPrefix(x[1..], y, sep);
      assert [x[0]] + x[1..] == x;
    }
  }

  lemma {:induction false} SplitNoSep(x: string, sep: char)
    requires sep !in x
    ensures Split(x, sep) == [x]
  {
    if |x| > 0 {
      SplitNoSep(x[1..], sep);
      assert [x[0]] + x[1..] == x;
    }
  }

  /** Splitting undoes joining pieces that do not contain the separator. */
  lemma {:induction false} SplitJoin(parts: seq<string>, sep: char)
    requires |parts| >= 1
    requires forall k :: 0 <= k < |parts| ==> sep !in parts[k]
    ensures Split(Join(parts, sep), sep) == parts
  {
    if |parts| == 1 {
      SplitNoSep(parts[0], sep);
    } else {
      SplitJoin(parts[1..], sep);
      SplitPrefix(parts[0], Join(parts[1..], sep), sep);
      assert [parts[0]] + parts[1..] == parts;
    }
  }

  function CountChar(s: string, c: char): nat
  {
    if |s| == 0 then 0 else (if s[0] == c then 1 else 0) + CountChar(s[1..], c)
  }

  /** `split` yields one piece more than there are separators. */
  lemma {:induction false} SplitLength(s: string, sep: char)
    ensures |Split(s, sep)| == CountChar(s, sep) + 1
  {
    if |s| > 0 {
      SplitLength(s[1..], sep);
    }
  }

  /** The ASCII whitespace of `char::is_ascii_whitespace`. */
  predicate IsAsciiWhitespace(c: char)
  {
    c == ' ' || c == '\t' || c == '\n' || c == '\r' || c == '\U{C}'
  }

  /** `s.split_ascii_whitespace()`: the maximal runs of non-whitespace. */
  function SplitWhitespace(s: string): (tokens: seq<string>)
    ensures forall k :: 0 <= k < |tokens| ==> |tokens[k]| > 0
    ensures |s| > 0 && !IsAsciiWhitespace(s[0]) ==> |tokens| > 0 && tokens[0][0] == s[0]
    ensures forall k, i :: 0 <= k < |tokens| && 0 <= i < |tokens[k]| ==> !IsAsciiWhitespace(tokens[k][i])
  {
    if |s| == 0 then []
    else
      var rest := SplitWhitespace(s[1..]);
      if IsAsciiWhitespace(s[0]) then rest
      else if |s| > 1 && !IsAsciiWhitespace(s[1]) then [[s[0]] + rest[0]] + rest[1..]
      else [[s[0]]] + rest
  }

  /** A token for `SplitWhitespace`: non-empty, no whitespace. */
  predicate IsToken(t: string)
  {
    |t| > 0 && forall i :: 0 <= i < |t| ==> !IsAsciiWhitespace(t[i])
  }

  /** The tokens written out with one space between each two. */
  function Unwords(tokens: seq<string>): string
  {
    if |tokens| == 0 then []
    else if |tokens| == 1 then tokens[0]
    else tokens[0] + " " + Unwords(tokens[1..])
  }

  /** A token followed by whitespace or nothing splits off whole. */
  lemma {:induction false} SplitWhitespaceToken(t: string, s: string)
    requires IsToken(t) && (|s| == 0 || IsAsciiWhitespace(s[0]))
    ensures SplitWhitespace(t + s) == [t] + SplitWhitespace(s)
  {
    var u := t + s;
    assert u[0] == t[0] && !IsAsciiWhitespace(t[0]);
    if |t| == 1 {
      assert u[1..] == s && t == [u[0]];
      assert |u| > 1 ==> u[1] == s[0];
    } else {
      assert u[1..] == t[1..] + s;
      SplitWhitespaceToken(t[1..], s);
      assert [t[0]] + t[1..] == t;
    }
  }

  /** Splitting undoes `Unwords`. */
  lemma {:induction false} SplitWhitespaceUnwords(tokens: seq<string>)
    requires forall k :: 0 <= k < |tokens| ==> IsToken(tokens[k])
    ensures SplitWhitespace(Unwords(tokens)) == tokens
  {
    if |tokens| == 1 {
      SplitWhitespaceToken(tokens[0], "");
      assert tokens[0] + "" == tokens[0];
    } else if |tokens| > 1 {
      var rest := Unwords(tokens[1..]);
      SplitWhitespaceUnwords(tokens[1..]);
      SplitWhitespaceToken(tokens[0], " " + rest);
      assert tokens[0] + " " + rest == tokens[0] + (" " + rest);
      assert (" " + rest)[1..] == rest;
      assert [tokens[0]] + tokens[1..] == tokens;
    }
  }

  /** A decimal is a token. */
  lemma DecimalIsToken(n: nat)
    ensures IsToken(Decimal(n))
  {
    var d := Decimal(n);
    forall i | 0 <= i < |d|
      ensures !IsAsciiWhitespace(d[i])
    {
      assert IsDigit(d[i]);
    }
  }

  /** The whitespace of `char::is_whitespace`, which `str::trim` strips:
      the Unicode White_Space property. Unlike `IsAsciiWhitespace` it holds
      for U+000B and for the non-ASCII spaces. */
  predicate IsWhitespace(c: char)
  {
    ('\t' <= c <= '\r') || c == ' ' || c == '\U{85}' || c == '\U{A0}' || c == '\U{1680}'
    || ('\U{2000}' <= c <= '\U{200A}') || c == '\U{2028}' || c == '\U{2029}'
    || c == '\U{202F}' || c == '\U{205F}' || c == '\U{3000}'
  }

  /** ASCII whitespace is whitespace; `str::trim` strips a strictly larger
      set, U+000B being the one ASCII character only it strips. */
  lemma AsciiWhitespaceIsWhitespace(c: char)
    ensures IsAsciiWhitespace(c) ==> IsWhitespace(c)
    ensures IsWhitespace('\U{B}') && !IsAsciiWhitespace('\U{B}')
    ensures IsWhitespace('\U{A0}') && !IsAsciiWhitespace('\U{A0}')
  {
  }

  /** `s.trim_start()`: `s` without its leading whitespace. */
  function TrimStart(s: string): (t: string)
    ensures |t| > 0 ==> !IsWhitespace(t[0])
  {
    if |s| > 0 && IsWhitespace(s[0]) then TrimStart(s[1..]) else s
  }

  /** `s.trim_end()`: `s` without its trailing whitespace. */
  function TrimEnd(s: string): (t: string)
    ensures |t| > 0 ==> !IsWhitespace(t[|t| - 1])
  {
    if |s| > 0 && IsWhitespace(s[|s| - 1]) then TrimEnd(s[..|s| - 1]) else s
  }

  /** `trim_start` keeps a suffix and drops only whitespace before it. */
  lemma {:induction false} TrimStartDropsWhitespace(s: string)
    ensures |TrimStart(s)| <= |s| && TrimStart(s) == s[|s| - |TrimStart(s)|..]
    ensures forall i :: 0 <= i < |s| - |TrimStart(s)| ==> IsWhitespace(s[i])
  {
    if |s| > 0 && IsWhitespace(s[0]) {
      TrimStartDropsWhitespace(s[1..]);
      forall i | 1 <= i < |s| - |TrimStart(s)|
        ensures IsWhitespace(s[i])
      {
        assert s[i] == s[1..][i - 1];
      }
    }
  }

  /** `trim_end` keeps a prefix and drops only whitespace after it. */
  lemma {:induction false} TrimEndDropsWhitespace(s: string)
    ensures |TrimEnd(s)| <= |s| && TrimEnd(s) == s[..|TrimEnd(s)|]
    ensures forall i :: |TrimEnd(s)| <= i < |s| ==> IsWhitespace(s[i])
  {
    if |s| > 0 && IsWhitespace(s[|s| - 1]) {
      TrimEndDropsWhitespace(s[..|s| - 1]);
    }
  }

  /** `s.trim()`: `s` without leading and trailing whitespace. */
  function Trim(s: string): (t: string)
  {
    TrimEnd(TrimStart(s))
  }

  /** A string trims to nothing exactly when it is all whitespace. */
  lemma {:induction false} TrimEmpty(s: string)
    ensures Trim(s) == [] <==> forall i :: 0 <= i < |s| ==> IsWhitespace(s[i])
  {
    TrimStartEmpty(s);
    TrimEndEmpty(TrimStart(s));
  }

  lemma {:induction false} TrimStartEmpty(s: string)
    ensures TrimStart(s) == [] <==> forall i :: 0 <= i < |s| ==> IsWhitespace(s[i])
  {
    if |s| > 0 && IsWhitespace(s[0]) {
      TrimStartEmpty(s[1..]);
      assert forall i :: 1 <= i < |s| ==> s[i] == s[1..][i - 1];
    }
  }

  lemma {:induction false} TrimEndEmpty(s: string)
    ensures TrimEnd(s) == [] <==> forall i :: 0 <= i < |s| ==> IsWhitespace(s[i])
  {
    if |s| > 0 && IsWhitespace(s[|s| - 1]) {
      TrimEndEmpty(s[..|s| - 1]);
    }
  }

  /** A string that neither starts nor ends with whitespace is its own trim. */
  lemma TrimUnpadded(s: string)
    requires |s| > 0 ==> !IsWhitespace(s[0]) && !IsWhitespace(s[|s| - 1])
    ensures Trim(s) == s
  {
  }

  /** `format!("{v}")` for a signed integer: a minus sign before a negative
      value. */
  function SignedDecimal(v: int): (s: string)
    ensures |s| >= 1 && IsDigit(s[|s| - 1])
    ensures s[0] == '-' || IsDigit(s[0])
    ensures forall i :: 0 <= i < |s| ==> s[i] == '-' || IsDigit(s[i])
  {
    if v < 0 then "-" + Decimal(-v) else Decimal(v)
  }

  /** Parsing a formatted signed number that fits gives it back. */
  lemma ParseSignedDecimalOf(v: int, min: int, max: int)
    requires min <= 0 <= max && min <= v <= max
    ensures ParseInt(SignedDecimal(v), min, max) == Some(v)
  {
    ParseSignedDecimal(if v < 0 then -v else v, v < 0, min, max);
  }
}
