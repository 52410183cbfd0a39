/**
 * The two JavaScript string built-ins the handlers rely on: `String.prototype.trim`
 * (task text) and `parseInt` (the leaderboard's `limit` query parameter).
 */
module Text {
  import opened Common

  /** The characters JavaScript's `trim` and `parseInt` skip: the WhiteSpace and
      LineTerminator characters of ECMAScript, including the Unicode space separators. */
  predicate IsWhitespace(ch: char)
  {
    ch == ' ' || ch == '\t' || ch == '\n' || ch == '\r' ||
    ch == '\U{000B}' || ch == '\U{000C}' || ch == '\U{00A0}' || ch == '\U{FEFF}' ||
    ch == '\U{1680}' || ('\U{2000}' <= ch <= '\U{200A}') ||
    ch == '\U{2028}' || ch == '\U{2029}' || ch == '\U{202F}' || ch == '\U{205F}' || ch == '\U{3000}'
  }

  /** The number of whitespace characters at the start of `s`. */
  function LeadingSpace(s: string): (n: nat)
    ensures n <= |s|
    ensures forall k :: 0 <= k < n ==> IsWhitespace(s[k])
    ensures n < |s| ==> !IsWhitespace(s[n])
  {
    if s != [] && IsWhitespace(s[0]) then 1 + LeadingSpace(s[1..]) else 0
  }

  /** The number of whitespace characters at the end of `s`. */
  function TrailingSpace(s: string): (n: nat)
    ensures n <= |s|
    ensures forall k :: |s| - n <= k < |s| ==> IsWhitespace(s[k])
    ensures n < |s| ==> !IsWhitespace(s[|s| - n - 1])
  {
    if s != [] && IsWhitespace(s[|s| - 1]) then 1 + TrailingSpace(s[..|s| - 1]) else 0
  }

  function TrimStart(s: string): string
  {
    s[LeadingSpace(s)..]
  }

  function TrimEnd(s: string): string
  {
    s[..|s| - TrailingSpace(s)]
  }

  /** `s.trim()`: no longer than the input, and neither end of the result is whitespace. */
  function Trim(s: string): (r: string)
    ensures |r| <= |s|
    ensures r == [] || (!IsWhitespace(r[0]) && !IsWhitespace(r[|r| - 1]))
  {
    var a := TrimStart(s);
    var b := TrimEnd(a);
    assert b != [] ==> b[0] == a[0];
    b
  }

  /** `trim` cuts a run of whitespace from each end and keeps the middle as it is: the result
      is a slice of the input, and everything cut is whitespace. */
  lemma TrimSlice(s: string)
    ensures exists i, j :: 0 <= i <= j <= |s| && Trim(s) == s[i..j] &&
                           (forall k :: 0 <= k < i ==> IsWhitespace(s[k])) &&
                           (forall k :: j <= k < |s| ==> IsWhitespace(s[k]))
  {
    var a := TrimStart(s);
    var b := TrimEnd(a);
    var i := |s| - |a|;
    var j := i + |b|;
    assert b == s[i..j];
  }

  /** A trimmed string is empty exactly when the input was whitespace only — the
      "missing or blank task" test of `createTodo`. */
  lemma TrimEmptyIffBlank(s: string)
    ensures Trim(s) == [] <==> forall k :: 0 <= k < |s| ==> IsWhitespace(s[k])
  {
    var a := TrimStart(s);
    if a != [] {
      assert a[0] == s[|s| - |a|];
      assert TrimEnd(a) != [];
    }
  }

  /** The value of a decimal or hexadecimal digit, `None` for any other character. */
  function DigitValue(ch: char, radix: nat): (d: Option<nat>)
    ensures d.Some? ==> d.value < radix
  {
    if '0' <= ch <= '9' && (ch as int - '0' as int) < radix then Some(ch as int - '0' as int)
    else if radix == 16 && 'a' <= ch <= 'f' then Some(ch as int - 'a' as int + 10)
    else if radix == 16 && 'A' <= ch <= 'F' then Some(ch as int - 'A' as int + 10)
    else None
  }

  /** The longest prefix of `s` made of digits of the radix. */
  function DigitPrefix(s: string, radix: nat): (r: string)
    ensures |r| <= |s| && r == s[..|r|]
    ensures forall k :: 0 <= k < |r| ==> DigitValue(r[k], radix).Some?
    ensures |r| < |s| ==> DigitValue(s[|r|], radix).None?
  {
    if s != [] && DigitValue(s[0], radix).Some? then
      var rest := DigitPrefix(s[1..], radix);
      assert forall k :: 0 < k < |rest| + 1 ==> ([s[0]] + rest)[k] == rest[k - 1];
      [s[0]] + rest
    else []
  }

  /** The number a string of digits spells in the radix, most significant digit first. */
  function DigitsValue(ds: string, radix: nat): nat
    requires forall k :: 0 <= k < |ds| ==> DigitValue(ds[k], radix).Some?
  {
    if ds == [] then 0
    else DigitsValue(ds[..|ds| - 1], radix) * radix + DigitValue(ds[|ds| - 1], radix).value
  }

  /** The optional sign `parseInt` accepts: whether it is a minus, and what follows it. */
  function SplitSign(t: string): (bool, string)
  {
    if t != [] && (t[0] == '-' || t[0] == '+') then (t[0] == '-', t[1..]) else (false, t)
  }

  /** The radix `parseInt` picks when none is given: 16 after a `0x` or `0X` prefix
      (which is dropped), 10 otherwise. */
  function SplitRadix(u: string): (nat, string)
  {
    if |u| >= 2 && u[0] == '0' && (u[1] == 'x' || u[1] == 'X') then (16, u[2..]) else (10, u)
  }

  /** `parseInt(s)` with no radix argument: leading whitespace, an optional sign, the radix
      prefix, then the longest run of digits; `None` (NaN) when that run is empty. */
  function ParseInt(s: string): Option<int>
  {
    ParseSigned(SplitSign(TrimStart(s)))
  }

  /** `parseInt` after the whitespace and the sign. */
  function ParseSigned(signed: (bool, string)): Option<int>
  {
    var (negative, u) := signed;
    var (radix, body) := SplitRadix(u);
    var ds := DigitPrefix(body, radix);
    if ds == [] then None
    else
      var v: int := DigitsValue(ds, radix);
      Some(if negative then -v else v)
  }

  /** The decimal digit for `d < 10`. */
  function DecimalDigit(d: nat): (ch: char)
    requires d < 10
    ensures DigitValue(ch, 10) == Some(d)
  {
    ['0', '1', '2', '3', '4', '5', '6', '7', '8', '9'][d]
  }

  /** The decimal spelling of a natural number, as `String(n)` writes it. */
  function Decimal(n: nat): (s: string)
    ensures s != [] && forall k :: 0 <= k < |s| ==> DigitValue(s[k], 10).Some?
  {
    if n < 10 then [DecimalDigit(n)] else Decimal(n / 10) + [DecimalDigit(n % 10)]
  }

  lemma {:induction false} DecimalValue(n: nat)
    ensures DigitsValue(Decimal(n), 10) == n
  {
    if n >= 10 {
      var s := Decimal(n);
      assert s[..|s| - 1] == Decimal(n / 10);
      DecimalValue(n / 10);
    }
  }

  /** Every character of an all-digit string is in the digit prefix. */
  lemma {:induction false} DigitPrefixAll(s: string, radix: nat)
    requires forall k :: 0 <= k < |s| ==> DigitValue(s[k], radix).Some?
    ensures DigitPrefix(s, radix) == s
  {
    if s != [] {
      DigitPrefixAll(s[1..], radix);
      assert s == [s[0]] + s[1..];
    }
  }

  /** A decimal digit is neither whitespace, nor a sign, nor the `x` of a radix prefix. */
  lemma DecimalDigitIsPlain(ch: char)
    requires DigitValue(ch, 10).Some?
    ensures !IsWhitespace(ch) && ch != '-' && ch != '+' && ch != 'x' && ch != 'X'
  {
  }

  /** After whitespace, sign and radix prefix, an unsigned decimal numeral is all that remains,
      with a leading minus sign or without one. */
  lemma {:induction false} ParseIntPrefixes(s: string)
    requires s != [] && forall k :: 0 <= k < |s| ==> DigitValue(s[k], 10).Some?
    ensures SplitSign(TrimStart(s)) == (false, s)
    ensures SplitSign(TrimStart("-" + s)) == (true, s)
    ensures SplitRadix(s) == (10, s)
  {
    DecimalDigitIsPlain(s[0]);
    assert TrimStart(s) == s;
    var m := "-" + s;
    assert TrimStart(m) == m;
    assert m[1..] == s;
    if |s| >= 2 { DecimalDigitIsPlain(s[1]); }
  }

  /** `parseInt` once whitespace and sign are settled: a decimal numeral with its sign. */
  lemma {:induction false} ParseSignedNumeral(negative: bool, s: string)
    requires s != [] && forall k :: 0 <= k < |s| ==> DigitValue(s[k], 10).Some?
    requires SplitRadix(s) == (10, s)
    ensures ParseSigned((negative, s)) ==
            Some(if negative then -(DigitsValue(s, 10) as int) else DigitsValue(s, 10) as int)
  {
    DigitPrefixAll(s, 10);
  }

  /** A string of decimal digits parses to the number it spells. */
  lemma {:induction false} ParseIntDigits(s: string, n: nat)
    requires s != [] && forall k :: 0 <= k < |s| ==> DigitValue(s[k], 10).Some?
    requires DigitsValue(s, 10) == n
    ensures ParseInt(s) == Some(n as int)
  {
    ParseIntPrefixes(s);
    ParseSignedNumeral(false, s);
  }

  /** A minus sign followed by decimal digits parses to the negated number. */
  lemma {:induction false} ParseIntNegatedDigits(s: string, n: nat)
    requires s != [] && forall k :: 0 <= k < |s| ==> DigitValue(s[k], 10).Some?
    requires DigitsValue(s, 10) == n
    ensures ParseInt("-" + s) == Some(-(n as int))
  {
    ParseIntPrefixes(s);
    ParseSignedNumeral(true, s);
  }

  /** `parseInt` reads back the decimal spelling of any natural number, and of its negation. */
  lemma {:induction false} ParseIntDecimal(n: nat)
    ensures ParseInt(Decimal(n)) == Some(n as int)
    ensures ParseInt("-" + Decimal(n)) == Some(-(n as int))
  {
    DecimalValue(n);
    ParseIntDigits(Decimal(n), n);
    ParseIntNegatedDigits(Decimal(n), n);
  }

  /** A string with no digit after its whitespace and sign parses to NaN. */
  lemma ParseIntNoDigits(s: string)
    requires forall k :: 0 <= k < |s| ==> !('0' <= s[k] <= '9')
    ensures ParseInt(s) == None
  {
    var t := TrimStart(s);
    assert forall k :: 0 <= k < |t| ==> t[k] == s[|s| - |t| + k];
  }
}
