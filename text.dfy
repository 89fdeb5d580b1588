/**
 * Character-level string operations the table relies on: ASCII case folding
 * (`toLowerCase` / `toUpperCase` restricted to ASCII), `String.prototype.includes`,
 * `String.prototype.trim`, `Array.prototype.join` and conversions between numbers and text.
 */
module Text {
  import opened Wrappers

  predicate IsUpper(c: char) { 'A' <= c <= 'Z' }
  predicate IsLower(c: char) { 'a' <= c <= 'z' }

  function LowerChar(c: char): (d: char)
    ensures !IsUpper(d)
    ensures !IsUpper(c) ==> d == c
    ensures IsUpper(c) ==> d as int == c as int + 32
  {
    if IsUpper(c) then (c as int + 32) as char else c
  }

  function UpperChar(c: char): (d: char)
    ensures !IsLower(d)
    ensures !IsLower(c) ==> d == c
    ensures IsLower(c) ==> d as int == c as int - 32
  {
    if IsLower(c) then (c as int - 32) as char else c
  }

  /** `s.toLowerCase()` for ASCII letters. */
  function ToLower(s: string): (r: string)
    ensures |r| == |s|
    ensures forall i :: 0 <= i < |s| ==> r[i] == LowerChar(s[i])
  {
    if s == [] then [] else [LowerChar(s[0])] + ToLower(s[1..])
  }

  lemma {:induction false} ToLowerIdempotent(s: string)
    ensures ToLower(ToLower(s)) == ToLower(s)
  {
    if s != [] {
      ToLowerIdempotent(s[1..]);
      assert ToLower(s)[1..] == ToLower(s[1..]);
    }
  }

  /** `text.includes(pat)`: `pat` occurs somewhere in `text` as a contiguous block. */
  function Includes(text: string, pat: string): (b: bool)
    ensures b <==> exists i :: 0 <= i <= |text| - |pat| && pat <= text[i..]
    decreases |text|
  {
    if |pat| > |text| then false
    else if pat <= text then assert text[0..] == text; true
    else
      var b := Includes(text[1..], pat);
      assert b ==> exists i :: 0 <= i <= |text| - |pat| && pat <= text[i..] by {
        if b {
          var j :| 0 <= j <= |text| - 1 - |pat| && pat <= text[1..][j..];
          assert text[1..][j..] == text[j + 1..];
        }
      }
      assert (exists i :: 0 <= i <= |text| - |pat| && pat <= text[i..]) ==> b by {
        if exists i :: 0 <= i <= |text| - |pat| && pat <= text[i..] {
          var i :| 0 <= i <= |text| - |pat| && pat <= text[i..];
          assert i != 0;
          assert text[1..][i - 1..] == text[i..];
        }
      }
      b
  }

  /** The characters `String.prototype.trim` strips: ECMAScript WhiteSpace and LineTerminator. */
  predicate IsJsSpace(c: char)
  {
    c == '\t' || c == '\n' || c == '\U{000B}' || c == '\U{000C}' || c == '\r' || c == ' '
    || c == '\U{00A0}' || c == '\U{1680}' || ('\U{2000}' <= c <= '\U{200A}')
    || c == '\U{2028}' || c == '\U{2029}' || c == '\U{202F}' || c == '\U{205F}'
    || c == '\U{3000}' || c == '\U{FEFF}'
  }

  /** `s.trimStart()`: the leading white space goes, and nothing else. */
  function TrimStart(s: string): (r: string)
    ensures |r| <= |s|
    ensures r == s[|s| - |r|..]
    ensures forall i :: 0 <= i < |s| - |r| ==> IsJsSpace(s[i])
    ensures r == [] || !IsJsSpace(r[0])
  {
    if s != [] && IsJsSpace(s[0]) then TrimStart(s[1..]) else s
  }

  /** `s.trimEnd()`: the trailing white space goes, and nothing else. */
  function TrimEnd(s: string): (r: string)
    ensures r <= s
    ensures forall i :: |r| <= i < |s| ==> IsJsSpace(s[i])
    ensures r == [] || !IsJsSpace(r[|r| - 1])
  {
    if s != [] && IsJsSpace(s[|s| - 1]) then TrimEnd(s[..|s| - 1]) else s
  }

  /** `s.trim()`. */
  function Trim(s: string): string
  {
    TrimEnd(TrimStart(s))
  }

  /** A string that neither starts nor ends with white space is its own trim. */
  lemma TrimUnpadded(s: string)
    requires s != [] && !IsJsSpace(s[0]) && !IsJsSpace(s[|s| - 1])
    ensures Trim(s) == s
  {
  }

  /** `parts.join(sep)`. */
  function Join(parts: seq<string>, sep: string): string
  {
    if parts == [] then []
    else if |parts| == 1 then parts[0]
    else parts[0] + sep + Join(parts[1..], sep)
  }

  function DigitChar(d: nat): (c: char)
    requires d < 10
    ensures '0' <= c <= '9'
  {
    ('0' as int + d) as char
  }

  /** The number a string of decimal digits denotes, most significant digit first. */
  function DigitsValue(s: string): int
  {
    if s == [] then 0 else DigitsValue(s[..|s| - 1]) * 10 + (s[|s| - 1] as int - '0' as int)
  }

  /** The decimal digits of `n`, most significant first, with no leading zero. */
  function Digits(n: nat): (s: string)
    ensures |s| >= 1
    ensures forall i :: 0 <= i < |s| ==> '0' <= s[i] <= '9'
    ensures |s| > 1 ==> s[0] != '0'
    ensures DigitsValue(s) == n
    decreases n
  {
    if n < 10 then [DigitChar(n)]
    else
      var s := Digits(n / 10) + [DigitChar(n % 10)];
      assert s[..|s| - 1] == Digits(n / 10);
      s
  }

  predicate IsDigit(c: char) { '0' <= c <= '9' }

  predicate AllDigits(s: string)
  {
    forall i :: 0 <= i < |s| ==> IsDigit(s[i])
  }

  /**
   * `Number(s)` on the integer forms of a string: the white space around it is ignored, a
   * blank string is 0, and a `-` or `+` may precede a run of decimal digits. Every other
   * string gives `None`, standing for `NaN`.
   */
  function StringToNumber(s: string): (r: Option<int>)
    ensures Trim(s) == [] ==> r == Some(0)
  {
    IntegerLiteral(Trim(s))
  }

  /** The integer a trimmed string spells: optional sign, then decimal digits (none for 0). */
  function IntegerLiteral(t: string): Option<int>
  {
    if AllDigits(t) then Some(DigitsValue(t))
    else if |t| > 1 && t[0] == '-' && AllDigits(t[1..]) then Some(-DigitsValue(t[1..]))
    else if |t| > 1 && t[0] == '+' && AllDigits(t[1..]) then Some(DigitsValue(t[1..]))
    else None
  }

  /** `String(n)` for an integer. */
  function IntToString(n: int): string
  {
    if n < 0 then "-" + Digits(-n) else Digits(n)
  }

  /** Digits, with or without a leading `-`, carry no white space for `trim` to take. */
  lemma DigitsUnpadded(d: string)
    requires d != [] && AllDigits(d)
    ensures Trim(d) == d && Trim("-" + d) == "-" + d
  {
    assert !IsJsSpace(d[0]) && !IsJsSpace(d[|d| - 1]);
    TrimUnpadded(d);
    var t := "-" + d;
    assert t[|t| - 1] == d[|d| - 1];
    TrimUnpadded(t);
  }

  /** A run of digits converts to the number it denotes. */
  lemma NumberOfDigits(d: string)
    requires d != [] && AllDigits(d)
    ensures StringToNumber(d) == Some(DigitsValue(d))
  {
    DigitsUnpadded(d);
  }

  /** A `-` followed by a run of digits converts to the negated number. */
  lemma NumberOfNegatedDigits(d: string)
    requires d != [] && AllDigits(d)
    ensures StringToNumber("-" + d) == Some(-DigitsValue(d))
  {
    DigitsUnpadded(d);
    LiteralOfNegatedDigits(d);
  }

  lemma LiteralOfNegatedDigits(d: string)
    requires d != [] && AllDigits(d)
    ensures IntegerLiteral("-" + d) == Some(-DigitsValue(d))
  {
    var t := "-" + d;
    assert !IsDigit(t[0]) && t[1..] == d;
  }

  /** `Number(String(n))` gives `n` back. */
  lemma NumberOfIntToString(n: int)
    ensures StringToNumber(IntToString(n)) == Some(n)
  {
    if n < 0 {
      NumberOfNegatedDigits(Digits(-n));
    } else {
      NumberOfDigits(Digits(n));
    }
  }
}
