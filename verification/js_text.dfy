/** The few JavaScript string and number built-ins the data layer relies on,
    written out: `String.prototype.trim`, `parseFloat` followed by `|| 0`,
    `Number.prototype.toString` on integers, and `String.prototype.replace`
    with a one-character pattern. */
module JsText {
  import opened Optional

  /** ECMAScript WhiteSpace and LineTerminator code points, the set both
      `trim` and `parseFloat` skip. */
  predicate IsJsWhitespace(c: char) {
    || c == '\t' || c == '\n' || c == '\U{B}' || c == '\U{C}' || c == '\r' || c == ' '
    || c == '\U{A0}' || c == '\U{1680}' || ('\U{2000}' <= c <= '\U{200A}')
    || c == '\U{2028}' || c == '\U{2029}' || c == '\U{202F}' || c == '\U{205F}'
    || c == '\U{3000}' || c == '\U{FEFF}'
  }

  /** Every character of `s` is whitespace (true of the empty string). */
  predicate IsBlank(s: string) {
    forall i :: 0 <= i < |s| ==> IsJsWhitespace(s[i])
  }

  /** Length of the longest all-whitespace prefix of `s`. */
  function LeadingBlank(s: string): (n: nat)
    ensures n <= |s| && IsBlank(s[..n])
    ensures n == |s| || !IsJsWhitespace(s[n])
  {
    if |s| > 0 && IsJsWhitespace(s[0]) then
      var n := 1 + LeadingBlank(s[1..]);
      assert forall i :: 1 <= i < n ==> s[..n][i] == s[1..][..n - 1][i - 1];
      n
    else 0
  }

  /** Length of the longest all-whitespace suffix of `s`. */
  function TrailingBlank(s: string): (n: nat)
    ensures n <= |s| && IsBlank(s[|s| - n..])
    ensures n == |s| || !IsJsWhitespace(s[|s| - n - 1])
  {
    if |s| > 0 && IsJsWhitespace(s[|s| - 1]) then
      var p := s[..|s| - 1];
      var n := 1 + TrailingBlank(p);
      var suffix := p[|p| - (n - 1)..];
      assert s[|s| - n..] == suffix + [s[|s| - 1]];
      assert forall i :: 0 <= i < n - 1 ==> (suffix + [s[|s| - 1]])[i] == suffix[i];
      n
    else 0
  }

  /** `s` with its leading whitespace removed. */
  function TrimStart(s: string): (r: string)
    ensures |r| <= |s| && r == s[|s| - |r|..]
    ensures IsBlank(s[..|s| - |r|])
    ensures |r| == 0 || !IsJsWhitespace(r[0])
  {
    s[LeadingBlank(s)..]
  }

  /** `s` with its trailing whitespace removed. */
  function TrimEnd(s: string): (r: string)
    ensures |r| <= |s| && r == s[..|r|]
    ensures IsBlank(s[|r|..])
    ensures |r| == 0 || !IsJsWhitespace(r[|r| - 1])
  {
    s[..|s| - TrailingBlank(s)]
  }

  /** `s.trim()`. */
  function Trim(s: string): string {
    TrimEnd(TrimStart(s))
  }

  /** `s.trim()` is the empty (falsy) string exactly when `s` is all whitespace. */
  lemma TrimEmptyIffBlank(s: string)
    ensures Trim(s) == "" <==> IsBlank(s)
  {
    var t := TrimStart(s);
    var k := |s| - |t|;
    if Trim(s) == "" {
      assert |t| == 0;
      assert s[..k] == s;
    } else {
      var u := Trim(s);
      assert !IsJsWhitespace(u[0]);
      assert u[0] == t[0] == s[k];
    }
  }

  predicate IsDigit(c: char) {
    '0' <= c <= '9'
  }

  predicate AllDigits(s: string) {
    forall i :: 0 <= i < |s| ==> IsDigit(s[i])
  }

  /** Length of the longest all-digit prefix of `s`. */
  function DigitRun(s: string): (n: nat)
    ensures n <= |s| && AllDigits(s[..n])
    ensures n == |s| || !IsDigit(s[n])
  {
    if |s| > 0 && IsDigit(s[0]) then
      var n := 1 + DigitRun(s[1..]);
      assert forall i :: 1 <= i < n ==> s[..n][i] == s[1..][..n - 1][i - 1];
      n
    else 0
  }

  function DigitValue(c: char): nat
    requires IsDigit(c)
  {
    (c as int - '0' as int) as nat
  }

  /** The natural number written by a string of decimal digits (0 for the empty string). */
  function DigitsValue(ds: string): nat
    requires AllDigits(ds)
  {
    if |ds| == 0 then 0 else DigitsValue(ds[..|ds| - 1]) * 10 + DigitValue(ds[|ds| - 1])
  }

  function Pow10(n: nat): (r: nat)
    ensures r >= 1
  {
    if n == 0 then 1 else 10 * Pow10(n - 1)
  }

  /** `m` times ten to the power `e`. */
  function Scale(m: real, e: int): real {
    if e >= 0 then m * Pow10(e) as real else m / Pow10(-e) as real
  }

  /** The value of an exponent part `e`/`E`, optional sign, at least one digit,
      at the head of `s`; 0 when `s` does not start with one, since the
      parse then stops before the `e`. */
  function ExponentAt(s: string): int {
    if |s| >= 2 && (s[0] == 'e' || s[0] == 'E') then
      var signed := s[1] == '+' || s[1] == '-';
      var digits := if signed then s[2..] else s[1..];
      var n := DigitRun(digits);
      if n == 0 then 0
      else if s[1] == '-' then -(DigitsValue(digits[..n]) as int)
      else DigitsValue(digits[..n]) as int
    else 0
  }

  /** The longest prefix of `u` that is an unsigned decimal literal
      (`digits [. digits] [exponent]` or `. digits [exponent]`), read as a
      number; None when `u` starts with no such literal. */
  function ParseUnsigned(u: string): Option<real> {
    var n := DigitRun(u);
    ParseAfterWhole(u[..n], u[n..])
  }

  /** Continues after the integer digits: an optional point and fraction digits. */
  function ParseAfterWhole(whole: string, rest: string): Option<real>
    requires AllDigits(whole)
  {
    if |rest| > 0 && rest[0] == '.' then
      var afterPoint := rest[1..];
      var f := DigitRun(afterPoint);
      Assemble(whole, afterPoint[..f], afterPoint[f..])
    else Assemble(whole, "", rest)
  }

  /** The literal's value, or None when it has no digit at all. */
  function Assemble(whole: string, fraction: string, tail: string): Option<real>
    requires AllDigits(whole) && AllDigits(fraction)
  {
    if |whole| == 0 && |fraction| == 0 then None
    else
      var mantissa := DigitsValue(whole) as real + DigitsValue(fraction) as real / Pow10(|fraction|) as real;
      Some(Scale(mantissa, ExponentAt(tail)))
  }

  /** `u` starts with a digit, or with a point followed by a digit: the
      shortest beginnings of a decimal literal. */
  predicate StartsLiteral(u: string) {
    |u| > 0 && (IsDigit(u[0]) || (u[0] == '.' && |u| > 1 && IsDigit(u[1])))
  }

  /** `t` without a leading sign character. */
  function AfterSign(t: string): (u: string)
    ensures |t| > 0 && (t[0] == '-' || t[0] == '+') ==> u == t[1..]
    ensures |t| == 0 || (t[0] != '-' && t[0] != '+') ==> u == t
  {
    if |t| > 0 && (t[0] == '-' || t[0] == '+') then t[1..] else t
  }

  /** A literal is read exactly when `u` starts one. */
  lemma ParseUnsignedNoneIff(u: string)
    ensures ParseUnsigned(u) == None <==> !StartsLiteral(u)
  {
    var n := DigitRun(u);
    if n == 0 && |u| > 0 && u[0] == '.' {
      var f := DigitRun(u[1..]);
      assert u[n..] == u;
      assert f > 0 <==> |u| > 1 && IsDigit(u[1]);
    } else if n == 0 {
      assert u[n..] == u;
    }
  }

  /** `parseFloat(s)`: skip leading whitespace, read an optional sign and the
      longest decimal literal after it; None stands for NaN. */
  function ParseFloat(s: string): (r: Option<real>)
    ensures r == None <==> !StartsLiteral(AfterSign(TrimStart(s)))
  {
    var t := TrimStart(s);
    ParseUnsignedNoneIff(AfterSign(t));
    if |t| > 0 && t[0] == '-' then
      match ParseUnsigned(t[1..])
      case None => None
      case Some(v) => Some(-v)
    else if |t| > 0 && t[0] == '+' then ParseUnsigned(t[1..])
    else ParseUnsigned(t)
  }

  /** `parseFloat(s) || 0`: NaN (and zero) become 0. */
  function NumberOrZero(s: string): (r: real)
    ensures !StartsLiteral(AfterSign(TrimStart(s))) ==> r == 0.0
    ensures ParseFloat(s).Some? ==> r == ParseFloat(s).value
  {
    ParseFloat(s).GetOr(0.0)
  }

  /** Blank text, the empty string included, holds no literal and reads as 0. */
  lemma BlankIsZero(s: string)
    requires IsBlank(s)
    ensures ParseFloat(s) == None
    ensures NumberOrZero(s) == 0.0
  {
  }

  function DigitChar(d: nat): (c: char)
    requires d < 10
    ensures IsDigit(c) && DigitValue(c) == d
  {
    ('0' as int + d) as char
  }

  /** Decimal digits of `m`, most significant first, without leading zeros. */
  function NatToText(m: nat): (r: string)
    ensures |r| > 0 && AllDigits(r)
    ensures m == 0 ==> r == "0"
    ensures m > 0 ==> r[0] != '0'
    ensures DigitsValue(r) == m
  {
    if m < 10 then [DigitChar(m)]
    else
      var r := NatToText(m / 10) + [DigitChar(m % 10)];
      assert r[..|r| - 1] == NatToText(m / 10);
      r
  }

  /** `n.toString()` for an integer-valued number. */
  function IntToText(n: int): (r: string)
    ensures |r| > 0 && (r[0] == '-' <==> n < 0)
    ensures var d := if n < 0 then r[1..] else r;
            |d| > 0 && AllDigits(d) && (|d| == 1 || d[0] != '0')
  {
    if n < 0 then "-" + NatToText(-n) else NatToText(n)
  }

  /** Digits and the minus sign are not whitespace, so parsing starts at them. */
  lemma NumberStartNotWhitespace(c: char)
    requires IsDigit(c) || c == '-'
    ensures !IsJsWhitespace(c)
  {
  }

  lemma AssembleWhole(u: string)
    requires |u| > 0 && AllDigits(u)
    ensures Assemble(u, "", []) == Some(DigitsValue(u) as real)
  {
    assert DigitsValue("") == 0;
    assert ExponentAt([]) == 0;
    assert Pow10(0) == 1;
    var m := DigitsValue(u) as real + 0 as real / 1 as real;
    assert m == DigitsValue(u) as real;
    assert Scale(m, 0) == m * 1 as real;
  }

  lemma ParseUnsignedDigits(u: string)
    requires |u| > 0 && AllDigits(u)
    ensures ParseUnsigned(u) == Some(DigitsValue(u) as real)
  {
    var n := DigitRun(u);
    assert n == |u|;
    assert u[..n] == u && u[n..] == [];
    assert ParseUnsigned(u) == ParseAfterWhole(u, []);
    assert ParseAfterWhole(u, []) == Assemble(u, "", []);
    AssembleWhole(u);
  }

  /** Reading back the text of an integer gives the integer: what `toString`
      writes, `parseFloat` reads. */
  lemma IntToTextRoundTrip(n: int)
    ensures ParseFloat(IntToText(n)) == Some(n as real)
    ensures NumberOrZero(IntToText(n)) == n as real
  {
    var s := IntToText(n);
    NumberStartNotWhitespace(s[0]);
    assert TrimStart(s) == s;
    if n < 0 {
      assert s[0] == '-' && s[1..] == NatToText(-n);
      ParseUnsignedDigits(NatToText(-n));
      assert ParseFloat(s) == Some(-(DigitsValue(NatToText(-n)) as real));
    } else {
      NumberStartNotWhitespace(NatToText(n)[0]);
      ParseUnsignedDigits(NatToText(n));
      assert ParseFloat(s) == ParseUnsigned(s);
    }
  }

  /** `r` is `s` with its first `c`, found at index `k`, replaced by `rep`. */
  predicate ReplacedAt(s: string, c: char, rep: string, r: string, k: int) {
    0 <= k < |s| && s[k] == c && c !in s[..k] && r == s[..k] + rep + s[k + 1..]
  }

  /** `s.replace(c, rep)` with a one-character string pattern and a
      replacement holding no `$` substitution pattern: only the first
      occurrence of `c` is replaced, by `rep` taken literally. */
  function ReplaceFirst(s: string, c: char, rep: string): (r: string)
    requires '$' !in rep
    ensures c !in s ==> r == s
    ensures |s| > 0 && s[0] == c ==> r == rep + s[1..]
    ensures |s| > 0 && s[0] != c ==> |r| > 0 && r[0] == s[0]
    ensures c in s ==> exists k :: ReplacedAt(s, c, rep, r, k)
  {
    if |s| == 0 then s
    else if s[0] == c then
      assert ReplacedAt(s, c, rep, rep + s[1..], 0);
      rep + s[1..]
    else
      var tail := ReplaceFirst(s[1..], c, rep);
      ReplaceFirstShift(s, c, rep, tail);
      [s[0]] + tail
  }

  /** The first `c` of `s[1..]` is the first of `s` when `s[0]` is not `c`. */
  lemma ReplaceFirstShift(s: string, c: char, rep: string, tail: string)
    requires '$' !in rep
    requires |s| > 0 && s[0] != c
    requires c in s[1..] ==> exists k :: ReplacedAt(s[1..], c, rep, tail, k)
    ensures c in s ==> exists k :: ReplacedAt(s, c, rep, [s[0]] + tail, k)
  {
    if c in s {
      var u := s[1..];
      assert c in u by {
        var i :| 0 <= i < |s| && s[i] == c;
        assert u[i - 1] == c;
      }
      var j :| ReplacedAt(u, c, rep, tail, j);
      assert s[..j + 1] == [s[0]] + u[..j];
      assert s[j + 2..] == u[j + 1..];
      assert [s[0]] + tail == s[..j + 1] + rep + s[j + 2..];
      assert ReplacedAt(s, c, rep, [s[0]] + tail, j + 1);
    }
  }
}
