/** JavaScript's number/string conversions as far as the validator observes them:
    the text `Number.prototype.toString` gives an integer, and whether `Number(text)`
    is a number at all (the StringNumericLiteral grammar of section 7.1.4.1.1 of ECMA-262;
    text outside that grammar converts to NaN). */
module JsNumber {
  import opened JsString

  predicate IsDigit(c: char) { '0' <= c <= '9' }

  /** Zero or more decimal digits. */
  predicate AllDigits(s: string) {
    All(s, IsDigit)
  }

  /** DecimalDigits: one or more decimal digits, without separators. */
  predicate DecimalDigits(s: string) {
    |s| > 0 && AllDigits(s)
  }

  predicate IsBinaryDigit(c: char) { c == '0' || c == '1' }
  predicate IsOctalDigit(c: char) { '0' <= c <= '7' }
  predicate IsHexDigit(c: char) { IsDigit(c) || 'a' <= c <= 'f' || 'A' <= c <= 'F' }

  /** NonDecimalIntegerLiteral: `0b`/`0B`, `0o`/`0O` or `0x`/`0X` and at least one digit of
      that base; no sign is allowed in front of it. */
  predicate NonDecimalIntegerLiteral(t: string) {
    && |t| >= 3 && t[0] == '0'
    && (|| ((t[1] == 'b' || t[1] == 'B') && All(t[2..], IsBinaryDigit))
        || ((t[1] == 'o' || t[1] == 'O') && All(t[2..], IsOctalDigit))
        || ((t[1] == 'x' || t[1] == 'X') && All(t[2..], IsHexDigit)))
  }

  /** SignedInteger: DecimalDigits with an optional `+` or `-`. */
  predicate SignedInteger(t: string) {
    if |t| > 0 && (t[0] == '+' || t[0] == '-') then DecimalDigits(t[1..]) else DecimalDigits(t)
  }

  /** The part of StrUnsignedDecimalLiteral in front of the exponent:
      `DecimalDigits . DecimalDigits?`, `. DecimalDigits` or `DecimalDigits`. */
  predicate Mantissa(m: string) {
    var d := IndexOf(m, '.');
    if d == |m| then DecimalDigits(m)
    else AllDigits(m[..d]) && AllDigits(m[d + 1..]) && (d > 0 || d + 1 < |m|)
  }

  /** The position of the first `e` or `E`, or `|s|`. */
  function ExponentMark(s: string): (i: nat)
    ensures i <= |s|
    ensures i < |s| ==> s[i] == 'e' || s[i] == 'E'
    ensures forall k :: 0 <= k < i ==> s[k] != 'e' && s[k] != 'E'
  {
    if s == [] then 0 else if s[0] == 'e' || s[0] == 'E' then 0 else 1 + ExponentMark(s[1..])
  }

  /** StrUnsignedDecimalLiteral: `Infinity`, or a mantissa with an optional ExponentPart. */
  predicate StrUnsignedDecimalLiteral(u: string) {
    || u == "Infinity"
    || (var e := ExponentMark(u);
        if e == |u| then Mantissa(u) else Mantissa(u[..e]) && SignedInteger(u[e + 1..]))
  }

  /** StrDecimalLiteral: a StrUnsignedDecimalLiteral with an optional `+` or `-`. */
  predicate StrDecimalLiteral(t: string) {
    if |t| > 0 && (t[0] == '+' || t[0] == '-') then StrUnsignedDecimalLiteral(t[1..])
    else StrUnsignedDecimalLiteral(t)
  }

  /** StringNumericLiteral: optional white space around an optional StrNumericLiteral.
      Exactly the strings `Number(s)` does not turn into NaN (all-white-space text gives 0). */
  predicate StringNumericLiteral(s: string) {
    var t := Trim(s);
    t == [] || NonDecimalIntegerLiteral(t) || StrDecimalLiteral(t)
  }

  /** Text that starts with anything but a digit, `.`, a sign or the `I` of `Infinity`, and
      has no white space at either end, is no number. */
  lemma NotNumericByFirstChar(t: string)
    requires t != [] && !IsSpace(t[0]) && !IsSpace(t[|t| - 1])
    requires !IsDigit(t[0]) && t[0] != '.' && t[0] != '+' && t[0] != '-' && t[0] != 'I'
    ensures !StringNumericLiteral(t)
  {
    TrimUnchanged(t);
    var e := ExponentMark(t);
    var m := if e == |t| then t else t[..e];
    assert m != [] ==> m[0] == t[0];
    assert !Mantissa(m) by {
      if m != [] {
        var d := IndexOf(m, '.');
        assert d != 0;
        if d < |m| {
          assert m[..d][0] == m[0];
        }
      }
    }
  }

  function DigitChar(d: nat): (c: char)
    requires d < 10
    ensures IsDigit(c) && DigitValue(c) == d
  {
    (('0' as int) + d) as char
  }

  /** The value of a decimal digit character. */
  function DigitValue(c: char): int {
    (c as int) - ('0' as int)
  }

  /** The number a text of decimal digits spells, most significant digit first. */
  function DigitsValue(s: string): int
    decreases |s|
  {
    if s == [] then 0 else 10 * DigitsValue(s[..|s| - 1]) + DigitValue(s[|s| - 1])
  }

  /** The decimal digits of `n`, most significant first, without leading zeros. */
  function NatText(n: nat): (r: string)
    ensures DecimalDigits(r)
    ensures |r| > 1 ==> r[0] != '0'
  {
    if n < 10 then [DigitChar(n)]
    else
      AllAppend(NatText(n / 10), [DigitChar(n % 10)], IsDigit);
      NatText(n / 10) + [DigitChar(n % 10)]
  }

  /** `String(n)` for an integral number `n` (below 10^21 in magnitude, where JavaScript
      switches to exponent notation). */
  function IntText(n: int): string {
    if n < 0 then "-" + NatText(-n) else NatText(n)
  }

  /** The digits of `NatText(n)` spell `n`. */
  lemma {:induction false} NatTextValue(n: nat)
    ensures DigitsValue(NatText(n)) == n
  {
    if n >= 10 {
      NatTextValue(n / 10);
      var t := NatText(n);
      assert t[..|t| - 1] == NatText(n / 10);
    }
  }

  /** The text of an integer spells it: its digits, after a `-` when it is negative. */
  lemma IntTextValue(n: int)
    ensures n >= 0 ==> DigitsValue(IntText(n)) == n
    ensures n < 0 ==> IntText(n)[0] == '-' && DigitsValue(IntText(n)[1..]) == -n
  {
    if n < 0 {
      NatTextValue(-n);
      assert IntText(n)[1..] == NatText(-n);
    } else {
      NatTextValue(n);
    }
  }

  /** The text of an integer reads back as a number: `isNaN(String(n))` is false, as
      `isNaN(n)` is. */
  lemma IntTextIsNumeric(n: int)
    ensures StringNumericLiteral(IntText(n))
  {
    var t := IntText(n);
    var digits := if n < 0 then NatText(-n) else NatText(n);
    AllAt(digits, IsDigit);
    assert !IsSpace(t[0]) && !IsSpace(t[|t| - 1]);
    TrimUnchanged(t);
    var e := ExponentMark(digits);
    assert e < |digits| ==> IsDigit(digits[e]);
    var d := IndexOf(digits, '.');
    assert d < |digits| ==> IsDigit(digits[d]);
    if n < 0 {
      assert t[1..] == digits;
    }
  }

  /** The text of an integer never contains `@`. */
  lemma IntTextHasNoAt(n: int)
    ensures '@' !in IntText(n)
  {
    var t := IntText(n);
    AllAt(if n < 0 then NatText(-n) else NatText(n), IsDigit);
    if n >= 0 {
      assert forall k :: 0 <= k < |t| ==> IsDigit(t[k]);
    } else {
      assert forall k :: 1 <= k < |t| ==> t[k] == NatText(-n)[k - 1];
    }
  }
}
