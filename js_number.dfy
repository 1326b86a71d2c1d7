/** Models of the JavaScript number built-ins the core relies on, restricted to
    integer values: `Number.prototype.toString()` and `parseInt`. */
module JsNumber {
  import opened Wrappers

  predicate IsDigit(c: char)
  {
    '0' <= c <= '9'
  }

  predicate AllDigits(s: string)
  {
    forall i :: 0 <= i < |s| ==> IsDigit(s[i])
  }

  function DigitChar(d: nat): (c: char)
    requires d < 10
    ensures IsDigit(c)
  {
    ('0' as int + d) as char
  }

  /** The decimal digits of a natural number, most significant first. */
  function DecimalString(n: nat): (s: string)
    ensures |s| >= 1 && AllDigits(s)
    ensures s[0] == '0' <==> n == 0
    ensures n < 10 <==> |s| == 1
  {
    if n < 10 then [DigitChar(n)] else DecimalString(n / 10) + [DigitChar(n % 10)]
  }

  /** `n.toString()` for an integer: a minus sign exactly for a negative
      number, then the decimal digits of the magnitude. A JavaScript number
      holds every integer exactly only up to 2^53 in magnitude; beyond that
      the model is exact where the program is not. */
  function IntToString(n: int): (r: string)
    ensures |r| >= 1 && (r[0] == '-' <==> n < 0)
    ensures forall k :: (if n < 0 then 1 else 0) <= k < |r| ==> IsDigit(r[k])
  {
    if n < 0 then "-" + DecimalString(-n) else DecimalString(n)
  }

  /** A natural number has at most three digits exactly when it is below 1000. */
  lemma {:induction false} DecimalLength(n: nat)
    ensures |DecimalString(n)| <= 3 <==> n < 1000
  {
    if n >= 10 {
      DecimalLength(n / 10);
    }
  }

  /** The characters parseInt skips at the start: ECMAScript's WhiteSpace and
      LineTerminator code points. */
  predicate IsWhiteSpace(c: char)
  {
    || c == '\t' || c == '\n' || c == '\U{000B}' || c == '\U{000C}' || c == '\r'
    || c == ' ' || c == '\U{00A0}' || c == '\U{1680}'
    || ('\U{2000}' <= c <= '\U{200A}')
    || c == '\U{2028}' || c == '\U{2029}' || c == '\U{202F}' || c == '\U{205F}'
    || c == '\U{3000}' || c == '\U{FEFF}'
  }

  /** The index of the first character at or after `i` that is not white space. */
  function SkipWhiteSpace(s: string, i: nat): (j: nat)
    requires i <= |s|
    ensures i <= j <= |s|
    ensures forall k :: i <= k < j ==> IsWhiteSpace(s[k])
    ensures j < |s| ==> !IsWhiteSpace(s[j])
    decreases |s| - i
  {
    if i < |s| && IsWhiteSpace(s[i]) then SkipWhiteSpace(s, i + 1) else i
  }

  /** The value of a character read as a digit of bases up to 36; 36 when it
      is no digit at all. */
  function DigitValue(c: char): (v: nat)
    ensures v <= 36
    ensures v < 10 <==> IsDigit(c)
  {
    if '0' <= c <= '9' then c as int - '0' as int
    else if 'a' <= c <= 'z' then c as int - 'a' as int + 10
    else if 'A' <= c <= 'Z' then c as int - 'A' as int + 10
    else 36
  }

  /** The end of the run of base-`radix` digits that starts at `i`. */
  function DigitRunEnd(s: string, i: nat, radix: nat): (j: nat)
    requires i <= |s|
    ensures i <= j <= |s|
    ensures forall k :: i <= k < j ==> DigitValue(s[k]) < radix
    ensures j < |s| ==> DigitValue(s[j]) >= radix
    decreases |s| - i
  {
    if i < |s| && DigitValue(s[i]) < radix then DigitRunEnd(s, i + 1, radix) else i
  }

  /** The value of the base-`radix` digits `s[k..e]`, most significant first. */
  function DigitsValue(s: string, k: nat, e: nat, radix: nat): nat
    requires k <= e <= |s|
    decreases e - k
  {
    if e == k then 0 else DigitsValue(s, k, e - 1, radix) * radix + DigitValue(s[e - 1])
  }

  /** The value of a run of digits depends only on the digits themselves. */
  lemma {:induction false} DigitsValueShift(p: string, d: string, rest: string, e: nat, radix: nat)
    requires e <= |d|
    ensures DigitsValue(p + d + rest, |p|, |p| + e, radix) == DigitsValue(d, 0, e, radix)
    decreases e
  {
    if e > 0 {
      DigitsValueShift(p, d, rest, e - 1, radix);
      assert (p + d + rest)[|p| + e - 1] == d[e - 1];
    }
  }

  /** Whether parseInt was given no radix (and so honours a `0x` prefix) or radix 10. */
  datatype Radix = Auto | Ten

  /** `parseInt(s)` (Auto) or `parseInt(s, 10)` (Ten): skip leading white
      space, read an optional sign; in Auto mode a `0x`/`0X` prefix switches to
      base 16; then read the longest run of digits. None stands for NaN. */
  function ParseInt(s: string, radix: Radix): Option<int>
  {
    var i := SkipWhiteSpace(s, 0);
    var negative := i < |s| && s[i] == '-';
    var j := if i < |s| && (s[i] == '-' || s[i] == '+') then i + 1 else i;
    if radix == Auto && j + 1 < |s| && s[j] == '0' && (s[j + 1] == 'x' || s[j + 1] == 'X')
    then Signed(negative, RunValue(s, j + 2, 16))
    else Signed(negative, RunValue(s, j, 10))
  }

  /** The value of the run of base-`radix` digits starting at `k`; None (NaN)
      when the run is empty. */
  function RunValue(s: string, k: nat, radix: nat): Option<nat>
    requires k <= |s|
  {
    var e := DigitRunEnd(s, k, radix);
    if e == k then None else Some(DigitsValue(s, k, e, radix))
  }

  /** A parsed magnitude with its sign applied. */
  function Signed(negative: bool, magnitude: Option<nat>): Option<int>
  {
    match magnitude
    case None => None
    case Some(v) => Some(if negative then -(v as int) else v)
  }

  /** `parseInt(s) || 0`: NaN (and zero) become 0. */
  function ParseIntOrZero(s: string, radix: Radix): int
  {
    match ParseInt(s, radix)
    case None => 0
    case Some(v) => v
  }

  /** Reading the digits of n back gives n. */
  lemma {:induction false} DigitsValueOfDecimal(n: nat)
    ensures DigitsValue(DecimalString(n), 0, |DecimalString(n)|, 10) == n
  {
    if n >= 10 {
      DigitsValueOfDecimal(n / 10);
      var s, t := DecimalString(n), DecimalString(n / 10);
      DigitsValueShift("", t, [DigitChar(n % 10)], |t|, 10);
      assert "" + t + [DigitChar(n % 10)] == s;
    }
  }

  /** SkipWhiteSpace stops at the first character that is not white space. */
  lemma {:induction false} SkipWhiteSpaceStops(s: string, i: nat, j: nat)
    requires i <= j <= |s|
    requires forall k :: i <= k < j ==> IsWhiteSpace(s[k])
    requires j < |s| ==> !IsWhiteSpace(s[j])
    ensures SkipWhiteSpace(s, i) == j
    decreases j - i
  {
    if i < j {
      SkipWhiteSpaceStops(s, i + 1, j);
    }
  }

  /** DigitRunEnd stops at the first character that is not a digit. */
  lemma {:induction false} DigitRunStops(s: string, i: nat, j: nat, radix: nat)
    requires i <= j <= |s|
    requires forall k :: i <= k < j ==> DigitValue(s[k]) < radix
    requires j < |s| ==> DigitValue(s[j]) >= radix
    ensures DigitRunEnd(s, i, radix) == j
    decreases j - i
  {
    if i < j {
      DigitRunStops(s, i + 1, j, radix);
    }
  }

  lemma SignOrDigitIsNotWhiteSpace(c: char)
    requires IsDigit(c) || c == '-' || c == '+'
    ensures !IsWhiteSpace(c)
  {
  }

  /** parseInt reads an optionally negative run of decimal digits as its
      decimal value, with or without a radix (a leading `0` is never followed
      by `x` here, so no hexadecimal prefix arises). */
  lemma {:induction false} ParseIntOfDigits(negative: bool, d: string, radix: Radix)
    requires |d| > 0 && AllDigits(d)
    ensures ParseInt((if negative then "-" else "") + d, radix)
         == Some(if negative then -(DigitsValue(d, 0, |d|, 10) as int) else DigitsValue(d, 0, |d|, 10))
  {
    var sign := if negative then "-" else "";
    var s := sign + d;
    var j, e := |sign|, |s|;
    assert SkipWhiteSpace(s, 0) == 0 && (0 < |s| && s[0] == '-') == negative by {
      assert s[0] == if negative then '-' else d[0];
      SignOrDigitIsNotWhiteSpace(s[0]);
    }
    assert DigitRunEnd(s, j, 10) == e by {
      assert forall k :: j <= k < e ==> s[k] == d[k - j];
      DigitRunStops(s, j, e, 10);
    }
    assert DigitsValue(s, j, e, 10) == DigitsValue(d, 0, |d|, 10) by {
      DigitsValueShift(sign, d, "", |d|, 10);
      assert sign + d + "" == s;
    }
    assert !(radix == Auto && j + 1 < |s| && s[j] == '0' && (s[j + 1] == 'x' || s[j + 1] == 'X')) by {
      if j + 1 < |s| {
        assert s[j + 1] == d[1];
      }
    }
    ParseIntOfDecimalRun(s, radix, 0, j, e, negative, DigitsValue(d, 0, |d|, 10));
  }

  /** parseInt of a text that, after its white space and sign, holds a
      non-empty run of decimal digits that is no hexadecimal prefix. */
  lemma {:induction false} ParseIntOfDecimalRun(s: string, radix: Radix, i: nat, j: nat, e: nat, negative: bool, v: nat)
    requires SkipWhiteSpace(s, 0) == i
    requires j == if i < |s| && (s[i] == '-' || s[i] == '+') then i + 1 else i
    requires (i < |s| && s[i] == '-') == negative
    requires !(radix == Auto && j + 1 < |s| && s[j] == '0' && (s[j + 1] == 'x' || s[j + 1] == 'X'))
    requires j < e && DigitRunEnd(s, j, 10) == e && DigitsValue(s, j, e, 10) == v
    ensures ParseInt(s, radix) == Some(if negative then -(v as int) else v)
  {
  }

  /** parseInt of the decimal digits of a natural number gives that number. */
  lemma {:induction false} ParseIntOfDecimal(n: nat, radix: Radix)
    ensures ParseInt(DecimalString(n), radix) == Some(n)
  {
    ParseIntOfDigits(false, DecimalString(n), radix);
    assert "" + DecimalString(n) == DecimalString(n);
    DigitsValueOfDecimal(n);
  }

  /** parseInt undoes toString on every integer. */
  lemma {:induction false} ParseIntOfIntToString(n: int, radix: Radix)
    ensures ParseInt(IntToString(n), radix) == Some(n)
  {
    var negative := n < 0;
    var m: nat := if negative then -n else n;
    var d := DecimalString(m);
    ParseIntOfDigits(negative, d, radix);
    DigitsValueOfDecimal(m);
    assert IntToString(n) == (if negative then "-" else "") + d;
  }

  /** Whether a text holds no integer for parseInt to read: after the leading
      white space and one optional sign there is no decimal digit. */
  predicate NoLeadingInteger(s: string)
  {
    var i := SkipWhiteSpace(s, 0);
    var j := if i < |s| && (s[i] == '-' || s[i] == '+') then i + 1 else i;
    j == |s| || !IsDigit(s[j])
  }

  /** Without a leading integer, parseInt gives NaN, with or without a radix. */
  lemma ParseIntNoLeadingDigit(s: string, radix: Radix)
    requires NoLeadingInteger(s)
    ensures ParseInt(s, radix) == None
  {
  }

  /** With radix 10, NaN comes exactly from a text without a leading integer. */
  lemma ParseIntTenIsNaN(s: string)
    ensures ParseInt(s, Ten).None? <==> NoLeadingInteger(s)
  {
    var i := SkipWhiteSpace(s, 0);
    var j := if i < |s| && (s[i] == '-' || s[i] == '+') then i + 1 else i;
    if !NoLeadingInteger(s) {
      assert DigitValue(s[j]) < 10;
      assert DigitRunEnd(s, j, 10) > j;
    }
  }

  /** Without any digit in the text, parseInt gives NaN. */
  lemma ParseIntWithoutDigits(s: string, radix: Radix)
    requires forall i :: 0 <= i < |s| ==> !IsDigit(s[i])
    ensures ParseInt(s, radix) == None
  {
    ParseIntNoLeadingDigit(s, radix);
  }

  /** parseInt of a text made of white space (before `i`), one optional sign
      (at `i`), a run of decimal digits (from `j` up to `e`) and a rest that
      does not start with a digit reads the signed value of those digits.
      Without a radix, `0x` after a lone `0` would switch to base 16, so that
      case is excluded there. */
  lemma ParseIntOfLeadingInteger(s: string, i: nat, j: nat, e: nat, radix: Radix)
    requires i < |s| && !IsWhiteSpace(s[i])
    requires forall k :: 0 <= k < i ==> IsWhiteSpace(s[k])
    requires j == if s[i] == '-' || s[i] == '+' then i + 1 else i
    requires j < e <= |s|
    requires forall k :: j <= k < e ==> IsDigit(s[k])
    requires e < |s| ==> !IsDigit(s[e])
    requires radix == Ten || !(j + 1 < |s| && s[j] == '0' && (s[j + 1] == 'x' || s[j + 1] == 'X'))
    ensures ParseInt(s, radix)
         == Some(if s[i] == '-' then -(DigitsValue(s, j, e, 10) as int) else DigitsValue(s, j, e, 10))
  {
    SkipWhiteSpaceStops(s, 0, i);
    DigitRunStops(s, j, e, 10);
    ParseIntOfDecimalRun(s, radix, i, j, e, s[i] == '-', DigitsValue(s, j, e, 10));
  }
}
