/** The price formatter `strPrice` and the regular expression it uses to put
    thousands separators into a number. */
module StringHelper {
  import opened JsString
  import opened JsNumber

  /** Characters matched by `\w`. */
  predicate IsWordChar(c: char)
  {
    'a' <= c <= 'z' || 'A' <= c <= 'Z' || '0' <= c <= '9' || c == '_'
  }

  /** `\B` at position p (between `s[p - 1]` and `s[p]`): both neighbours are
      word characters or neither is; a missing neighbour is no word character. */
  predicate NonBoundary(s: string, p: nat)
    requires p <= |s|
  {
    (p > 0 && IsWordChar(s[p - 1])) == (p < |s| && IsWordChar(s[p]))
  }

  /** The number of consecutive decimal digits starting at p. */
  function DigitRunLength(s: string, p: nat): (n: nat)
    requires p <= |s|
    ensures p + n <= |s|
    ensures forall k :: p <= k < p + n ==> IsDigit(s[k])
    ensures p + n < |s| ==> !IsDigit(s[p + n])
    decreases |s| - p
  {
    if p < |s| && IsDigit(s[p]) then 1 + DigitRunLength(s, p + 1) else 0
  }

  /** `(\d{3})+` matches `k` groups of three from p and `(?!\d)` right after. */
  predicate TriplesThenNoDigit(s: string, p: nat, k: nat)
  {
    && 1 <= k && p + 3 * k <= |s|
    && (forall i :: p <= i < p + 3 * k ==> IsDigit(s[i]))
    && (p + 3 * k == |s| || !IsDigit(s[p + 3 * k]))
  }

  /** The lookahead `(?=(\d{3})+(?!\d))` at p, as the pattern reads. */
  ghost predicate Lookahead(s: string, p: nat)
  {
    exists k: nat :: TriplesThenNoDigit(s, p, k)
  }

  /** Whether the pattern `\B(?=(\d{3})+(?!\d))` matches at p. */
  predicate SeparatorAt(s: string, p: nat)
    requires p <= |s|
  {
    var n := DigitRunLength(s, p);
    NonBoundary(s, p) && n > 0 && n % 3 == 0
  }

  /** The lookahead holds exactly when the run of digits from p is a non-empty
      multiple of three long, which is what SeparatorAt tests. */
  lemma LookaheadIsWholeTriples(s: string, p: nat)
    requires p <= |s|
    ensures Lookahead(s, p) <==> DigitRunLength(s, p) > 0 && DigitRunLength(s, p) % 3 == 0
  {
    var n := DigitRunLength(s, p);
    if n > 0 && n % 3 == 0 {
      assert TriplesThenNoDigit(s, p, n / 3);
    }
    if Lookahead(s, p) {
      var k: nat :| TriplesThenNoDigit(s, p, k);
      assert n == 3 * k;
    }
  }

  /** `s.replace(/\B(?=(\d{3})+(?!\d))/g, '.')` from position p on: a '.' goes
      in front of every character at which the pattern matches. The pattern
      cannot match at the very end, where no digit follows. */
  function InsertSeparators(s: string, p: nat): (r: string)
    requires p <= |s|
    ensures |r| >= |s| - p
    decreases |s| - p
  {
    if p == |s| then ""
    else (if SeparatorAt(s, p) then "." else "") + [s[p]] + InsertSeparators(s, p + 1)
  }

  /** The whole replacement. */
  function GroupThousands(s: string): string
  {
    InsertSeparators(s, 0)
  }

  /** The replacement only inserts separators: taking every '.' out again gives
      what taking them out of the input gives. */
  lemma {:induction false} InsertSeparatorsOnlyInserts(s: string, p: nat)
    requires p <= |s|
    ensures RemoveChar(InsertSeparators(s, p), '.') == RemoveChar(s[p..], '.')
    decreases |s| - p
  {
    if p < |s| {
      InsertSeparatorsOnlyInserts(s, p + 1);
      var mark: string := if SeparatorAt(s, p) then "." else "";
      RemoveCharMarked(mark, s[p], InsertSeparators(s, p + 1), s[p + 1..], '.');
      assert s[p..] == [s[p]] + s[p + 1..];
    }
  }

  /** Reference grouping of a digit string: groups of three counted from the
      right, joined by '.'; the leftmost group keeps one to three digits. */
  function Group(d: string): string
    decreases |d|
  {
    if |d| <= 3 then d else Group(d[..|d| - 3]) + "." + d[|d| - 3..]
  }

  /** Separators in front of every character that is followed by a multiple of
      three characters (itself included): the replacement inside a run of
      digits that is preceded by a digit. */
  function Interior(t: string): string
  {
    if |t| == 0 then "" else (if |t| % 3 == 0 then "." else "") + [t[0]] + Interior(t[1..])
  }

  lemma {:induction false} InteriorShort(t: string)
    requires |t| < 3
    ensures Interior(t) == t
  {
    if |t| > 0 {
      InteriorShort(t[1..]);
      assert t == [t[0]] + t[1..];
    }
  }

  /** Three more characters at the end add one more group. */
  lemma {:induction false} InteriorAppendTriple(x: string, b: string)
    requires |b| == 3
    ensures Interior(x + b) == Interior(x) + "." + b
  {
    if |x| == 0 {
      assert x + b == b;
      InteriorShort(b[1..]);
      assert b == [b[0]] + b[1..];
    } else {
      assert (x + b)[1..] == x[1..] + b;
      InteriorAppendTriple(x[1..], b);
    }
  }

  /** Group in the same shape as the replacement: the first digit, then the
      interior separators. */
  lemma {:induction false} GroupIsInterior(d: string)
    requires |d| >= 1
    ensures Group(d) == [d[0]] + Interior(d[1..])
    decreases |d|
  {
    if |d| <= 3 {
      InteriorShort(d[1..]);
      assert d == [d[0]] + d[1..];
    } else {
      var a, b := d[..|d| - 3], d[|d| - 3..];
      var x := Interior(a[1..]);
      assert Group(d) == Group(a) + "." + b;
      GroupIsInterior(a);
      assert Interior(d[1..]) == x + "." + b by {
        InteriorAppendTriple(a[1..], b);
        assert a[1..] + b == d[1..];
      }
      assert a[0] == d[0];
      assert [a[0]] + x + "." + b == [d[0]] + (x + "." + b);
    }
  }

  /** Inside a run of digits that reaches the end, the pattern matches exactly
      where a multiple of three digits remains. */
  lemma {:induction false} SeparatorsInDigits(s: string, p: nat)
    requires 0 < p <= |s|
    requires forall k :: p - 1 <= k < |s| ==> IsDigit(s[k])
    ensures InsertSeparators(s, p) == Interior(s[p..])
    decreases |s| - p
  {
    if p < |s| {
      var n := DigitRunLength(s, p);
      assert n == |s| - p;
      assert SeparatorAt(s, p) <==> (|s| - p) % 3 == 0 by {
        assert IsWordChar(s[p - 1]) && IsWordChar(s[p]);
      }
      SeparatorsInDigits(s, p + 1);
      assert s[p..][1..] == s[p + 1..];
    }
  }

  /** Where the pattern does not match, the character is copied as it is. */
  lemma InsertSeparatorsCopies(s: string, p: nat)
    requires p < |s| && !SeparatorAt(s, p)
    ensures InsertSeparators(s, p) == [s[p]] + InsertSeparators(s, p + 1)
  {
    assert "" + [s[p]] == [s[p]];
  }

  /** The pattern never matches in front of a character that is no digit. */
  lemma NoSeparatorBeforeNonDigit(s: string, p: nat)
    requires p < |s| && !IsDigit(s[p])
    ensures !SeparatorAt(s, p)
  {
    assert DigitRunLength(s, p) == 0;
  }

  /** Nor at a word boundary: at the start before a word character, or
      between a non-word character and a word character. */
  lemma NoSeparatorAtBoundary(s: string, p: nat)
    requires p < |s| && IsWordChar(s[p])
    requires p == 0 || !IsWordChar(s[p - 1])
    ensures !SeparatorAt(s, p)
  {
    assert !NonBoundary(s, p);
  }

  /** On a plain digit string the replacement is the reference grouping. */
  lemma GroupThousandsOfDigits(d: string)
    requires |d| >= 1 && AllDigits(d)
    ensures GroupThousands(d) == Group(d)
  {
    assert IsWordChar(d[0]);
    NoSeparatorAtBoundary(d, 0);
    InsertSeparatorsCopies(d, 0);
    SeparatorsInDigits(d, 1);
    GroupIsInterior(d);
  }

  /** After a minus sign the digits are grouped the same way. */
  lemma GroupThousandsOfNegative(s: string)
    requires |s| >= 2 && s[0] == '-'
    requires forall k :: 1 <= k < |s| ==> IsDigit(s[k])
    ensures GroupThousands(s) == "-" + Group(s[1..])
  {
    var d := s[1..];
    var g := Interior(d[1..]);
    assert InsertSeparators(s, 2) == g by {
      SeparatorsInDigits(s, 2);
      assert s[2..] == d[1..];
    }
    assert IsWordChar(s[1]);
    NoSeparatorAtBoundary(s, 1);
    InsertSeparatorsCopies(s, 1);
    NoSeparatorBeforeNonDigit(s, 0);
    InsertSeparatorsCopies(s, 0);
    GroupIsInterior(d);
  }

  /** The separator pattern applied to the text of an integer. */
  lemma GroupThousandsOfInt(n: int)
    ensures GroupThousands(IntToString(n))
         == (if n < 0 then "-" else "") + Group(DecimalString(if n < 0 then -n else n))
  {
    if n < 0 {
      var s, d := IntToString(n), DecimalString(-n);
      assert s == "-" + d && s[1..] == d;
      assert forall k :: 1 <= k < |s| ==> IsDigit(s[k]) by {
        assert forall k :: 1 <= k < |s| ==> s[k] == d[k - 1];
      }
      GroupThousandsOfNegative(s);
    } else {
      GroupThousandsOfDigits(DecimalString(n));
    }
  }

  /** Taking the separators out of a grouping gives back the digits. */
  lemma {:induction false} GroupRemoveSeparators(d: string)
    requires '.' !in d
    ensures RemoveChar(Group(d), '.') == d
    decreases |d|
  {
    if |d| <= 3 {
      RemoveCharAbsent(d, '.');
    } else {
      var a, b := d[..|d| - 3], d[|d| - 3..];
      assert '.' !in a && '.' !in b by {
        assert forall k :: 0 <= k < |a| ==> a[k] == d[k];
        assert forall k :: 0 <= k < |b| ==> b[k] == d[|d| - 3 + k];
      }
      GroupRemoveSeparators(a);
      assert Group(d) == Group(a) + ['.'] + b;
      RemoveCharAround(Group(a), b, '.');
      RemoveCharAbsent(b, '.');
      assert a + b == d;
    }
  }

  /** A grouping holds a separator exactly when there are more than three digits. */
  lemma {:induction false} GroupHasSeparator(d: string)
    requires '.' !in d
    ensures '.' in Group(d) <==> |d| > 3
  {
    if |d| > 3 {
      var a, b := d[..|d| - 3], d[|d| - 3..];
      assert (Group(a) + "." + b)[|Group(a)|] == '.';
    }
  }

  /** Splitting a grouping at its separators gives the groups: the first one
      of one to three digits, every later one of exactly three, as many as
      the digits need. */
  lemma {:induction false} GroupPieces(d: string)
    requires |d| >= 1 && '.' !in d
    ensures var g := Split(Group(d), '.');
      && |g| == (|d| + 2) / 3
      && 1 <= |g[0]| <= 3
      && forall i :: 1 <= i < |g| ==> |g[i]| == 3
    decreases |d|
  {
    if |d| <= 3 {
      SplitWithoutSeparator(d, '.');
    } else {
      var a, b := d[..|d| - 3], d[|d| - 3..];
      assert '.' !in a && '.' !in b by {
        assert forall k :: 0 <= k < |a| ==> a[k] == d[k];
        assert forall k :: 0 <= k < |b| ==> b[k] == d[|d| - 3 + k];
      }
      GroupPieces(a);
      SplitAround(Group(a), b, '.');
      SplitWithoutSeparator(b, '.');
      assert Group(d) == Group(a) + ['.'] + b;
    }
  }

  /** A JavaScript number as far as this model goes: NaN or an integer. */
  datatype NumberValue = NaN | Int(i: int)

  /** The argument of strPrice: a number or a string. */
  datatype PriceArg = NumberArg(n: NumberValue) | StringArg(s: string)

  /** `parseFloat(s)` on texts whose number has no fraction or exponent: the
      leading decimal integer, NaN when there is none. */
  function ParseFloat(s: string): NumberValue
  {
    match ParseInt(s, Ten)
    case None => NaN
    case Some(v) => Int(v)
  }

  /** `strPrice(value)`: a string argument is parsed first; NaN prints as
      `Rp 0`; otherwise `Rp ` and the number's text with thousands separators. */
  function StrPrice(value: PriceArg): (r: string)
    ensures |r| >= 4 && r[..3] == "Rp "
  {
    var num := match value
      case StringArg(s) => ParseFloat(s)
      case NumberArg(n) => n;
    match num
    case NaN => "Rp 0"
    case Int(i) => "Rp " + GroupThousands(IntToString(i))
  }

  /** An integer is printed as its sign and its grouped digits. */
  lemma StrPriceOfInt(n: int)
    ensures StrPrice(NumberArg(Int(n)))
         == "Rp " + (if n < 0 then "-" else "") + Group(DecimalString(if n < 0 then -n else n))
  {
    var sign: string := if n < 0 then "-" else "";
    var g := Group(DecimalString(if n < 0 then -n else n));
    GroupThousandsOfInt(n);
    assert "Rp " + sign + g == "Rp " + (sign + g);
  }

  /** Dropping the separators from a grouped integer gives its plain text. */
  lemma GroupThousandsRemoved(n: int)
    ensures RemoveChar(GroupThousands(IntToString(n)), '.') == IntToString(n)
  {
    GroupThousandsOfInt(n);
    var m := if n < 0 then -n else n;
    var sign: string := if n < 0 then "-" else "";
    assert '.' !in DecimalString(m) by {
      assert forall k :: 0 <= k < |DecimalString(m)| ==> IsDigit(DecimalString(m)[k]);
    }
    GroupRemoveSeparators(DecimalString(m));
    RemoveCharAppend(sign, Group(DecimalString(m)), '.');
    RemoveCharAbsent(sign, '.');
  }

  /** Dropping the separators from the printed amount gives the integer's own text. */
  lemma StrPriceRemovesToText(n: int)
    ensures RemoveChar(StrPrice(NumberArg(Int(n)))[3..], '.') == IntToString(n)
  {
    var r := StrPrice(NumberArg(Int(n)));
    assert r[3..] == GroupThousands(IntToString(n));
    GroupThousandsRemoved(n);
  }

  /** The printed amount has a separator exactly when the magnitude reaches 1000. */
  lemma StrPriceSeparated(n: int)
    ensures '.' in StrPrice(NumberArg(Int(n))) <==> n <= -1000 || n >= 1000
  {
    var r := StrPrice(NumberArg(Int(n)));
    StrPriceOfInt(n);
    var m := if n < 0 then -n else n;
    var sign: string := if n < 0 then "-" else "";
    var g := Group(DecimalString(m));
    assert r == "Rp " + sign + g;
    assert '.' !in DecimalString(m) by {
      assert forall k :: 0 <= k < |DecimalString(m)| ==> IsDigit(DecimalString(m)[k]);
    }
    GroupHasSeparator(DecimalString(m));
    DecimalLength(m);
    assert '.' in r <==> '.' in g by {
      assert forall k :: 0 <= k < |"Rp " + sign| ==> r[k] != '.';
      assert forall k :: 0 <= k < |g| ==> r[|"Rp " + sign| + k] == g[k];
    }
  }

  /** The text of an integer prices the same as the integer itself. */
  lemma StrPriceOfNumericText(n: int)
    ensures StrPrice(StringArg(IntToString(n))) == StrPrice(NumberArg(Int(n)))
  {
    ParseIntOfIntToString(n, Ten);
  }

  /** parseFloat gives NaN exactly for a text without a leading integer. */
  lemma ParseFloatIsNaN(s: string)
    ensures ParseFloat(s) == NaN <==> NoLeadingInteger(s)
  {
    ParseIntTenIsNaN(s);
  }

  /** A text without a leading integer (say `x5` or `abc`) prints as `Rp 0`,
      whatever digits come later. */
  lemma StrPriceOfText(s: string)
    requires NoLeadingInteger(s)
    ensures StrPrice(StringArg(s)) == "Rp 0"
  {
    ParseIntNoLeadingDigit(s, Ten);
  }

  /** The replacement adds no character but the separator. */
  lemma {:induction false} InsertSeparatorsLacks(s: string, p: nat, c: char)
    requires p <= |s| && c != '.' && c !in s
    ensures c !in InsertSeparators(s, p)
    decreases |s| - p
  {
    if p < |s| {
      InsertSeparatorsLacks(s, p + 1, c);
      var m: string := if SeparatorAt(s, p) then "." else "";
      var r := m + [s[p]] + InsertSeparators(s, p + 1);
      assert forall k :: 0 <= k < |r| ==> r[k] == if k < |m| then '.' else if k == |m| then s[p] else InsertSeparators(s, p + 1)[k - |m| - 1];
    }
  }

  /** The printed amount holds no `R` after its `Rp ` prefix. */
  lemma StrPriceAmountLacksR(n: int)
    ensures 'R' !in StrPrice(NumberArg(Int(n)))[3..]
  {
    var t := IntToString(n);
    assert 'R' !in t by {
      assert forall k :: 0 <= k < |t| ==> t[k] == '-' || IsDigit(t[k]);
    }
    InsertSeparatorsLacks(t, 0, 'R');
    assert StrPrice(NumberArg(Int(n)))[3..] == GroupThousands(t);
  }
}
