/** Models of the JavaScript string built-ins the core relies on. A Dafny
    `string` is a sequence of Unicode scalar values, while JavaScript indexes
    UTF-16 code units; the two agree on text without surrogate pairs, which
    is all these operations are stated for. */
module JsString {
  import opened Wrappers

  /** `s.split(sep)` for a one-character separator: the pieces between
      separators, left to right; an empty string gives `[""]`. */
  function Split(s: string, sep: char): (parts: seq<string>)
    ensures |parts| >= 1
  {
    if |s| == 0 then [""]
    else
      var rest := Split(s[1..], sep);
      if s[0] == sep then [""] + rest
      else [[s[0]] + rest[0]] + rest[1..]
  }

  /** `parts.join(sep)`. */
  function Join(parts: seq<string>, sep: char): string
  {
    if |parts| == 0 then ""
    else if |parts| == 1 then parts[0]
    else parts[0] + [sep] + Join(parts[1..], sep)
  }

  /** Joining the pieces again gives back the string that was split. */
  lemma {:induction false} JoinSplit(s: string, sep: char)
    ensures Join(Split(s, sep), sep) == s
  {
    if |s| > 0 {
      var rest := Split(s[1..], sep);
      JoinSplit(s[1..], sep);
      if s[0] != sep && |rest| > 1 {
        assert Join(rest, sep) == rest[0] + [sep] + Join(rest[1..], sep);
        assert Join([[s[0]] + rest[0]] + rest[1..], sep)
            == [s[0]] + rest[0] + [sep] + Join(rest[1..], sep);
      }
    }
  }

  /** No piece of a split contains the separator. */
  lemma {:induction false} SplitPiecesLackSeparator(s: string, sep: char)
    ensures forall i :: 0 <= i < |Split(s, sep)| ==> sep !in Split(s, sep)[i]
  {
    if |s| > 0 {
      SplitPiecesLackSeparator(s[1..], sep);
      var rest := Split(s[1..], sep);
      if s[0] != sep {
        var parts := Split(s, sep);
        forall i | 0 <= i < |parts| ensures sep !in parts[i] {
          if i == 0 {
            assert parts[0] == [s[0]] + rest[0];
          } else {
            assert parts[i] == rest[i];
          }
        }
      }
    }
  }

  /** Splitting a join of separator-free pieces gives back those pieces. With
      JoinSplit and SplitPiecesLackSeparator, this says that Split is the one
      inverse of Join. */
  lemma {:induction false} SplitJoin(parts: seq<string>, sep: char)
    requires |parts| >= 1
    requires forall i :: 0 <= i < |parts| ==> sep !in parts[i]
    ensures Split(Join(parts, sep), sep) == parts
    decreases |parts|, |parts[0]|
  {
    if parts[0] == "" {
      if |parts| > 1 {
        var tail := parts[1..];
        SplitJoin(tail, sep);
        assert Join(parts, sep) == [sep] + Join(tail, sep);
        assert ([sep] + Join(tail, sep))[1..] == Join(tail, sep);
        assert parts == [""] + tail;
      }
    } else {
      var c, t := parts[0][0], parts[0][1..];
      assert parts[0] == [c] + t;
      var shorter := [t] + parts[1..];
      SplitJoin(shorter, sep);
      assert Join(parts, sep) == [c] + Join(shorter, sep) by {
        if |parts| > 1 {
          assert Join(shorter, sep) == t + [sep] + Join(parts[1..], sep);
        }
      }
      assert ([c] + Join(shorter, sep))[1..] == Join(shorter, sep);
      var rest := Split(Join(shorter, sep), sep);
      assert rest == shorter;
      assert parts == [[c] + rest[0]] + rest[1..];
    }
  }

  /** A split without its separator is a single piece. */
  lemma SplitWithoutSeparator(s: string, sep: char)
    requires sep !in s
    ensures Split(s, sep) == [s]
  {
    SplitJoin([s], sep);
  }

  /** Joining two non-empty lists of pieces puts one separator between them. */
  lemma {:induction false} JoinAppend(p: seq<string>, q: seq<string>, sep: char)
    requires |p| >= 1 && |q| >= 1
    ensures Join(p + q, sep) == Join(p, sep) + [sep] + Join(q, sep)
  {
    if |p| > 1 {
      JoinAppend(p[1..], q, sep);
      assert (p + q)[1..] == p[1..] + q;
    } else {
      assert (p + q)[1..] == q;
    }
  }

  /** Pieces that lack the separator still lack it side by side. */
  lemma PiecesLackSeparatorAppend(p: seq<string>, q: seq<string>, sep: char)
    requires forall i :: 0 <= i < |p| ==> sep !in p[i]
    requires forall i :: 0 <= i < |q| ==> sep !in q[i]
    ensures forall i :: 0 <= i < |p + q| ==> sep !in (p + q)[i]
  {
    forall i | 0 <= i < |p + q| ensures sep !in (p + q)[i] {
      if i >= |p| { assert (p + q)[i] == q[i - |p|]; }
    }
  }

  /** A separator in the middle splits into the pieces of either side. */
  lemma SplitAround(a: string, b: string, sep: char)
    ensures Split(a + [sep] + b, sep) == Split(a, sep) + Split(b, sep)
  {
    var pa, pb := Split(a, sep), Split(b, sep);
    SplitPiecesLackSeparator(a, sep);
    SplitPiecesLackSeparator(b, sep);
    PiecesLackSeparatorAppend(pa, pb, sep);
    JoinSplit(a, sep);
    JoinSplit(b, sep);
    JoinAppend(pa, pb, sep);
    assert Join(pa + pb, sep) == a + [sep] + b;
    SplitJoin(pa + pb, sep);
  }

  /** True when `pat` occurs in `s` at index `j`. */
  predicate OccursAt(s: string, pat: string, j: int)
  {
    0 <= j && j + |pat| <= |s| && s[j..j + |pat|] == pat
  }

  /** `s.indexOf(pat, i)`: the first index at or after `i` where `pat` occurs. */
  function IndexOfFrom(s: string, pat: string, i: nat): (r: Option<nat>)
    requires i <= |s|
    ensures r.Some? ==> i <= r.value && OccursAt(s, pat, r.value)
    ensures r.Some? ==> forall j :: i <= j < r.value ==> !OccursAt(s, pat, j)
    ensures r.None? ==> forall j :: i <= j ==> !OccursAt(s, pat, j)
    decreases |s| - i
  {
    if i + |pat| > |s| then None
    else if s[i..i + |pat|] == pat then Some(i)
    else if i == |s| then None
    else IndexOfFrom(s, pat, i + 1)
  }

  /** `s.replace(pat, rep)` with a string pattern: only the first occurrence
      is replaced; without one, `s` is returned unchanged. */
  function ReplaceFirst(s: string, pat: string, rep: string): string
  {
    match IndexOfFrom(s, pat, 0)
    case None => s
    case Some(j) => s[..j] + rep + s[j + |pat|..]
  }

  /** A pattern at the very start is the occurrence ReplaceFirst replaces. */
  lemma ReplaceFirstAtStart(pat: string, t: string, rep: string)
    ensures ReplaceFirst(pat + t, pat, rep) == rep + t
  {
    assert OccursAt(pat + t, pat, 0) by { assert (pat + t)[0..|pat|] == pat; }
    assert (pat + t)[|pat|..] == t;
  }

  /** Without an occurrence, ReplaceFirst changes nothing. */
  lemma ReplaceFirstAbsent(s: string, pat: string, rep: string)
    requires forall j :: !OccursAt(s, pat, j)
    ensures ReplaceFirst(s, pat, rep) == s
  {
  }

  /** `s.replace(/c/g, '')`: every occurrence of the character removed. */
  function RemoveChar(s: string, c: char): (r: string)
  {
    if |s| == 0 then ""
    else (if s[0] == c then "" else [s[0]]) + RemoveChar(s[1..], c)
  }

  /** Nothing of the character is left, and nothing else is added. */
  lemma {:induction false} RemoveCharRemovesAll(s: string, c: char)
    ensures c !in RemoveChar(s, c) && |RemoveChar(s, c)| <= |s|
  {
    if |s| > 0 {
      RemoveCharRemovesAll(s[1..], c);
    }
  }

  /** Removing a character distributes over concatenation. */
  lemma {:induction false} RemoveCharAppend(a: string, b: string, c: char)
    ensures RemoveChar(a + b, c) == RemoveChar(a, c) + RemoveChar(b, c)
  {
    if |a| == 0 {
      assert a + b == b;
    } else {
      var h, t := a[0], a[1..];
      var m: string := if h == c then "" else [h];
      assert RemoveChar(a + b, c) == m + RemoveChar(t + b, c) by {
        assert a + b == [h] + (t + b);
        RemoveCharCons(h, t + b, c);
      }
      assert RemoveChar(a, c) == m + RemoveChar(t, c) by {
        assert a == [h] + t;
        RemoveCharCons(h, t, c);
      }
      RemoveCharAppend(t, b, c);
    }
  }

  /** The removed character between two strings leaves just the two. */
  lemma RemoveCharAround(x: string, y: string, c: char)
    ensures RemoveChar(x + [c] + y, c) == RemoveChar(x, c) + RemoveChar(y, c)
  {
    assert RemoveChar([c] + y, c) == RemoveChar(y, c) by {
      RemoveCharCons(c, y, c);
    }
    assert x + [c] + y == x + ([c] + y);
    RemoveCharAppend(x, [c] + y, c);
  }

  /** Removing a character from a string with a first character. */
  lemma RemoveCharCons(h: char, t: string, c: char)
    ensures RemoveChar([h] + t, c) == (if h == c then "" else [h]) + RemoveChar(t, c)
  {
    assert ([h] + t)[0] == h && ([h] + t)[1..] == t;
  }

  /** Putting the removed character in front changes nothing once it is
      removed again. */
  lemma RemoveCharMarked(mark: string, h: char, rest: string, tail: string, c: char)
    requires mark == "" || mark == [c]
    requires RemoveChar(rest, c) == RemoveChar(tail, c)
    ensures RemoveChar(mark + [h] + rest, c) == RemoveChar([h] + tail, c)
  {
    RemoveCharCons(h, rest, c);
    RemoveCharCons(h, tail, c);
    if mark == [c] {
      assert mark + [h] + rest == [c] + ([h] + rest);
      RemoveCharCons(c, [h] + rest, c);
    } else {
      assert mark + [h] + rest == [h] + rest;
    }
  }

  /** A string without the character is left as it is. */
  lemma {:induction false} RemoveCharAbsent(s: string, c: char)
    requires c !in s
    ensures RemoveChar(s, c) == s
  {
    if |s| > 0 {
      RemoveCharAbsent(s[1..], c);
      assert s == [s[0]] + s[1..];
    }
  }

  /** `c.toLowerCase()` for the ASCII letters; every other character is kept. */
  function LowerChar(c: char): char
  {
    if 'A' <= c <= 'Z' then (c as int - 'A' as int + 'a' as int) as char else c
  }

  predicate IsUpper(c: char)
  {
    'A' <= c <= 'Z'
  }

  /** `s.toLowerCase()` on ASCII text: no upper-case letter is left, every
      other character stays where it was, and each upper-case letter becomes
      its lower-case partner. */
  function ToLower(s: string): (r: string)
    ensures |r| == |s|
    ensures forall i :: 0 <= i < |r| ==> !IsUpper(r[i])
    ensures forall i :: 0 <= i < |s| && !IsUpper(s[i]) ==> r[i] == s[i]
    ensures forall i :: 0 <= i < |s| && IsUpper(s[i]) ==> r[i] as int == s[i] as int + 32
  {
    seq(|s|, i requires 0 <= i < |s| => LowerChar(s[i]))
  }

  /** A text without upper-case letters is its own lower-case form. */
  lemma ToLowerOfLowerCase(s: string)
    requires forall i :: 0 <= i < |s| ==> !IsUpper(s[i])
    ensures ToLower(s) == s
  {
  }

  /** Lowering twice is lowering once. */
  lemma ToLowerIdempotent(s: string)
    ensures ToLower(ToLower(s)) == ToLower(s)
  {
    ToLowerOfLowerCase(ToLower(s));
  }
}
