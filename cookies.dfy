/** Reading values out of the browser's cookie string: `getCookie`, `isAuth`
    and `userLogin`. The cookie string `document.cookie` is a parameter; None
    stands for the server side, where there is no document. */
module Cookies {
  import opened Wrappers
  import opened JsString

  /** The cookie string of the page, or None when there is no document. */
  type Document = Option<string>

  /** The index of the first character at or after `i` that is not ' '. */
  function SpacesEnd(c: string, i: nat): (k: nat)
    requires i <= |c|
    ensures i <= k <= |c|
    ensures forall j :: i <= j < k ==> c[j] == ' '
    ensures k < |c| ==> c[k] != ' '
    decreases |c| - i
  {
    if i < |c| && c[i] == ' ' then SpacesEnd(c, i + 1) else i
  }

  /** The entry with its leading spaces (only ' ') removed. */
  function TrimLeadingSpaces(c: string): string
  {
    c[SpacesEnd(c, 0)..]
  }

  predicate StartsWith(s: string, prefix: string)
  {
    |prefix| <= |s| && s[..|prefix|] == prefix
  }

  /** `c.indexOf(prefix) === 0` is the same as starting with `prefix`. */
  lemma IndexOfZeroIsPrefix(c: string, prefix: string)
    ensures IndexOfFrom(c, prefix, 0) == Some(0) <==> StartsWith(c, prefix)
  {
    if StartsWith(c, prefix) {
      assert OccursAt(c, prefix, 0);
    }
  }

  /** Whether a cookie entry is the one for `prefix` (a name followed by '='). */
  predicate Matches(entry: string, prefix: string)
  {
    StartsWith(TrimLeadingSpaces(entry), prefix)
  }

  /** What follows the prefix in a matching entry. */
  function EntryValue(entry: string, prefix: string): string
    requires Matches(entry, prefix)
  {
    TrimLeadingSpaces(entry)[|prefix|..]
  }

  /** The index of the first matching entry at or after `k`; `|entries|`
      when none matches. */
  function FirstMatch(entries: seq<string>, prefix: string, k: nat): (i: nat)
    requires k <= |entries|
    ensures k <= i <= |entries|
    ensures forall j :: k <= j < i ==> !Matches(entries[j], prefix)
    ensures i < |entries| ==> Matches(entries[i], prefix)
    decreases |entries| - k
  {
    if k == |entries| || Matches(entries[k], prefix) then k
    else FirstMatch(entries, prefix, k + 1)
  }

  /** The value for `name` in a cookie string, as `getCookie` finds it. */
  function CookieLookup(doc: Document, name: string): Option<string>
  {
    match doc
    case None => None
    case Some(cookie) =>
      var entries, prefix := Split(cookie, ';'), name + "=";
      var i := FirstMatch(entries, prefix, 0);
      if i < |entries| then Some(EntryValue(entries[i], prefix)) else None
  }

  /** The inner loop of `getCookie`: drop the first character while it is a space. */
  method StripLeadingSpaces(entry: string) returns (c: string)
    ensures c == TrimLeadingSpaces(entry)
  {
    c := entry;
    ghost var k := SpacesEnd(entry, 0);
    while |c| > 0 && c[0] == ' '
      invariant |c| <= |entry| && c == entry[|entry| - |c|..]
      invariant |entry| - |c| <= k
      decreases |c|
    {
      c := c[1..];
    }
  }

  /** `getCookie(name)`: split the cookie string at ';', strip the leading
      spaces of each entry and return the rest of the first entry that starts
      with `name=`; undefined (None) when none does or there is no document. */
  method GetCookie(doc: Document, name: string) returns (r: Option<string>)
    ensures r == CookieLookup(doc, name)
  {
    if doc.None? {
      return None;
    }
    var nameEQ := name + "=";
    var ca := Split(doc.value, ';');
    for i := 0 to |ca|
      invariant forall j :: 0 <= j < i ==> !Matches(ca[j], nameEQ)
    {
      var c := StripLeadingSpaces(ca[i]);
      IndexOfZeroIsPrefix(c, nameEQ);
      if IndexOfFrom(c, nameEQ, 0) == Some(0) {
        assert FirstMatch(ca, nameEQ, 0) == i;
        return Some(c[|nameEQ|..]);
      }
    }
    return None;
  }

  /** A found value never contains ';'. */
  lemma CookieValueLacksSemicolon(cookie: string, name: string)
    requires CookieLookup(Some(cookie), name).Some?
    ensures ';' !in CookieLookup(Some(cookie), name).value
  {
    var entries, prefix := Split(cookie, ';'), name + "=";
    SplitPiecesLackSeparator(cookie, ';');
    var e := entries[FirstMatch(entries, prefix, 0)];
    var k := SpacesEnd(e, 0) + |prefix|;
    var v := CookieLookup(Some(cookie), name).value;
    assert v == e[k..];
    assert forall q :: 0 <= q < |v| ==> v[q] == e[k + q];
  }

  /** The match includes '=': an entry for a longer name that starts with
      `name` (`tokenx=…` for `token`) is not a match. */
  lemma LongerNameDoesNotMatch(name: string, c: char, rest: string)
    requires c != '='
    ensures !StartsWith(name + [c] + rest, name + "=")
  {
    assert (name + [c] + rest)[|name|] == c;
  }

  /** Nor is an entry that ends in `name=` after something else (`xtoken=…`
      for `token`), as long as that something holds no '='. */
  lemma PrefixedNameDoesNotMatch(p: string, name: string, rest: string)
    requires |p| > 0 && '=' !in p && '=' !in name
    ensures !StartsWith(p + name + "=" + rest, name + "=")
  {
    var s := p + name + "=" + rest;
    if |name| < |p| {
      assert s[|name|] == p[|name|];
    } else {
      assert s[|name|] == name[|name| - |p|];
    }
  }

  /** So the lookup of `token` in a cookie string holding just `tokenx=…`
      finds nothing. */
  lemma LongerNameFindsNothing(name: string, c: char, rest: string)
    requires c != '=' && c != ';' && ';' !in name && ';' !in rest
    requires |name| > 0 && name[0] != ' '
    ensures CookieLookup(Some(name + [c] + rest), name) == None
  {
    var e, prefix := name + [c] + rest, name + "=";
    assert ';' !in e by {
      assert forall k :: 0 <= k < |e| ==> e[k] == (if k < |name| then name[k] else if k == |name| then c else rest[k - |name| - 1]);
    }
    SplitWithoutSeparator(e, ';');
    assert SpacesEnd(e, 0) == 0 by {
      assert e[0] == name[0];
    }
    LongerNameDoesNotMatch(name, c, rest);
    assert !Matches(e, prefix);
    assert FirstMatch([e], prefix, 0) == 1;
  }

  /** Nor does the lookup of `token` in a cookie string holding just
      `xtoken=…`. */
  lemma PrefixedNameFindsNothing(p: string, name: string, rest: string)
    requires |p| > 0 && p[0] != ' ' && '=' !in p && '=' !in name
    requires ';' !in p && ';' !in name && ';' !in rest
    ensures CookieLookup(Some(p + name + "=" + rest), name) == None
  {
    var e, prefix := p + name + "=" + rest, name + "=";
    assert ';' !in e by {
      assert forall k :: 0 <= k < |e| ==> e[k] == (if k < |p| then p[k] else if k < |p| + |name| then name[k - |p|] else if k == |p| + |name| then '=' else rest[k - |p| - |name| - 1]);
    }
    SplitWithoutSeparator(e, ';');
    assert SpacesEnd(e, 0) == 0 by {
      assert e[0] == p[0];
    }
    PrefixedNameDoesNotMatch(p, name, rest);
    assert !Matches(e, prefix);
    assert FirstMatch([e], prefix, 0) == 1;
  }

  /** A cookie string holding just `name=value` gives back `value`, even when
      the value itself contains '='. */
  lemma SingleEntry(name: string, value: string)
    requires ';' !in name && ';' !in value
    requires |name| == 0 || name[0] != ' '
    ensures CookieLookup(Some(name + "=" + value), name) == Some(value)
  {
    var e, prefix := name + "=" + value, name + "=";
    assert ';' !in e by {
      assert forall k :: 0 <= k < |e| ==> e[k] == (if k < |name| then name[k] else if k == |name| then '=' else value[k - |name| - 1]);
    }
    SplitWithoutSeparator(e, ';');
    assert SpacesEnd(e, 0) == 0 by {
      assert e[0] != ' ';
    }
    assert Matches(e, prefix) by {
      assert e[..|prefix|] == prefix;
    }
    assert FirstMatch([e], prefix, 0) == 0;
    assert e[|prefix|..] == value;
  }

  /** The earliest entry wins: whatever follows an entry `name=value`,
      including later entries for the same name, the lookup gives `value`. */
  lemma EarliestEntryWins(name: string, value: string, rest: string)
    requires ';' !in name && ';' !in value
    requires |name| == 0 || name[0] != ' '
    ensures CookieLookup(Some(name + "=" + value + ";" + rest), name) == Some(value)
  {
    var e, prefix := name + "=" + value, name + "=";
    assert ';' !in e by {
      assert forall k :: 0 <= k < |e| ==> e[k] == (if k < |name| then name[k] else if k == |name| then '=' else value[k - |name| - 1]);
    }
    assert name + "=" + value + ";" + rest == e + [';'] + rest;
    SplitAround(e, rest, ';');
    SplitWithoutSeparator(e, ';');
    var entries := Split(e + [';'] + rest, ';');
    assert entries[0] == e;
    assert SpacesEnd(e, 0) == 0 by {
      assert e[0] != ' ';
    }
    assert Matches(e, prefix) by {
      assert e[..|prefix|] == prefix;
    }
    assert FirstMatch(entries, prefix, 0) == 0;
    assert e[|prefix|..] == value;
  }

  /** JavaScript truthiness of `getCookie`'s result: undefined and '' are falsy. */
  predicate Truthy(v: Option<string>)
  {
    v.Some? && v.value != ""
  }

  /** `isAuth()`: whether the `token` cookie holds a non-empty value. */
  method IsAuth(doc: Document) returns (r: bool)
    ensures r <==> Truthy(CookieLookup(doc, "token"))
  {
    var token := GetCookie(doc, "token");
    r := token.Some? && token.value != "";
  }

  /** The object `userLogin()` returns; `email` may be undefined. */
  datatype LoginInfo = LoginInfo(user_id: string, token: string, email: Option<string>)

  /** `userLogin()`: the `user_id`, `token` and `email` cookies when the first
      two are non-empty; null (None) otherwise. */
  method UserLogin(doc: Document) returns (r: Option<LoginInfo>)
    ensures r.Some? <==> Truthy(CookieLookup(doc, "user_id")) && Truthy(CookieLookup(doc, "token"))
    ensures r.Some? ==> r.value == LoginInfo(CookieLookup(doc, "user_id").value,
                                             CookieLookup(doc, "token").value,
                                             CookieLookup(doc, "email"))
  {
    var user_id := GetCookie(doc, "user_id");
    var token := GetCookie(doc, "token");
    var email := GetCookie(doc, "email");
    if user_id.Some? && user_id.value != "" && token.Some? && token.value != "" {
      return Some(LoginInfo(user_id.value, token.value, email));
    }
    return None;
  }
}
