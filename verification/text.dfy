/** String helpers with the semantics of the JavaScript built-ins the
    dashboard uses: `String.prototype.trim`, `split` on a one-character
    separator, `indexOf` and `replace` with a string pattern. */
module Text {
  import opened Wrappers

  /** The characters `trim` removes: ECMAScript WhiteSpace and LineTerminator. */
  predicate IsWhitespace(c: char) {
    || c == '\t' || c == '\n' || c == '\U{000B}' || c == '\U{000C}' || c == '\r'
    || c == ' ' || c == '\U{00A0}' || c == '\U{1680}'
    || ('\U{2000}' <= c <= '\U{200A}')
    || c == '\U{2028}' || c == '\U{2029}' || c == '\U{202F}' || c == '\U{205F}'
    || c == '\U{3000}' || c == '\U{FEFF}'
  }

  predicate AllWhitespace(s: string) {
    forall i :: 0 <= i < |s| ==> IsWhitespace(s[i])
  }

  /** The number of leading whitespace characters of `s`. */
  function Leading(s: string): (n: nat)
    ensures n <= |s| && AllWhitespace(s[..n])
    ensures n < |s| ==> !IsWhitespace(s[n])
  {
    if |s| > 0 && IsWhitespace(s[0]) then
      var m := Leading(s[1..]);
      forall i | 0 < i <= m ensures IsWhitespace(s[i]) {
        assert s[i] == s[1..][..m][i - 1];
      }
      m + 1
    else 0
  }

  /** The number of trailing whitespace characters of `s`. */
  function Trailing(s: string): (n: nat)
    ensures n <= |s| && AllWhitespace(s[|s| - n..])
    ensures n < |s| ==> !IsWhitespace(s[|s| - n - 1])
  {
    if |s| > 0 && IsWhitespace(s[|s| - 1]) then
      var t := s[..|s| - 1];
      var m := Trailing(t);
      forall i | |s| - m - 1 <= i < |s| - 1 ensures IsWhitespace(s[i]) {
        assert s[i] == t[|t| - m..][i - (|s| - m - 1)];
      }
      m + 1
    else 0
  }

  /** `s.trim()`: the infix of `s` between its leading and trailing
      whitespace; only whitespace lies outside it. */
  function Trim(s: string): (r: string)
    ensures var k := Leading(s);
      && k + |r| <= |s| && r == s[k..k + |r|]
      && AllWhitespace(s[..k]) && AllWhitespace(s[k + |r|..])
    ensures |r| > 0 ==> !IsWhitespace(r[0]) && !IsWhitespace(r[|r| - 1])
  {
    var k := Leading(s);
    var t := s[k..];
    var e := |t| - Trailing(t);
    assert t[e..] == s[k + e..];
    assert e > 0 ==> s[k + e - 1] == t[e - 1];
    s[k..k + e]
  }

  /** A trimmed line is empty exactly when the line is all whitespace. */
  lemma TrimEmptyIffBlank(s: string)
    ensures Trim(s) == "" <==> AllWhitespace(s)
  {
    var k := Leading(s);
    if Trim(s) == "" {
      forall i | 0 <= i < |s| ensures IsWhitespace(s[i]) {
        assert s[i] == s[..k][i];
      }
    }
  }

  /** `trim` leaves a string alone when neither end is whitespace. */
  lemma TrimKeepsTrimmed(s: string)
    requires |s| == 0 || (!IsWhitespace(s[0]) && !IsWhitespace(s[|s| - 1]))
    ensures Trim(s) == s
  {}

  /** Joins the parts with `sep` between neighbours: the inverse of `Split`. */
  function Join(parts: seq<string>, sep: char): string {
    if |parts| == 0 then ""
    else if |parts| == 1 then parts[0]
    else parts[0] + [sep] + Join(parts[1..], sep)
  }

  predicate NoneContains(parts: seq<string>, c: char) {
    forall i :: 0 <= i < |parts| ==> c !in parts[i]
  }

  lemma {:induction false} JoinSnoc(parts: seq<string>, last: string, sep: char)
    requires |parts| > 0
    ensures Join(parts + [last], sep) == Join(parts, sep) + [sep] + last
  {
    if |parts| == 1 {
      assert (parts + [last])[1..] == [last];
    } else {
      assert (parts + [last])[1..] == parts[1..] + [last];
      JoinSnoc(parts[1..], last, sep);
    }
  }

  lemma JoinCons(first: string, rest: seq<string>, sep: char)
    requires |rest| > 0
    ensures Join([first] + rest, sep) == first + [sep] + Join(rest, sep)
  {
    assert ([first] + rest)[1..] == rest;
  }

  lemma JoinExtendsHead(c: char, parts: seq<string>, sep: char)
    requires |parts| > 0
    ensures Join([[c] + parts[0]] + parts[1..], sep) == [c] + Join(parts, sep)
  {
    if |parts| > 1 {
      JoinCons([c] + parts[0], parts[1..], sep);
      JoinCons(parts[0], parts[1..], sep);
      assert parts == [parts[0]] + parts[1..];
    }
  }

  /** `s.split(sep)` for a one-character separator: the pieces between
      separators, including empty ones, in order. */
  function Split(s: string, sep: char): (r: seq<string>)
    ensures |r| == multiset(s)[sep] + 1
    ensures Join(r, sep) == s
    ensures NoneContains(r, sep)
  {
    if |s| == 0 then [""]
    else
      var rest := Split(s[1..], sep);
      assert s == [s[0]] + s[1..];
      assert multiset(s) == multiset{s[0]} + multiset(s[1..]);
      if s[0] == sep then
        SplitAtSeparator(s[1..], rest, sep);
        [""] + rest
      else
        SplitExtendsHead(s[0], s[1..], rest, sep);
        [[s[0]] + rest[0]] + rest[1..]
  }

  lemma SplitAtSeparator(t: string, rest: seq<string>, sep: char)
    requires |rest| > 0 && Join(rest, sep) == t && NoneContains(rest, sep)
    ensures Join([""] + rest, sep) == [sep] + t && NoneContains([""] + rest, sep)
  {
    JoinCons("", rest, sep);
    assert forall i :: 1 <= i < |rest| + 1 ==> ([""] + rest)[i] == rest[i - 1];
  }

  lemma SplitExtendsHead(c: char, t: string, rest: seq<string>, sep: char)
    requires c != sep
    requires |rest| > 0 && Join(rest, sep) == t && NoneContains(rest, sep)
    ensures var r := [[c] + rest[0]] + rest[1..];
      Join(r, sep) == [c] + t && NoneContains(r, sep)
  {
    var r := [[c] + rest[0]] + rest[1..];
    JoinExtendsHead(c, rest, sep);
    assert forall i :: 1 <= i < |r| ==> r[i] == rest[i];
  }

  lemma SeparatorSplitsJoin(u: string, v: string, w: string, x: string, sep: char)
    requires sep !in u && sep !in w
    requires u + [sep] + v == w + [sep] + x
    ensures u == w && v == x
  {
    assert (u + [sep] + v)[|u|] == sep;
    assert (w + [sep] + x)[|w|] == sep;
    if |u| == |w| {
      assert u == (u + [sep] + v)[..|u|];
      assert w == (w + [sep] + x)[..|w|];
      assert v == (u + [sep] + v)[|u| + 1..];
      assert x == (w + [sep] + x)[|w| + 1..];
    }
  }

  /** Two separator-free decompositions of the same string are equal: the
      split of a string is unique. */
  lemma {:induction false} JoinInjective(a: seq<string>, b: seq<string>, sep: char)
    requires |a| > 0 && |b| > 0
    requires NoneContains(a, sep) && NoneContains(b, sep)
    requires Join(a, sep) == Join(b, sep)
    ensures a == b
  {
    if |a| > 1 && |b| > 1 {
      JoinCons(a[0], a[1..], sep);
      JoinCons(b[0], b[1..], sep);
      SeparatorSplitsJoin(a[0], Join(a[1..], sep), b[0], Join(b[1..], sep), sep);
      JoinInjective(a[1..], b[1..], sep);
    }
  }

  /** `s.split(sep)[0]`: the longest separator-free prefix of `s`. */
  function FirstToken(s: string, sep: char): (r: string)
    ensures sep !in r
    ensures |r| <= |s| && r == s[..|r|]
    ensures |r| < |s| ==> s[|r|] == sep
  {
    var parts := Split(s, sep);
    FirstPiece(s, sep, parts);
    parts[0]
  }

  lemma FirstPiece(s: string, sep: char, parts: seq<string>)
    requires |parts| > 0 && Join(parts, sep) == s && NoneContains(parts, sep)
    ensures sep !in parts[0]
    ensures |parts[0]| <= |s| && parts[0] == s[..|parts[0]|]
    ensures |parts[0]| < |s| ==> s[|parts[0]|] == sep
  {
    if |parts| > 1 {
      JoinCons(parts[0], parts[1..], sep);
      assert parts == [parts[0]] + parts[1..];
    }
  }

  predicate OccursAt(s: string, pattern: string, i: nat) {
    i + |pattern| <= |s| && s[i..i + |pattern|] == pattern
  }

  /** `s.indexOf(pattern, from)`: the first position at or after `from`
      where `pattern` occurs. */
  function IndexOfFrom(s: string, pattern: string, from: nat): (r: Option<nat>)
    requires from <= |s|
    ensures r.Some? ==> from <= r.value && OccursAt(s, pattern, r.value)
    ensures r.Some? ==> forall j :: from <= j < r.value ==> !OccursAt(s, pattern, j)
    ensures r.None? ==> forall j :: from <= j <= |s| ==> !OccursAt(s, pattern, j)
    decreases |s| - from
  {
    if OccursAt(s, pattern, from) then Some(from)
    else if from == |s| then None
    else IndexOfFrom(s, pattern, from + 1)
  }

  function IndexOf(s: string, pattern: string): Option<nat> {
    IndexOfFrom(s, pattern, 0)
  }

  /** `s.replace(pattern, '')` with a string pattern: removes the FIRST
      occurrence of `pattern` wherever it is, not only at the start. */
  function RemoveFirst(s: string, pattern: string): (r: string)
    ensures IndexOf(s, pattern).None? ==> r == s
    ensures IndexOf(s, pattern).Some? ==>
      var i := IndexOf(s, pattern).value;
      |r| == |s| - |pattern| && s == r[..i] + pattern + r[i..]
  {
    match IndexOf(s, pattern)
    case None => s
    case Some(i) =>
      var r := s[..i] + s[i + |pattern|..];
      assert r[..i] == s[..i];
      assert r[i..] == s[i + |pattern|..];
      assert s == s[..i] + s[i..i + |pattern|] + s[i + |pattern|..];
      r
  }

  /** `pattern` cannot occur where one of its characters is missing. */
  lemma MissingCharMeansNoMatch(s: string, pattern: string, c: char)
    requires c in pattern && c !in s
    ensures IndexOf(s, pattern) == None
  {
    var k :| 0 <= k < |pattern| && pattern[k] == c;
    forall j | 0 <= j <= |s| ensures !OccursAt(s, pattern, j) {
      MatchedChar(s, pattern, j, k);
    }
  }

  /** An occurrence at `j` matches `pattern` character by character. */
  lemma MatchedChar(s: string, pattern: string, j: nat, k: nat)
    requires k < |pattern|
    ensures OccursAt(s, pattern, j) ==> j + k < |s| && s[j + k] == pattern[k]
  {
    if OccursAt(s, pattern, j) {
      assert s[j + k] == s[j..j + |pattern|][k];
    }
  }

  lemma FirstCharMismatch(s: string, pattern: string, k: nat)
    requires |pattern| > 0 && k < |s| && s[k] != pattern[0]
    ensures !OccursAt(s, pattern, k)
  {}

  /** The first occurrence is at `i` when `pattern` occurs there and nowhere
      earlier. */
  lemma FirstMatchAt(s: string, pattern: string, i: nat)
    requires OccursAt(s, pattern, i)
    requires forall k :: 0 <= k < i ==> !OccursAt(s, pattern, k)
    ensures IndexOf(s, pattern) == Some(i)
  {}

  /** The first token is the prefix of length `n` when that prefix has no
      separator and the separator, or the end, follows it. */
  lemma FirstTokenIsPrefix(s: string, sep: char, n: nat)
    requires n <= |s| && sep !in s[..n]
    requires n == |s| || s[n] == sep
    ensures FirstToken(s, sep) == s[..n]
  {}
}
