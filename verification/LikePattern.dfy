/**
  Searching the library: the text of a filter is escaped into a pattern, and the pattern is proved to find exactly the
  plain occurrences of the text. (crates/owe-core/src/library.rs, `escape_like` and `build_query`)
 */
module LikePattern {
  const WILD: char := '%'
  const ANY: char := '_'
  const ESCAPE: char := '\\'
  const SEPARATOR: char := '/'

  predicate IsMeta(c: char) {
    c == WILD || c == ANY || c == ESCAPE
  }

  /** SQLite folds the ASCII letters and nothing else. */
  function Fold(c: char): char {
    if 'A' <= c <= 'Z' then (c as int + 32) as char else c
  }

  predicate SameLetter(a: char, b: char) {
    Fold(a) == Fold(b)
  }

  /** Two different characters match only if they are the two cases of one of the 26 ASCII letters. */
  lemma OnlyAsciiCaseIsFolded(a: char, b: char)
    ensures SameLetter(a, b) <==>
              || a == b
              || (exists k :: 0 <= k < 26 && a == UPPER[k] && b == LOWER[k])
              || (exists k :: 0 <= k < 26 && a == LOWER[k] && b == UPPER[k])
  {
    LettersInOrder();
    if 'A' <= a <= 'Z' { assert UPPER[a as int - 65] == a; }
    if 'A' <= b <= 'Z' { assert UPPER[b as int - 65] == b; }
    if 'A' <= a <= 'Z' && b as int == a as int + 32 { assert LOWER[a as int - 65] == b; }
    if 'A' <= b <= 'Z' && a as int == b as int + 32 { assert LOWER[b as int - 65] == a; }
  }

  const UPPER := "ABCDEFGHIJKLMNOPQRSTUVWXYZ"
  const LOWER := "abcdefghijklmnopqrstuvwxyz"

  lemma LettersInOrder()
    ensures forall k :: 0 <= k < 26 ==> UPPER[k] as int == 65 + k && LOWER[k] as int == 97 + k
  {
  }

  predicate SameText(a: string, b: string) {
    |a| == |b| && forall i :: 0 <= i < |a| ==> SameLetter(a[i], b[i])
  }

  /** `s LIKE p ESCAPE '\'`. An escape with nothing behind it matches nothing. */
  predicate Like(p: string, s: string)
    decreases |p| + |s|
  {
    if p == "" then s == ""
    else if p[0] == WILD then Like(p[1..], s) || (s != "" && Like(p, s[1..]))
    else if s == "" then false
    else if p[0] == ESCAPE then |p| > 1 && SameLetter(p[1], s[0]) && Like(p[2..], s[1..])
    else if p[0] == ANY then Like(p[1..], s[1..])
    else SameLetter(p[0], s[0]) && Like(p[1..], s[1..])
  }

  // ------------------------------------------------------------------ escaping

  /** How one character is written so that it means itself. */
  function Escaped(c: char): string {
    if IsMeta(c) then [ESCAPE, c] else [c]
  }

  function Escape(f: string): string {
    if f == "" then "" else Escaped(f[0]) + Escape(f[1..])
  }

  lemma {:induction false} EscapeOneMore(f: string, c: char)
    ensures Escape(f + [c]) == Escape(f) + Escaped(c)
  {
    if f == "" {
      assert [c][1..] == "";
      assert f + [c] == [c];
    } else {
      EscapeOneMore(f[1..], c);
      assert (f + [c])[1..] == f[1..] + [c];
    }
  }

  method EscapeLike(input: string) returns (out: string)
    ensures out == Escape(input)
  {
    out := "";
    for i := 0 to |input|
      invariant out == Escape(input[..i])
    {
      EscapeOneMore(input[..i], input[i]);
      assert input[..i + 1] == input[..i] + [input[i]];
      if IsMeta(input[i]) {
        out := out + [ESCAPE];
      }
      out := out + [input[i]];
    }
    assert input[..|input|] == input;
  }

  lemma EscapedLetterIsLiteral(c: char, rest: string, s: string)
    ensures Like(Escaped(c) + rest, s) <==> s != "" && SameLetter(c, s[0]) && Like(rest, s[1..])
  {
    hide SameLetter;
    var p := Escaped(c) + rest;
    if IsMeta(c) {
      assert p[0] == ESCAPE && p[1] == c && p[2..] == rest;
    } else {
      assert p[0] == c && p[1..] == rest;
    }
  }

  /** `f` begins `s`, up to the case of ASCII letters. */
  predicate Begins(f: string, s: string) {
    |f| <= |s| && SameText(f, s[..|f|])
  }

  /** An escaped text matches itself, up to the case of ASCII letters, and leaves the rest to the rest of the
      pattern. */
  lemma {:induction false} EscapedTextIsLiteral(f: string, rest: string, s: string)
    ensures Like(Escape(f) + rest, s) <==> Begins(f, s) && Like(rest, s[|f|..])
  {
    hide Like, Escaped, SameLetter;
    if f == "" {
      assert Escape(f) + rest == rest && s[0..] == s;
    } else {
      assert Escape(f) + rest == Escaped(f[0]) + (Escape(f[1..]) + rest);
      EscapedLetterIsLiteral(f[0], Escape(f[1..]) + rest, s);
      if s != "" {
        EscapedTextIsLiteral(f[1..], rest, s[1..]);
        OneLetterMore(f, s);
      }
    }
  }

  lemma OneLetterMore(f: string, s: string)
    requires f != "" && s != ""
    ensures Begins(f, s) <==> SameLetter(f[0], s[0]) && Begins(f[1..], s[1..])
    ensures |f| <= |s| ==> s[|f|..] == s[1..][|f[1..]|..]
  {
    hide SameLetter;
    if |f| <= |s| {
      var t := s[1..][..|f[1..]|];
      assert forall i :: 0 < i < |f| ==> f[i] == f[1..][i - 1] && s[..|f|][i] == t[i - 1];
      assert forall i :: 0 <= i < |t| ==> f[1..][i] == f[i + 1] && t[i] == s[..|f|][i + 1];
    }
  }

  /** A leading wildcard lets the rest match from anywhere on. */
  lemma {:induction false} WildcardSkips(p: string, s: string)
    ensures Like([WILD] + p, s) <==> exists i :: 0 <= i <= |s| && Like(p, s[i..])
    decreases |s|
  {
    assert ([WILD] + p)[1..] == p && s[0..] == s;
    if s != "" {
      WildcardSkips(p, s[1..]);
      forall i | 0 <= i <= |s[1..]| ensures s[1..][i..] == s[i + 1..] {
      }
      if i :| 1 <= i <= |s| && Like(p, s[i..]) {
        assert s[1..][i - 1..] == s[i..];
      }
    }
  }

  lemma WildcardTakesAll(s: string)
    ensures Like([WILD], s)
  {
    assert [WILD] == [WILD] + "" && s[|s|..] == "";
    WildcardSkips("", s);
  }

  /** `f` occurs somewhere in `s`, up to the case of ASCII letters. */
  predicate Occurs(f: string, s: string) {
    exists i :: 0 <= i <= |s| && Begins(f, s[i..])
  }

  /** The search box finds exactly the plain occurrences of the filter: `%` and `_` in it mean themselves. */
  lemma FilterFindsOccurrences(f: string, s: string)
    ensures Like([WILD] + Escape(f) + [WILD], s) <==> Occurs(f, s)
  {
    hide Like, Begins;
    assert [WILD] + Escape(f) + [WILD] == [WILD] + (Escape(f) + [WILD]);
    WildcardSkips(Escape(f) + [WILD], s);
    forall i | 0 <= i <= |s| ensures Like(Escape(f) + [WILD], s[i..]) <==> Begins(f, s[i..]) {
      BeginsWith(f, s[i..]);
    }
  }

  lemma BeginsWith(f: string, s: string)
    ensures Like(Escape(f) + [WILD], s) <==> Begins(f, s)
  {
    EscapedTextIsLiteral(f, [WILD], s);
    if |f| <= |s| { WildcardTakesAll(s[|f|..]); }
  }

  /** `d` is a directory somewhere below `u`, up to the case of ASCII letters. */
  predicate IsBelow(u: string, d: string) {
    |u| < |d| && Begins(u, d) && d[|u|] == SEPARATOR
  }

  /** The pattern for "somewhere below `u`" is exactly a directory prefix, up to the case of ASCII letters. */
  lemma BelowIsAPrefix(u: string, d: string)
    ensures Like(Escape(u) + [SEPARATOR] + [WILD], d) <==> IsBelow(u, d)
  {
    assert Escape(u) + [SEPARATOR] + [WILD] == Escape(u) + [SEPARATOR, WILD];
    EscapedTextIsLiteral(u, [SEPARATOR, WILD], d);
    if |u| <= |d| {
      SeparatorThenAll(d[|u|..]);
    }
    hide Like, Begins;
  }

  lemma SeparatorThenAll(s: string)
    ensures Like([SEPARATOR, WILD], s) <==> s != "" && s[0] == SEPARATOR
  {
    assert [SEPARATOR, WILD][1..] == [WILD];
    if s != "" { WildcardTakesAll(s[1..]); }
  }
}
