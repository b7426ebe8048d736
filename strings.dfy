/**
 * The JavaScript string built-ins the blog relies on: `split` on a one-character
 * separator followed by `pop`, `trim`, and `startsWith`.
 */
module Strings {

  /** Concatenates `parts`, putting `sep` between consecutive parts (`parts.join(sep)`). */
  function Join(parts: seq<string>, sep: char): string
    requires |parts| >= 1
  {
    if |parts| == 1 then parts[0] else parts[0] + [sep] + Join(parts[1..], sep)
  }

  /**
   * `s.split(sep)` for a one-character separator: every occurrence of `sep` ends a part,
   * so the result has one more part than `s` has separators, and the empty string
   * splits into `[""]`.
   */
  function Split(s: string, sep: char): (parts: seq<string>)
    ensures |parts| >= 1
    ensures forall i :: 0 <= i < |parts| ==> sep !in parts[i]
    ensures |parts| == 1 <==> sep !in s
    ensures Join(parts, sep) == s
  {
    if s == [] then [""]
    else
      var rest := Split(s[1..], sep);
      if s[0] == sep then [""] + rest
      else
        assert s == [s[0]] + s[1..];
        [[s[0]] + rest[0]] + rest[1..]
  }

  /** `s.split(sep).pop()`: the text after the last `sep`, or all of `s` when it has none. */
  function AfterLast(s: string, sep: char): string {
    var parts := Split(s, sep);
    parts[|parts| - 1]
  }

  /**
   * The text after the last separator is a suffix of `s` free of `sep`; either the
   * character just before it is `sep`, or it is all of `s` and `s` holds no `sep`.
   */
  lemma {:induction false} AfterLastIsFinalSegment(s: string, sep: char)
    ensures var r := AfterLast(s, sep);
      && sep !in r
      && |r| <= |s|
      && s[|s| - |r|..] == r
      && (|r| < |s| ==> s[|s| - |r| - 1] == sep)
      && (|r| == |s| <==> sep !in s)
  {
    if s != [] {
      var s', r := s[1..], AfterLast(s, sep);
      assert s == [s[0]] + s';
      assert sep in s <==> s[0] == sep || sep in s';
      AfterLastStep(s, sep);
      if s[0] != sep && sep !in s' {
        assert r == s;
      } else {
        var r' := AfterLast(s', sep);
        AfterLastIsFinalSegment(s', sep);
        assert r == r';
        var k := |s'| - |r'|;
        assert s[k + 1..] == s'[k..];
        if |r'| < |s'| {
          assert s[k] == s'[k - 1];
        }
      }
    }
  }

  /** The text after the last separator of `s`, in terms of that of its tail. */
  lemma AfterLastStep(s: string, sep: char)
    requires s != []
    ensures s[0] != sep && sep !in s[1..] ==> AfterLast(s, sep) == s
    ensures s[0] == sep || sep in s[1..] ==> AfterLast(s, sep) == AfterLast(s[1..], sep)
  {
    var rest := Split(s[1..], sep);
    var parts := Split(s, sep);
    if s[0] == sep {
      assert parts == [""] + rest;
    } else {
      assert parts == [[s[0]] + rest[0]] + rest[1..];
      if |rest| == 1 {
        assert rest[0] == Join(rest, sep) == s[1..];
        assert s == [s[0]] + s[1..];
      }
    }
  }

  /** Whatever precedes the last separator, the text after it is what follows that separator. */
  lemma AfterLastOfJoined(a: string, b: string, sep: char)
    requires sep !in b
    ensures AfterLast(a + [sep] + b, sep) == b
  {
    var s := a + [sep] + b;
    var r := AfterLast(s, sep);
    AfterLastIsFinalSegment(s, sep);
    assert s[|a|] == sep;
    assert |r| < |s|;
    assert s[|s| - |b|..] == b;
  }

  /** `s.startsWith(prefix)`. */
  predicate StartsWith(s: string, prefix: string) {
    |prefix| <= |s| && s[..|prefix|] == prefix
  }

  /** JavaScript's WhiteSpace and LineTerminator characters, which `trim` removes. */
  predicate IsWhitespace(c: char) {
    || c == ' ' || c == '\t' || c == '\n' || c == '\r'
    || c == '\U{0B}' || c == '\U{0C}' || c == '\U{A0}' || c == '\U{1680}'
    || ('\U{2000}' <= c <= '\U{200A}')
    || c == '\U{2028}' || c == '\U{2029}' || c == '\U{202F}' || c == '\U{205F}'
    || c == '\U{3000}' || c == '\U{FEFF}'
  }

  predicate AllWhitespace(s: string) {
    forall i :: 0 <= i < |s| ==> IsWhitespace(s[i])
  }

  /** `s` with its leading whitespace removed. */
  function TrimStart(s: string): (r: string)
    ensures |r| <= |s|
  {
    if s != [] && IsWhitespace(s[0]) then TrimStart(s[1..]) else s
  }

  /** `s` with its trailing whitespace removed. */
  function TrimEnd(s: string): (r: string)
    ensures |r| <= |s|
  {
    if s != [] && IsWhitespace(s[|s| - 1]) then TrimEnd(s[..|s| - 1]) else s
  }

  /** `s.trim()`. */
  function Trim(s: string): string {
    TrimEnd(TrimStart(s))
  }

  /** `TrimStart` removes a whitespace prefix and stops at the first other character. */
  lemma {:induction false} TrimStartSpec(s: string)
    ensures var r := TrimStart(s);
      && r == s[|s| - |r|..]
      && AllWhitespace(s[..|s| - |r|])
      && (r == [] || !IsWhitespace(r[0]))
  {
    if s != [] && IsWhitespace(s[0]) {
      TrimStartSpec(s[1..]);
      var r := TrimStart(s);
      assert s[..|s| - |r|] == [s[0]] + s[1..][..|s| - 1 - |r|];
    }
  }

  /** `TrimEnd` removes a whitespace suffix and stops at the last other character. */
  lemma {:induction false} TrimEndSpec(s: string)
    ensures var r := TrimEnd(s);
      && r == s[..|r|]
      && AllWhitespace(s[|r|..])
      && (r == [] || !IsWhitespace(r[|r| - 1]))
  {
    if s != [] && IsWhitespace(s[|s| - 1]) {
      var init := s[..|s| - 1];
      TrimEndSpec(init);
      var r := TrimEnd(s);
      assert s[|r|..] == init[|r|..] + [s[|s| - 1]];
    }
  }

  /**
   * `trim` removes only whitespace, and only from the two ends: `s` is a whitespace prefix,
   * the trimmed text and a whitespace suffix, and the trimmed text neither starts nor ends
   * with whitespace.
   */
  lemma TrimRemovesOnlyOuterWhitespace(s: string)
    ensures var t := Trim(s);
      var i := |s| - |TrimStart(s)|;
      && i + |t| <= |s|
      && s[i..i + |t|] == t
      && AllWhitespace(s[..i])
      && AllWhitespace(s[i + |t|..])
      && (t == [] || (!IsWhitespace(t[0]) && !IsWhitespace(t[|t| - 1])))
  {
    var a := TrimStart(s);
    var t := TrimEnd(a);
    var i := |s| - |a|;
    TrimStartSpec(s);
    TrimEndSpec(a);
    assert s[i..i + |t|] == a[..|t|];
    assert s[i + |t|..] == a[|t|..];
    if t != [] {
      assert t[0] == a[0];
    }
  }

  /** Trimming yields the empty string exactly when `s` is all whitespace. */
  lemma TrimEmptyIffBlank(s: string)
    ensures Trim(s) == [] <==> AllWhitespace(s)
  {
    TrimRemovesOnlyOuterWhitespace(s);
    var i := |s| - |TrimStart(s)|;
    if Trim(s) == [] {
      assert s == s[..i] + s[i..];
    } else {
      var t := Trim(s);
      assert s[i] == t[0];
    }
  }

  /** Trimming twice is the same as trimming once. */
  lemma TrimIdempotent(s: string)
    ensures Trim(Trim(s)) == Trim(s)
  {
    var t := Trim(s);
    TrimRemovesOnlyOuterWhitespace(s);
    assert TrimStart(t) == t;
    assert TrimEnd(t) == t;
  }
}
