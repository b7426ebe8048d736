/**
 * `generateSlug`, shared verbatim by the post editor and the tag dialog: lowercase, strip
 * combining diacritical marks, replace `đ` by `d` (and `Đ` by `D`), turn every run of
 * characters outside `[a-z0-9]` into one `-`, then drop one leading and one trailing `-`.
 *
 * Lowercasing is modelled for ASCII letters and `Đ`; canonical decomposition (NFD) is the
 * identity here, so a title is taken to be in decomposed form already.
 */
module Slug {
  import Seqs

  /** A character the slug keeps as it is: `[a-z0-9]`. */
  predicate IsSlugChar(c: char) {
    'a' <= c <= 'z' || '0' <= c <= '9'
  }

  /** A combining diacritical mark, U+0300 to U+036F. */
  predicate IsCombiningMark(c: char) {
    '\U{0300}' <= c <= '\U{036F}'
  }

  /** `toLowerCase` on one character, for ASCII letters and `Đ`. */
  function LowerChar(c: char): char {
    if 'A' <= c <= 'Z' then (c as int + 32) as char
    else if c == 'Đ' then 'đ'
    else c
  }

  /** `toLowerCase`. */
  function Lower(s: string): (r: string)
    ensures |r| == |s|
    ensures forall i :: 0 <= i < |s| ==> r[i] == LowerChar(s[i])
  {
    seq(|s|, i requires 0 <= i < |s| => LowerChar(s[i]))
  }

  /** Lowercasing twice is lowercasing once. */
  lemma LowerIdempotent(s: string)
    ensures Lower(Lower(s)) == Lower(s)
  {
    forall i | 0 <= i < |s| ensures LowerChar(LowerChar(s[i])) == LowerChar(s[i]) {
    }
  }

  /** Lowercasing leaves text already in `[a-z0-9-]` as it is. */
  lemma LowerKeepsSlugAlphabet(s: string)
    requires InSlugAlphabet(s)
    ensures Lower(s) == s
  {
    forall i | 0 <= i < |s| ensures Lower(s)[i] == s[i] {
      assert IsSlugChar(s[i]) || s[i] == '-';
    }
  }

  /** Replacing a character that does not occur changes nothing; replacing one that does removes every occurrence. */
  lemma ReplaceCharRemovesAll(s: string, x: char, y: char)
    ensures x !in s ==> ReplaceChar(s, x, y) == s
    ensures x != y ==> x !in ReplaceChar(s, x, y)
  {
    var r := ReplaceChar(s, x, y);
    if x !in s {
      forall i | 0 <= i < |s| ensures r[i] == s[i] {
        assert s[i] in s;
      }
    }
  }

  /** `replace(/[\u0300-\u036f]/g, "")`: removes every combining diacritical mark. */
  function StripMarks(s: string): string {
    Seqs.Filter(s, c => !IsCombiningMark(c))
  }

  /** `replace(/x/g, y)` for single characters `x` and `y`. */
  function ReplaceChar(s: string, x: char, y: char): (r: string)
    ensures |r| == |s|
    ensures forall i :: 0 <= i < |s| ==> r[i] == if s[i] == x then y else s[i]
  {
    seq(|s|, i requires 0 <= i < |s| => if s[i] == x then y else s[i])
  }

  /** `s` without its leading characters outside `[a-z0-9]`. */
  function DropSeparators(s: string): (r: string)
    ensures |r| <= |s|
  {
    if s != [] && !IsSlugChar(s[0]) then DropSeparators(s[1..]) else s
  }

  /** Dropping the leading separators leaves a suffix that starts with a letter or digit and keeps every letter and digit. */
  lemma {:induction false} DropSeparatorsSpec(s: string)
    ensures var r := DropSeparators(s);
      && r == s[|s| - |r|..]
      && (r == [] || IsSlugChar(r[0]))
      && Letters(r) == Letters(s)
  {
    if s != [] && !IsSlugChar(s[0]) {
      DropSeparatorsSpec(s[1..]);
    }
  }

  /** The letters and digits of `s`, in order. */
  function Letters(s: string): string {
    Seqs.Filter(s, IsSlugChar)
  }

  predicate InSlugAlphabet(s: string) {
    forall i :: 0 <= i < |s| ==> IsSlugChar(s[i]) || s[i] == '-'
  }

  predicate NoDoubleDash(s: string) {
    forall i :: 0 <= i < |s| - 1 ==> !(s[i] == '-' && s[i + 1] == '-')
  }

  /** A well-formed slug: `[a-z0-9-]` only, no leading, trailing or doubled dash. */
  predicate IsSlug(s: string) {
    && InSlugAlphabet(s)
    && NoDoubleDash(s)
    && (s != [] ==> s[0] != '-' && s[|s| - 1] != '-')
  }

  /**
   * `replace(/[^a-z0-9]+/g, "-")`: each maximal run of characters outside `[a-z0-9]` becomes
   * a single dash, and the letters and digits are kept in order.
   */
  function Collapse(s: string): string
    decreases |s|
  {
    if s == [] then []
    else if IsSlugChar(s[0]) then [s[0]] + Collapse(s[1..])
    else ['-'] + Collapse(DropSeparators(s[1..]))
  }

  /**
   * The collapsed text holds only `[a-z0-9-]` and never two dashes in a row; it starts with
   * a dash exactly when `s` starts outside `[a-z0-9]`; its letters and digits are those of
   * `s`, in order.
   */
  lemma {:induction false} CollapseSpec(s: string)
    ensures var r := Collapse(s);
      && InSlugAlphabet(r)
      && NoDoubleDash(r)
      && ((r != [] && r[0] == '-') <==> (s != [] && !IsSlugChar(s[0])))
      && Letters(r) == Letters(s)
    decreases |s|
  {
    if s != [] {
      var r := Collapse(s);
      if IsSlugChar(s[0]) {
        var rest := Collapse(s[1..]);
        CollapseSpec(s[1..]);
        assert r == [s[0]] + rest && r[1..] == rest;
        assert s == [s[0]] + s[1..];
        ConsKeepsShape(s[0], rest);
      } else {
        var d := DropSeparators(s[1..]);
        var rest := Collapse(d);
        DropSeparatorsSpec(s[1..]);
        CollapseSpec(d);
        assert r == ['-'] + rest && r[1..] == rest;
        assert s == [s[0]] + s[1..];
        ConsKeepsShape('-', rest);
      }
    }
  }

  /** Putting a letter, a digit or a dash before a collapsed text that does not start with a dash keeps its shape. */
  lemma ConsKeepsShape(c: char, rest: string)
    requires IsSlugChar(c) || c == '-'
    requires InSlugAlphabet(rest) && NoDoubleDash(rest)
    requires c == '-' ==> rest == [] || rest[0] != '-'
    ensures InSlugAlphabet([c] + rest) && NoDoubleDash([c] + rest)
  {
    var r := [c] + rest;
    forall i | 0 <= i < |r| ensures IsSlugChar(r[i]) || r[i] == '-' {
      if i > 0 { assert r[i] == rest[i - 1]; }
    }
    forall i | 0 <= i < |r| - 1 ensures !(r[i] == '-' && r[i + 1] == '-') {
      if i > 0 { assert r[i] == rest[i - 1] && r[i + 1] == rest[i]; }
    }
  }

  /** The `^-` alternative of `replace(/(^-|-$)/g, "")`: one leading dash is dropped. */
  function DropLeadingDash(s: string): string {
    if s != [] && s[0] == '-' then s[1..] else s
  }

  /** The `-$` alternative: one trailing dash is dropped. */
  function DropTrailingDash(s: string): string {
    if s != [] && s[|s| - 1] == '-' then s[..|s| - 1] else s
  }

  /** `replace(/(^-|-$)/g, "")`: drops one leading and one trailing dash. */
  function TrimDashes(s: string): string {
    DropTrailingDash(DropLeadingDash(s))
  }

  /** The title after the character steps: lowercased, without marks, `đ`/`Đ` replaced. */
  function Plain(title: string): string {
    ReplaceChar(ReplaceChar(StripMarks(Lower(title)), 'đ', 'd'), 'Đ', 'D')
  }

  /** `generateSlug(title)`. */
  function GenerateSlug(title: string): string {
    TrimDashes(Collapse(Plain(title)))
  }

  /** Trimming one dash at each end of a collapsed string yields a well-formed slug with the same letters. */
  lemma TrimCollapsedIsSlug(r: string)
    requires InSlugAlphabet(r) && NoDoubleDash(r)
    ensures IsSlug(TrimDashes(r))
    ensures Letters(TrimDashes(r)) == Letters(r)
  {
    var a := DropLeadingDash(r);
    if r != [] && r[0] == '-' {
      TailKeepsShape(r);
      assert r == [r[0]] + a;
    }
    TrimTrailingDash(a);
  }

  lemma TrimTrailingDash(a: string)
    requires InSlugAlphabet(a) && NoDoubleDash(a)
    requires a != [] ==> a[0] != '-'
    ensures IsSlug(DropTrailingDash(a)) && Letters(DropTrailingDash(a)) == Letters(a)
  {
    if a != [] && a[|a| - 1] == '-' {
      var t := a[..|a| - 1];
      assert a == t + [a[|a| - 1]];
      LettersAppendDash(t);
      if |a| >= 2 {
        assert a[|a| - 2] != '-';
      }
    }
  }

  lemma LettersAppendDash(t: string)
    ensures Letters(t + ['-']) == Letters(t)
  {
    if t != [] {
      assert (t + ['-'])[1..] == t[1..] + ['-'];
      LettersAppendDash(t[1..]);
    } else {
      assert Letters(['-']) == [];
    }
  }

  /** `generateSlug` only ever produces `[a-z0-9-]`, never a leading, trailing or doubled dash. */
  lemma GenerateSlugIsSlug(title: string)
    ensures IsSlug(GenerateSlug(title))
  {
    CollapseSpec(Plain(title));
    TrimCollapsedIsSlug(Collapse(Plain(title)));
  }

  /** Lowercasing never leaves an `Đ`, so the `replace(/Đ/g, "D")` step never changes anything. */
  lemma CapitalDReplacementUnreachable(title: string)
    ensures var s := StripMarks(Lower(title));
      ReplaceChar(ReplaceChar(s, 'đ', 'd'), 'Đ', 'D') == ReplaceChar(s, 'đ', 'd')
  {
    var low := Lower(title);
    var s := StripMarks(low);
    forall i | 0 <= i < |s| ensures s[i] != 'Đ' {
      assert s[i] in low;
    }
  }

  lemma {:induction false} FilterKeepsAll(s: string, p: char -> bool)
    requires forall i :: 0 <= i < |s| ==> p(s[i])
    ensures Seqs.Filter(s, p) == s
  {
    if s != [] {
      FilterKeepsAll(s[1..], p);
    }
  }

  lemma {:induction false} CollapseKeepsSlug(s: string)
    requires InSlugAlphabet(s) && NoDoubleDash(s)
    requires s != [] ==> s[0] != '-'
    ensures Collapse(s) == s
    decreases |s|, 1
  {
    if s != [] {
      TailKeepsShape(s);
      CollapseKeepsSlugFrom(s[1..]);
      assert s == [s[0]] + s[1..];
    }
  }

  /** A tail that follows a letter: a dash in it is single, so collapsing it changes nothing. */
  lemma {:induction false} CollapseKeepsSlugFrom(s: string)
    requires InSlugAlphabet(s) && NoDoubleDash(s)
    ensures Collapse(s) == s
    decreases |s|, 0
  {
    if s != [] {
      var rest := s[1..];
      TailKeepsShape(s);
      assert s == [s[0]] + rest;
      if s[0] == '-' {
        assert rest == [] || rest[0] != '-';
        assert DropSeparators(rest) == rest;
        assert Collapse(s) == ['-'] + Collapse(rest);
        CollapseKeepsSlug(rest);
      } else {
        CollapseKeepsSlugFrom(rest);
      }
    }
  }

  /** Dropping the first character keeps the alphabet and the absence of doubled dashes. */
  lemma TailKeepsShape(s: string)
    requires s != [] && InSlugAlphabet(s) && NoDoubleDash(s)
    ensures InSlugAlphabet(s[1..]) && NoDoubleDash(s[1..])
    ensures |s| > 1 && s[0] == '-' ==> s[1] != '-'
  {
    var t := s[1..];
    forall i | 0 <= i < |t| ensures IsSlugChar(t[i]) || t[i] == '-' {
      assert t[i] == s[i + 1];
    }
    forall i | 0 <= i < |t| - 1 ensures !(t[i] == '-' && t[i + 1] == '-') {
      assert t[i] == s[i + 1] && t[i + 1] == s[i + 2];
    }
  }

  /** A well-formed slug goes through `generateSlug` unchanged. */
  lemma SlugIsFixedPoint(t: string)
    requires IsSlug(t)
    ensures GenerateSlug(t) == t
  {
    CharStepsKeepSlug(t);
    CollapseKeepsSlug(t);
    assert DropLeadingDash(t) == t;
    assert DropTrailingDash(t) == t;
  }

  /** Lowercasing, mark stripping and the two replacements leave a well-formed slug unchanged. */
  lemma CharStepsKeepSlug(t: string)
    requires IsSlug(t)
    ensures Plain(t) == t
  {
    forall i | 0 <= i < |t| ensures t[i] != 'đ' && t[i] != 'Đ' && !IsCombiningMark(t[i]) {
      assert IsSlugChar(t[i]) || t[i] == '-';
    }
    LowerKeepsSlugAlphabet(t);
    FilterKeepsAll(t, c => !IsCombiningMark(c));
    assert StripMarks(t) == t;
    ReplaceCharRemovesAll(t, 'đ', 'd');
    ReplaceCharRemovesAll(t, 'Đ', 'D');
  }

  /** `generateSlug` is idempotent: a generated slug regenerates to itself. */
  lemma GenerateSlugIdempotent(title: string)
    ensures GenerateSlug(GenerateSlug(title)) == GenerateSlug(title)
  {
    GenerateSlugIsSlug(title);
    SlugIsFixedPoint(GenerateSlug(title));
  }

  /** `title` holds a character that survives into the slug: a letter, a digit or `đ`/`Đ`. */
  predicate HasSlugLetter(title: string) {
    exists i :: 0 <= i < |title| && (IsSlugChar(LowerChar(title[i])) || LowerChar(title[i]) == 'đ')
  }

  /**
   * The slug is empty exactly when the title has no letter or digit: a title made only of
   * punctuation, spaces and diacritical marks yields "".
   */
  lemma EmptySlugIffNoLetters(title: string)
    ensures GenerateSlug(title) == [] <==> !HasSlugLetter(title)
  {
    var r := Collapse(Plain(title));
    CollapseSpec(Plain(title));
    TrimCollapsedIsSlug(r);
    if HasSlugLetter(title) {
      LetterReachesPlain(title);
    } else {
      NoLetterReachesPlain(title);
      SlugWithoutLettersIsEmpty(TrimDashes(r));
    }
  }

  /** A letter, digit or `đ` of the title leaves a letter or digit after the character steps. */
  lemma LetterReachesPlain(title: string)
    requires HasSlugLetter(title)
    ensures Letters(Plain(title)) != []
  {
    var low := Lower(title);
    var stripped := StripMarks(low);
    var plain := Plain(title);
    var i :| 0 <= i < |title| && (IsSlugChar(LowerChar(title[i])) || LowerChar(title[i]) == 'đ');
    assert low[i] == LowerChar(title[i]);
    assert !IsCombiningMark(low[i]);
    assert exists j :: 0 <= j < |stripped| && stripped[j] == low[i];
    var j :| 0 <= j < |stripped| && stripped[j] == low[i];
    assert IsSlugChar(plain[j]);
    LetterSurvives(plain, j);
  }

  /** A title without letters, digits or `đ` keeps none after the character steps. */
  lemma NoLetterReachesPlain(title: string)
    requires !HasSlugLetter(title)
    ensures Letters(Plain(title)) == []
  {
    var low := Lower(title);
    var stripped := StripMarks(low);
    var plain := Plain(title);
    forall j | 0 <= j < |plain| ensures !IsSlugChar(plain[j]) {
      assert stripped[j] in low;
      var k :| 0 <= k < |low| && low[k] == stripped[j];
      assert low[k] == LowerChar(title[k]);
    }
    NoLettersNoSlugChars(plain);
  }

  /** A letter of `s` shows up among the letters of `s`. */
  lemma {:induction false} LetterSurvives(s: string, j: nat)
    requires j < |s| && IsSlugChar(s[j])
    ensures Letters(s) != []
  {
    if j > 0 && !IsSlugChar(s[0]) {
      LetterSurvives(s[1..], j - 1);
    }
  }

  lemma {:induction false} NoLettersNoSlugChars(s: string)
    requires forall j :: 0 <= j < |s| ==> !IsSlugChar(s[j])
    ensures Letters(s) == []
  {
    if s != [] {
      NoLettersNoSlugChars(s[1..]);
    }
  }

  /** A well-formed slug without letters or digits is empty. */
  lemma SlugWithoutLettersIsEmpty(t: string)
    requires IsSlug(t) && Letters(t) == []
    ensures t == []
  {
  }
}
