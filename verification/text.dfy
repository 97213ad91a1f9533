/**
 The string operations the task list leans on: JavaScript's `trim`, which
 decides whether a new task is accepted, and the lower-casing and substring
 test behind the case-insensitive search.

 Strings are `seq<char>`, and a `char` is a Unicode scalar value. A
 JavaScript string is a sequence of UTF-16 code units instead: a character
 outside the Basic Multilingual Plane is one `char` here but two code
 units there, and a lone surrogate has no `char` at all. For well-formed
 strings the three operations give the same answers either way.
 */
module Text {

  /** The code points `String.prototype.trim` strips: the WhiteSpace and
      LineTerminator code points of ECMA-262. These are tab, vertical tab,
      form feed, space, no-break space, the byte order mark, the Unicode
      space separators, line feed, carriage return, and the line and
      paragraph separators. */
  const Whitespace: set<char> := {
    '\t', '\n', '\U{000B}', '\U{000C}', '\r', ' ', '\U{00A0}', '\U{1680}',
    '\U{2000}', '\U{2001}', '\U{2002}', '\U{2003}', '\U{2004}', '\U{2005}',
    '\U{2006}', '\U{2007}', '\U{2008}', '\U{2009}', '\U{200A}',
    '\U{2028}', '\U{2029}', '\U{202F}', '\U{205F}', '\U{3000}', '\U{FEFF}' }

  /** Among ASCII characters these are exactly the space and the control
      characters tab through carriage return. */
  predicate IsWhitespace(c: char)
    ensures c as int < 128 ==> (IsWhitespace(c) <==> c == ' ' || '\t' <= c <= '\r')
  {
    c in Whitespace
  }

  /** Every character of `s` is whitespace (the empty string included). */
  predicate IsBlank(s: string) {
    forall i :: 0 <= i < |s| ==> IsWhitespace(s[i])
  }

  /** `prefix` is an initial segment of `s`. */
  predicate IsPrefix(prefix: string, s: string) {
    |prefix| <= |s| && s[..|prefix|] == prefix
  }

  /** `needle` occurs as a contiguous segment somewhere in `hay`. */
  ghost predicate IsInfix(needle: string, hay: string) {
    exists k :: 0 <= k <= |hay| && IsPrefix(needle, hay[k..])
  }

  /** `r` is `s` with the blank run `s[..k]` removed in front and a blank run
      removed behind. */
  ghost predicate StripsTo(s: string, k: int, r: string) {
    && 0 <= k <= |s| - |r|
    && s[k..k + |r|] == r
    && IsBlank(s[..k])
    && IsBlank(s[k + |r|..])
  }

  /** `r` is what is left of `s` after removing whitespace at both ends. */
  ghost predicate IsTrimOf(r: string, s: string) {
    && (exists k :: StripsTo(s, k, r))
    && (r != [] ==> !IsWhitespace(r[0]) && !IsWhitespace(r[|r| - 1]))
  }

  /** Removes leading whitespace. */
  function TrimStart(s: string): (r: string)
    ensures |r| <= |s| && r == s[|s| - |r|..]
    ensures IsBlank(s[..|s| - |r|])
    ensures r != [] ==> !IsWhitespace(r[0])
  {
    if s != [] && IsWhitespace(s[0]) then
      var r := TrimStart(s[1..]);
      TrimStartStep(s, r);
      r
    else
      assert s[..0] == [];
      s
  }

  /** A blank-prefixed suffix of `s[1..]` is one of `s` when `s[0]` is
      whitespace. */
  lemma TrimStartStep(s: string, r: string)
    requires s != [] && IsWhitespace(s[0])
    requires |r| <= |s| - 1 && r == s[1..][|s| - 1 - |r|..]
    requires IsBlank(s[1..][..|s| - 1 - |r|])
    ensures r == s[|s| - |r|..]
    ensures IsBlank(s[..|s| - |r|])
  {
    var k := |s| - |r|;
    assert s[1..][k - 1..] == s[k..];
    forall i | 0 <= i < k
      ensures IsWhitespace(s[..k][i])
    {
      if i > 0 {
        assert s[..k][i] == s[1..][..k - 1][i - 1];
      }
    }
  }

  /** Removes trailing whitespace. */
  function TrimEnd(s: string): (r: string)
    ensures |r| <= |s| && r == s[..|r|]
    ensures IsBlank(s[|r|..])
    ensures r != [] ==> !IsWhitespace(r[|r| - 1])
  {
    if s != [] && IsWhitespace(s[|s| - 1]) then
      var r := TrimEnd(s[..|s| - 1]);
      TrimEndStep(s, r);
      r
    else
      assert s[|s|..] == [];
      s
  }

  /** A prefix of `s[..|s| - 1]` followed by blanks is one of `s` when the
      last character of `s` is whitespace. */
  lemma TrimEndStep(s: string, r: string)
    requires s != [] && IsWhitespace(s[|s| - 1])
    requires |r| <= |s| - 1 && r == s[..|s| - 1][..|r|]
    requires IsBlank(s[..|s| - 1][|r|..])
    ensures r == s[..|r|]
    ensures IsBlank(s[|r|..])
  {
    var n := |s|;
    assert s[..n - 1][..|r|] == s[..|r|];
    forall i | 0 <= i < n - |r|
      ensures IsWhitespace(s[|r|..][i])
    {
      if i < n - 1 - |r| {
        assert s[|r|..][i] == s[..n - 1][|r|..][i];
      }
    }
  }

  /** `String.prototype.trim`: the input without its leading and trailing
      whitespace. It is empty exactly when the input is blank. */
  function Trim(s: string): (r: string)
    ensures IsTrimOf(r, s)
    ensures r == [] <==> IsBlank(s)
  {
    var t := TrimStart(s);
    var r := TrimEnd(t);
    TrimInTwoSteps(s, t, r);
    r
  }

  /** Trimming the front and then the back trims both ends. */
  lemma TrimInTwoSteps(s: string, t: string, r: string)
    requires |t| <= |s| && t == s[|s| - |t|..] && IsBlank(s[..|s| - |t|])
    requires t != [] ==> !IsWhitespace(t[0])
    requires |r| <= |t| && r == t[..|r|] && IsBlank(t[|r|..])
    requires r != [] ==> !IsWhitespace(r[|r| - 1])
    ensures IsTrimOf(r, s)
    ensures r == [] <==> IsBlank(s)
  {
    StripsInTwoSteps(s, t, r);
    assert r != [] ==> r[0] == t[0];
    StripsEmptyIffBlank(s, |s| - |t|, r);
  }

  /** Removing a blank prefix and then a blank suffix strips `s` to `r`. */
  lemma StripsInTwoSteps(s: string, t: string, r: string)
    requires |t| <= |s| && t == s[|s| - |t|..] && IsBlank(s[..|s| - |t|])
    requires |r| <= |t| && r == t[..|r|] && IsBlank(t[|r|..])
    ensures StripsTo(s, |s| - |t|, r)
  {
    var k := |s| - |t|;
    assert s[k..k + |r|] == s[k..][..|r|];
    assert s[k + |r|..] == t[|r|..];
  }

  /** Stripping leaves nothing exactly when there was nothing but
      whitespace, given that what is left starts with a non-whitespace
      character. */
  lemma StripsEmptyIffBlank(s: string, k: int, r: string)
    requires StripsTo(s, k, r)
    requires r != [] ==> !IsWhitespace(r[0])
    ensures r == [] <==> IsBlank(s)
  {
    if r == [] {
      assert s == s[..k] + s[k..];
      BlankConcat(s[..k], s[k..]);
    } else {
      assert s[k] == r[0];
    }
  }

  /** Two blank strings make a blank string. */
  lemma BlankConcat(a: string, b: string)
    requires IsBlank(a) && IsBlank(b)
    ensures IsBlank(a + b)
  {
    forall i | 0 <= i < |a + b|
      ensures IsWhitespace((a + b)[i])
    {
      if i < |a| {
        assert (a + b)[i] == a[i];
      } else {
        assert (a + b)[i] == b[i - |a|];
      }
    }
  }

  /** The capitals `toLowerCase` maps within the Basic Latin and Latin-1
      Supplement blocks: A-Z and the accented capitals U+00C0 to U+00DE,
      except the multiplication sign U+00D7. */
  predicate IsCapital(c: char) {
    'A' <= c <= 'Z' || ('\U{00C0}' <= c <= '\U{00DE}' && c != '\U{00D7}')
  }

  /** Lower-cases one character: each capital has its small letter 32 code
      points above it; every other character is returned unchanged. */
  function LowerChar(c: char): char {
    if IsCapital(c) then (c as int + 32) as char else c
  }

  /** `String.prototype.toLowerCase`, character by character: no capital
      is left, characters that are not capitals are kept, and each capital
      becomes its small letter. */
  function Lower(s: string): (r: string)
    ensures |r| == |s|
    ensures forall i :: 0 <= i < |r| ==> !IsCapital(r[i])
    ensures forall i :: 0 <= i < |s| && !IsCapital(s[i]) ==> r[i] == s[i]
    ensures forall i :: 0 <= i < |s| && IsCapital(s[i]) ==> r[i] as int == s[i] as int + 32
  {
    seq(|s|, i requires 0 <= i < |s| => LowerChar(s[i]))
  }

  /** `String.prototype.includes`: does `needle` occur in `hay`? The empty
      needle occurs in every string. */
  function Contains(hay: string, needle: string): (r: bool)
    ensures r <==> IsInfix(needle, hay)
    decreases |hay|
  {
    InfixStep(needle, hay);
    if IsPrefix(needle, hay) then true
    else if hay == [] then false
    else Contains(hay[1..], needle)
  }

  /** An occurrence in `hay` is at its start or inside its tail. */
  lemma InfixStep(needle: string, hay: string)
    ensures IsInfix(needle, hay) <==>
              IsPrefix(needle, hay) || (hay != [] && IsInfix(needle, hay[1..]))
  {
    if IsInfix(needle, hay) {
      var k :| 0 <= k <= |hay| && IsPrefix(needle, hay[k..]);
      if k > 0 {
        assert hay[1..][k - 1..] == hay[k..];
      }
    }
    if IsPrefix(needle, hay) {
      assert hay[0..] == hay;
    }
    if hay != [] && IsInfix(needle, hay[1..]) {
      var k :| 0 <= k <= |hay[1..]| && IsPrefix(needle, hay[1..][k..]);
      assert hay[1..][k..] == hay[k + 1..];
    }
  }

  /** Lower-casing is idempotent. */
  lemma LowerIdempotent(s: string)
    ensures Lower(Lower(s)) == Lower(s)
  {
  }
}
