/**
  The part of JavaScript's `String.prototype.trim` that the task screen relies on:
  whitespace and line terminators are stripped from both ends of a string.
  Strings are sequences of Unicode scalar values.
 */
module Text {

  /** ECMAScript WhiteSpace and LineTerminator code points (the set `trim` removes). */
  predicate IsWhitespace(c: char)
  {
    || c == '\t' || c == '\n' || c == '\U{000B}' || c == '\U{000C}' || c == '\r' || c == ' '
    || c == '\U{00A0}' || c == '\U{1680}' || ('\U{2000}' <= c <= '\U{200A}')
    || c == '\U{2028}' || c == '\U{2029}' || c == '\U{202F}' || c == '\U{205F}'
    || c == '\U{3000}' || c == '\U{FEFF}'
  }

  /** A string made only of whitespace (the empty string included). */
  predicate IsBlank(s: string)
  {
    forall i :: 0 <= i < |s| ==> IsWhitespace(s[i])
  }

  /** Drops the leading whitespace: what is kept does not start with whitespace. */
  function TrimStart(s: string): (r: string)
    ensures |r| <= |s|
    ensures r == [] || !IsWhitespace(r[0])
  {
    if s != [] && IsWhitespace(s[0]) then TrimStart(s[1..]) else s
  }

  /** Drops the trailing whitespace: what is kept does not end with whitespace. */
  function TrimEnd(s: string): (r: string)
    ensures |r| <= |s|
    ensures r == [] || !IsWhitespace(r[|r| - 1])
  {
    if s != [] && IsWhitespace(s[|s| - 1]) then TrimEnd(s[..|s| - 1]) else s
  }

  /** TrimStart keeps a suffix and removes only whitespace. */
  lemma {:induction false} TrimStartDrops(s: string)
    ensures s == s[..|s| - |TrimStart(s)|] + TrimStart(s)
    ensures IsBlank(s[..|s| - |TrimStart(s)|])
  {
    if s != [] && IsWhitespace(s[0]) {
      TrimStartDrops(s[1..]);
      var k := |s| - |TrimStart(s)|;
      assert s[..k] == [s[0]] + s[1..][..k - 1];
    }
  }

  /** TrimEnd keeps a prefix and removes only whitespace. */
  lemma {:induction false} TrimEndDrops(s: string)
    ensures s == TrimEnd(s) + s[|TrimEnd(s)|..]
    ensures IsBlank(s[|TrimEnd(s)|..])
  {
    if s != [] && IsWhitespace(s[|s| - 1]) {
      var init := s[..|s| - 1];
      TrimEndDrops(init);
      var k := |TrimEnd(s)|;
      assert s[k..] == init[k..] + [s[|s| - 1]];
    }
  }

  /** `s.trim()`; it is `""` exactly for the blank strings. */
  function Trim(s: string): (r: string)
    ensures |r| <= |s|
    ensures r == [] <==> IsBlank(s)
    ensures r == [] || (!IsWhitespace(r[0]) && !IsWhitespace(r[|r| - 1]))
  {
    var t := TrimStart(s);
    TrimStartDrops(s);
    TrimEndDrops(t);
    TrimEnd(t)
  }

  /**
    `trim` keeps the middle of the string: the input is a blank prefix, the
    result, and a blank suffix.
   */
  lemma TrimDecomposes(s: string)
    ensures var r := Trim(s); var k := |s| - |TrimStart(s)|;
      && k + |r| <= |s|
      && s == s[..k] + r + s[k + |r|..]
      && IsBlank(s[..k]) && IsBlank(s[k + |r|..])
  {
    var t := TrimStart(s);
    var e := TrimEnd(t);
    var k := |s| - |t|;
    assert Trim(s) == e;
    TrimStartDrops(s);
    TrimEndDrops(t);
    var pre, post := s[..k], t[|e|..];
    assert s == pre + t;
    assert t == e + post;
    assert s == pre + e + post;
    assert s[..k] == pre;
    assert s[k + |e|..] == post;
  }

  /** A string with no whitespace at either end is its own trim. */
  lemma TrimOfTrimmed(s: string)
    requires s == [] || (!IsWhitespace(s[0]) && !IsWhitespace(s[|s| - 1]))
    ensures Trim(s) == s
  {
  }

  /** Trimming twice is trimming once. */
  lemma TrimIdempotent(s: string)
    ensures Trim(Trim(s)) == Trim(s)
  {
    TrimOfTrimmed(Trim(s));
  }
}
