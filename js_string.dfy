/**
 * The part of JavaScript's `String.prototype.trim` that the form's validator
 * relies on: removing leading and trailing white space and line terminators.
 */
module JsString {

  /** JavaScript's WhiteSpace and LineTerminator code points: tab, line feed,
      vertical tab, form feed, carriage return, the byte-order mark and every
      space separator of Unicode category Zs, plus the line and paragraph
      separators. */
  predicate IsWhitespace(c: char)
  {
    || c == '\t' || c == '\n' || c == '\U{B}' || c == '\U{C}' || c == '\r'
    || c == ' ' || c == '\U{A0}' || c == '\U{1680}'
    || ('\U{2000}' <= c <= '\U{200A}')
    || c == '\U{2028}' || c == '\U{2029}' || c == '\U{202F}' || c == '\U{205F}'
    || c == '\U{3000}' || c == '\U{FEFF}'
  }

  /** `s` holds a character that trimming keeps. */
  ghost predicate HasVisibleChar(s: string)
  {
    exists k :: 0 <= k < |s| && !IsWhitespace(s[k])
  }

  /** Drops the leading white space: the result is the suffix of `s` that
      starts at its first visible character. */
  function TrimStart(s: string): (r: string)
    ensures |r| <= |s| && r == s[|s| - |r|..]
    ensures forall k :: 0 <= k < |s| - |r| ==> IsWhitespace(s[k])
    ensures r != [] ==> !IsWhitespace(r[0])
  {
    if s != [] && IsWhitespace(s[0]) then TrimStart(s[1..]) else s
  }

  /** Drops the trailing white space: the result is the prefix of `s` that
      ends at its last visible character. */
  function TrimEnd(s: string): (r: string)
    ensures |r| <= |s| && r == s[..|r|]
    ensures forall k :: |r| <= k < |s| ==> IsWhitespace(s[k])
    ensures r != [] ==> !IsWhitespace(r[|r| - 1])
  {
    if s != [] && IsWhitespace(s[|s| - 1]) then TrimEnd(s[..|s| - 1]) else s
  }

  /** `r` is the slice of `s` at `i` with only white space around it. */
  ghost predicate TrimmedAt(s: string, i: int, r: string)
  {
    && 0 <= i && i + |r| <= |s| && r == s[i..i + |r|]
    && (forall k :: 0 <= k < i ==> IsWhitespace(s[k]))
    && (forall k :: i + |r| <= k < |s| ==> IsWhitespace(s[k]))
  }

  /** `String.prototype.trim`: the longest slice of `s` that neither starts
      nor ends with white space. It is empty exactly when `s` is all white
      space. */
  function Trim(s: string): (r: string)
    ensures exists i :: TrimmedAt(s, i, r)
    ensures r != [] ==> !IsWhitespace(r[0]) && !IsWhitespace(r[|r| - 1])
    ensures r == [] <==> !HasVisibleChar(s)
  {
    var t := TrimStart(s);
    var r := TrimEnd(t);
    assert TrimmedAt(s, |s| - |t|, r) by {
      assert r == t[..|r|];
      assert t == s[|s| - |t|..];
    }
    assert HasVisibleChar(s) ==> r != [] by {
      if HasVisibleChar(s) {
        var k :| 0 <= k < |s| && !IsWhitespace(s[k]);
        assert |s| - |t| <= k;
        assert t[k - (|s| - |t|)] == s[k];
      }
    }
    r
  }

  /** Trimming twice trims nothing more. */
  lemma TrimIdempotent(s: string)
    ensures Trim(Trim(s)) == Trim(s)
  {
  }
}
