/**
 * The part of JavaScript's `String.prototype.trim` that the form handlers rely on:
 * `!inputValue.trim()` is true exactly when the input is empty after trimming.
 */
module JsText {

  /** The characters `trim` removes: ECMAScript's WhiteSpace and LineTerminator code points. */
  predicate IsWhitespace(c: char) {
    || c == '\t' || c == '\n' || c == '\U{B}' || c == '\U{C}' || c == '\r'
    || c == ' ' || c == '\U{A0}' || c == '\U{1680}'
    || ('\U{2000}' <= c <= '\U{200A}')
    || c == '\U{2028}' || c == '\U{2029}' || c == '\U{202F}' || c == '\U{205F}'
    || c == '\U{3000}' || c == '\U{FEFF}'
  }

  /** Drops the leading whitespace: the result is the suffix that starts at the first other character. */
  function TrimStart(s: string): (r: string)
    ensures |r| <= |s| && r == s[|s| - |r|..]
    ensures forall i :: 0 <= i < |s| - |r| ==> IsWhitespace(s[i])
    ensures r == [] || !IsWhitespace(r[0])
  {
    if s != [] && IsWhitespace(s[0]) then TrimStart(s[1..]) else s
  }

  /** Drops the trailing whitespace: the result is the prefix that ends at the last other character. */
  function TrimEnd(s: string): (r: string)
    ensures |r| <= |s| && r == s[..|r|]
    ensures forall i :: |r| <= i < |s| ==> IsWhitespace(s[i])
    ensures r == [] || !IsWhitespace(r[|r| - 1])
  {
    if s != [] && IsWhitespace(s[|s| - 1]) then TrimEnd(s[..|s| - 1]) else s
  }

  /**
   * `s.trim()`: a slice of `s` with only whitespace outside it, and either empty or
   * starting and ending with a non-whitespace character.
   */
  function Trim(s: string): (r: string)
    ensures exists a, b ::
      && 0 <= a <= b <= |s| && r == s[a..b]
      && (forall i :: 0 <= i < a ==> IsWhitespace(s[i]))
      && (forall i :: b <= i < |s| ==> IsWhitespace(s[i]))
    ensures r == [] || (!IsWhitespace(r[0]) && !IsWhitespace(r[|r| - 1]))
  {
    var t := TrimStart(s);
    var r := TrimEnd(t);
    var a := |s| - |t|;
    assert s[a..a + |r|] == r;
    r
  }

  /** `!s.trim()`: the empty string is the only falsy string, so blank means all whitespace. */
  predicate IsBlank(s: string)
    ensures IsBlank(s) <==> forall i :: 0 <= i < |s| ==> IsWhitespace(s[i])
  {
    Trim(s) == []
  }

  /** Trimming keeps what it does not remove: a non-blank string keeps its first non-whitespace character. */
  lemma TrimKeepsContent(s: string, i: nat)
    requires i < |s| && !IsWhitespace(s[i])
    requires forall j :: 0 <= j < i ==> IsWhitespace(s[j])
    ensures Trim(s) != [] && Trim(s)[0] == s[i]
  {
  }
}
