/** The two string operations the source applies to user input:
    `String.prototype.trim` and `String.prototype.trimStart`. */
module Text {

  /** ECMAScript's WhiteSpace and LineTerminator code points, which is what
      `trim` and `trimStart` strip (section 22.1.3.32.1 of ECMA-262). All of
      them lie in the Basic Multilingual Plane, so reading a JavaScript string
      as a sequence of code points changes nothing here. */
  predicate IsWhitespace(c: char)
  {
    || c == '\t' || c == '\n' || c == '\U{000B}' || c == '\U{000C}' || c == '\r'
    || c == ' ' || c == '\U{00A0}' || c == '\U{1680}'
    || ('\U{2000}' <= c <= '\U{200A}')
    || c == '\U{2028}' || c == '\U{2029}' || c == '\U{202F}' || c == '\U{205F}'
    || c == '\U{3000}' || c == '\U{FEFF}'
  }

  predicate AllWhitespace(s: string)
  {
    forall i | 0 <= i < |s| :: IsWhitespace(s[i])
  }

  /** The length of the run of whitespace that starts `s`. */
  function LeadingWhitespace(s: string): (k: nat)
    ensures k <= |s|
    ensures forall i | 0 <= i < k :: IsWhitespace(s[i])
    ensures k < |s| ==> !IsWhitespace(s[k])
  {
    if |s| == 0 || !IsWhitespace(s[0]) then 0
    else 1 + LeadingWhitespace(s[1..])
  }

  /** The length of the run of whitespace that ends `s`. */
  function TrailingWhitespace(s: string): (k: nat)
    ensures k <= |s|
    ensures forall i | |s| - k <= i < |s| :: IsWhitespace(s[i])
    ensures k < |s| ==> !IsWhitespace(s[|s| - k - 1])
  {
    if |s| == 0 || !IsWhitespace(s[|s| - 1]) then 0
    else 1 + TrailingWhitespace(s[..|s| - 1])
  }

  /** `s.trimStart()`: the suffix of `s` left after its leading whitespace. */
  function TrimStart(s: string): (r: string)
    ensures |r| <= |s| && r == s[|s| - |r|..]
    ensures AllWhitespace(s[..|s| - |r|])
    ensures r == [] || !IsWhitespace(r[0])
  {
    s[LeadingWhitespace(s)..]
  }

  /** `s.trimEnd()`: the prefix of `s` left before its trailing whitespace. */
  function TrimEnd(s: string): (r: string)
    ensures |r| <= |s| && r == s[..|r|]
    ensures AllWhitespace(s[|r|..])
    ensures r == [] || !IsWhitespace(r[|r| - 1])
  {
    s[..|s| - TrailingWhitespace(s)]
  }

  /** `s.trim()`: `s` without its leading and trailing whitespace. The result
      is a contiguous piece of `s` that neither starts nor ends with
      whitespace, everything cut off is whitespace, and it is empty exactly
      when `s` is all whitespace. */
  function Trim(s: string): (r: string)
    ensures exists k | 0 <= k <= |s| - |r| ::
      r == s[k..k + |r|] && AllWhitespace(s[..k]) && AllWhitespace(s[k + |r|..])
    ensures r == [] || (!IsWhitespace(r[0]) && !IsWhitespace(r[|r| - 1]))
    ensures r == [] <==> AllWhitespace(s)
  {
    var t := TrimStart(s);
    var r := TrimEnd(t);
    var k := |s| - |t|;
    assert r == s[k..k + |r|];
    assert s[k + |r|..] == t[|r|..];
    assert s == s[..k] + t;
    r
  }
}
