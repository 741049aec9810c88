/** `String.prototype.trim`: removes the white space and line terminators
    of ECMA-262 (sections 12.2 and 12.3) from both ends of a string. */
module JsText {

  /** WhiteSpace (tab, vertical tab, form feed, no-break space, byte-order
      mark and the space separators of category Zs) and LineTerminator
      (line feed, carriage return, line and paragraph separators). */
  predicate IsWhitespace(c: char) {
    c == '\t' || c == '\n' || c == '\U{000B}' || c == '\U{000C}' || c == '\r'
    || c == ' ' || c == '\U{00A0}' || c == '\U{1680}'
    || ('\U{2000}' <= c <= '\U{200A}')
    || c == '\U{2028}' || c == '\U{2029}' || c == '\U{202F}' || c == '\U{205F}'
    || c == '\U{3000}' || c == '\U{FEFF}'
  }

  /** Every character of s from lo up to (not including) hi is white space. */
  predicate WhitespaceBetween(s: string, lo: int, hi: int)
    requires 0 <= lo <= hi <= |s|
  {
    forall i :: lo <= i < hi ==> IsWhitespace(s[i])
  }

  predicate AllWhitespace(s: string) {
    WhitespaceBetween(s, 0, |s|)
  }

  /** `trimStart`: what is left after the leading white space. */
  function TrimStart(s: string): (r: string)
    ensures |r| <= |s| && r == s[|s| - |r|..]
    ensures r == [] || !IsWhitespace(r[0])
    ensures WhitespaceBetween(s, 0, |s| - |r|)
  {
    if s == [] || !IsWhitespace(s[0]) then s
    else
      var r := TrimStart(s[1..]);
      assert forall i :: 1 <= i < |s| ==> s[i] == s[1..][i - 1];
      r
  }

  /** `trimEnd`: what is left before the trailing white space. */
  function TrimEnd(s: string): (r: string)
    ensures |r| <= |s| && r == s[..|r|]
    ensures r == [] || !IsWhitespace(r[|r| - 1])
    ensures WhitespaceBetween(s, |r|, |s|)
  {
    if s == [] || !IsWhitespace(s[|s| - 1]) then s
    else
      var r := TrimEnd(s[..|s| - 1]);
      assert forall i :: 0 <= i < |s| - 1 ==> s[i] == s[..|s| - 1][i];
      r
  }

  /** How much white space `trim` cuts off the front of s. */
  function LeadingCut(s: string): (n: nat)
    ensures n <= |s| && WhitespaceBetween(s, 0, n)
    ensures n == |s| || !IsWhitespace(s[n])
  {
    |s| - |TrimStart(s)|
  }

  /** The trimmed string is the piece of the input after the leading white
      space that neither starts nor ends with white space, and everything cut
      off after it is white space too. */
  function Trim(s: string): (r: string)
    ensures LeadingCut(s) + |r| <= |s|
    ensures r == s[LeadingCut(s)..LeadingCut(s) + |r|]
    ensures WhitespaceBetween(s, LeadingCut(s) + |r|, |s|)
    ensures r == [] || (!IsWhitespace(r[0]) && !IsWhitespace(r[|r| - 1]))
  {
    var t := TrimStart(s);
    var r := TrimEnd(t);
    TrimPieces(s, |s| - |t|, t, r);
    r
  }

  /** The pieces of `trim` in the input: a prefix r of the suffix t of s
      that starts at i is the slice of s from i, and white space after r in
      t is white space in s. */
  lemma TrimPieces(s: string, i: nat, t: string, r: string)
    requires i <= |s| && t == s[i..]
    requires |r| <= |t| && r == t[..|r|]
    requires WhitespaceBetween(t, |r|, |t|)
    ensures i + |r| <= |s| && r == s[i..i + |r|]
    ensures WhitespaceBetween(s, i + |r|, |s|)
  {
    assert forall k :: i + |r| <= k < |s| ==> s[k] == t[k - i];
  }

  /** A string trims to nothing exactly when it is all white space. */
  lemma TrimEmpty(s: string)
    ensures Trim(s) == "" <==> AllWhitespace(s)
  {
  }

  /** Trimming twice is trimming once. */
  lemma TrimIdempotent(s: string)
    ensures Trim(Trim(s)) == Trim(s)
  {
  }
}
