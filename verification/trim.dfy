/**
 * Trimming of white space and newlines at both ends of a string, as the
 * address bar does before it commits an address.
 */
module Trim {

  /**
   * Foundation's `whitespacesAndNewlines`: the Unicode space separators and
   * the zero-width space U+200B, the line and paragraph separators, tab,
   * U+000A to U+000D and U+0085.
   */
  predicate IsWhitespace(c: char)
    ensures c as int < 0x80 ==> (IsWhitespace(c) <==> c == ' ' || '\t' <= c <= '\r')
    ensures IsWhitespace(c) ==> c != '\U{FEFF}' && c != '\U{200C}' && c != '\U{200D}'
  {
    || c == '\t' || c == '\n' || c == '\U{000B}' || c == '\U{000C}' || c == '\r'
    || c == '\U{0085}' || c == '\U{2028}' || c == '\U{2029}'
    || c == ' ' || c == '\U{00A0}' || c == '\U{1680}' || ('\U{2000}' <= c <= '\U{200B}')
    || c == '\U{202F}' || c == '\U{205F}' || c == '\U{3000}'
  }

  /** Every character of `s` from `lo` up to `hi` is white space. */
  predicate WhitespaceBetween(s: string, lo: nat, hi: nat)
    requires lo <= hi <= |s|
  {
    forall i :: lo <= i < hi ==> IsWhitespace(s[i])
  }

  /** The number of white-space characters at the start of `s`. */
  function LeadingCount(s: string): (k: nat)
    ensures k <= |s|
    ensures WhitespaceBetween(s, 0, k)
    ensures k < |s| ==> !IsWhitespace(s[k])
  {
    if |s| == 0 || !IsWhitespace(s[0]) then 0
    else 1 + LeadingCount(s[1..])
  }

  /** The number of white-space characters at the end of `s`. */
  function TrailingCount(s: string): (k: nat)
    ensures k <= |s|
    ensures WhitespaceBetween(s, |s| - k, |s|)
    ensures k < |s| ==> !IsWhitespace(s[|s| - k - 1])
  {
    if |s| == 0 || !IsWhitespace(s[|s| - 1]) then 0
    else 1 + TrailingCount(s[..|s| - 1])
  }

  /**
   * `trimmingCharacters(in: .whitespacesAndNewlines)`: what is left of `s`
   * once the white space at both ends is dropped.
   */
  function Trimmed(s: string): (r: string)
    ensures LeadingCount(s) + |r| <= |s|
    ensures r == s[LeadingCount(s)..LeadingCount(s) + |r|]
    ensures WhitespaceBetween(s, 0, LeadingCount(s))
    ensures WhitespaceBetween(s, LeadingCount(s) + |r|, |s|)
    ensures r == [] || (!IsWhitespace(r[0]) && !IsWhitespace(r[|r| - 1]))
  {
    var a := LeadingCount(s);
    var b := TrailingCount(s[a..]);
    s[a..|s| - b]
  }

  /** A string with no white space at either end trims to itself. */
  lemma TrimmedFixed(s: string)
    requires s == [] || (!IsWhitespace(s[0]) && !IsWhitespace(s[|s| - 1]))
    ensures Trimmed(s) == s
  {
    if s != [] {
      assert LeadingCount(s) == 0;
      assert TrailingCount(s) == 0;
    }
  }

  /** Trimming twice is trimming once. */
  lemma TrimmedIdempotent(s: string)
    ensures Trimmed(Trimmed(s)) == Trimmed(s)
  {
    TrimmedFixed(Trimmed(s));
  }
}
