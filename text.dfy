/**
 * Python's notion of white space (`str.isspace`, which is also what the `re`
 * module's `\s` matches in a `str` pattern) and `str.strip()` without arguments.
 */
module Text {

  /** The code points for which Python's `str.isspace()` holds. */
  predicate IsSpace(c: char) {
    ('\t' <= c <= '\r') || ('\U{1C}' <= c <= ' ') || c == '\U{85}' || c == '\U{A0}'
    || c == '\U{1680}' || ('\U{2000}' <= c <= '\U{200A}') || c == '\U{2028}' || c == '\U{2029}'
    || c == '\U{202F}' || c == '\U{205F}' || c == '\U{3000}'
  }

  predicate AllSpace(s: string) {
    forall i :: 0 <= i < |s| ==> IsSpace(s[i])
  }

  /** The length of the white space that `s` starts with. */
  function LeadingSpace(s: string): (n: nat)
    ensures n <= |s| && AllSpace(s[..n])
    ensures n == |s| || !IsSpace(s[n])
  {
    if s != [] && IsSpace(s[0]) then
      var n := 1 + LeadingSpace(s[1..]);
      assert s[..n] == [s[0]] + s[1..][..n - 1];
      n
    else 0
  }

  /** Where the white space that ends `s` begins, looking no further back than `from`. */
  function TrailingSpace(s: string, from: nat): (m: nat)
    requires from <= |s|
    ensures from <= m <= |s| && AllSpace(s[m..])
    ensures m == from || !IsSpace(s[m - 1])
    decreases |s|
  {
    if |s| > from && IsSpace(s[|s| - 1]) then
      var m := TrailingSpace(s[..|s| - 1], from);
      assert s[m..] == s[..|s| - 1][m..] + [s[|s| - 1]];
      m
    else |s|
  }

  /**
   * `s.strip()`: the slice of `s` left once the white space at either end
   * is cut away; it neither starts nor ends with white space.
   */
  function Strip(s: string): (r: string)
    ensures r == s[LeadingSpace(s)..TrailingSpace(s, LeadingSpace(s))]
    ensures AllSpace(s[..LeadingSpace(s)]) && AllSpace(s[TrailingSpace(s, LeadingSpace(s))..])
    ensures r == [] || (!IsSpace(r[0]) && !IsSpace(r[|r| - 1]))
  {
    var n := LeadingSpace(s);
    s[n..TrailingSpace(s, n)]
  }

  /** Every character of `Strip(s)` is a character of `s`. */
  lemma StripChars(s: string)
    ensures forall k :: 0 <= k < |Strip(s)| ==> Strip(s)[k] in s
  {
    var n := LeadingSpace(s);
    forall k | 0 <= k < |Strip(s)| ensures Strip(s)[k] in s {
      assert Strip(s)[k] == s[n + k];
    }
  }

  /** Stripping twice is stripping once. */
  lemma StripIdempotent(s: string)
    ensures Strip(Strip(s)) == Strip(s)
  {
    var r := Strip(s);
    assert LeadingSpace(r) == 0;
    assert TrailingSpace(r, 0) == |r|;
  }
}
