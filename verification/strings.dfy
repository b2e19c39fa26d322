/**
 Whitespace trimming as Rust's `str::trim` does it: leading and trailing
 characters with the Unicode `White_Space` property are removed, nothing in
 the interior is touched.
 */
module Strings {

  /** The Unicode `White_Space` property (what `char::is_whitespace` tests). */
  predicate IsWhitespace(c: char)
  {
    || '\t' <= c <= '\r'
    || c == ' '
    || c == '\U{85}'
    || c == '\U{A0}'
    || c == '\U{1680}'
    || '\U{2000}' <= c <= '\U{200A}'
    || c == '\U{2028}'
    || c == '\U{2029}'
    || c == '\U{202F}'
    || c == '\U{205F}'
    || c == '\U{3000}'
  }

  /** `s` without its leading whitespace: a suffix of `s` that starts with a
      non-whitespace character (or is empty), and only whitespace was cut. */
  function TrimStart(s: string): (r: string)
    ensures |r| <= |s| && r == s[|s| - |r|..]
    ensures forall i :: 0 <= i < |s| - |r| ==> IsWhitespace(s[i])
    ensures r == [] || !IsWhitespace(r[0])
    decreases |s|
  {
    if |s| > 0 && IsWhitespace(s[0]) then TrimStart(s[1..]) else s
  }

  /** `s` without its trailing whitespace: a prefix of `s` that ends with a
      non-whitespace character (or is empty), and only whitespace was cut. */
  function TrimEnd(s: string): (r: string)
    ensures |r| <= |s| && r == s[..|r|]
    ensures forall i :: |r| <= i < |s| ==> IsWhitespace(s[i])
    ensures r == [] || !IsWhitespace(r[|r| - 1])
    decreases |s|
  {
    if |s| > 0 && IsWhitespace(s[|s| - 1]) then TrimEnd(s[..|s| - 1]) else s
  }

  /** `s` with both its leading and its trailing whitespace removed: the
      slice of `s` between the leading and the trailing whitespace run. */
  function Trim(s: string): (r: string)
    ensures r == [] || (!IsWhitespace(r[0]) && !IsWhitespace(r[|r| - 1]))
    ensures var k := |s| - |TrimStart(s)|;
            && k + |r| <= |s|
            && r == s[k..k + |r|]
            && (forall i :: 0 <= i < k ==> IsWhitespace(s[i]))
            && (forall i :: k + |r| <= i < |s| ==> IsWhitespace(s[i]))
  {
    TrimEnd(TrimStart(s))
  }

  /** A string that neither starts nor ends with whitespace is its own trim. */
  lemma TrimUnchanged(s: string)
    requires s == [] || (!IsWhitespace(s[0]) && !IsWhitespace(s[|s| - 1]))
    ensures Trim(s) == s
  {
  }

  /** Trimming twice is trimming once. */
  lemma TrimIdempotent(s: string)
    ensures Trim(Trim(s)) == Trim(s)
  {
    TrimUnchanged(Trim(s));
  }

  /** The trim is empty exactly when the string is all whitespace. */
  lemma TrimEmptyIff(s: string)
    ensures Trim(s) == [] <==> forall i :: 0 <= i < |s| ==> IsWhitespace(s[i])
  {
    if Trim(s) != [] {
      var k := |s| - |TrimStart(s)|;
      assert s[k] == Trim(s)[0];
    }
  }
}
