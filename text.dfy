/**
 * Python's `str.strip()` with no argument: remove every leading and trailing
 * character for which `str.isspace()` holds, and nothing else.
 */
module Text {

  /** The characters for which Python's `str.isspace()` is true. */
  predicate IsWhitespace(c: char) {
    c == ' ' || ('\t' <= c <= '\r') || ('\U{1c}' <= c <= '\U{1f}')
    || c == '\U{85}' || c == '\U{a0}' || c == '\U{1680}'
    || ('\U{2000}' <= c <= '\U{200a}')
    || c == '\U{2028}' || c == '\U{2029}' || c == '\U{202f}' || c == '\U{205f}'
    || c == '\U{3000}'
  }

  predicate AllWhitespace(s: string) {
    forall k :: 0 <= k < |s| ==> IsWhitespace(s[k])
  }

  /** Neither the first nor the last character is whitespace. */
  predicate Trimmed(s: string) {
    s == [] || (!IsWhitespace(s[0]) && !IsWhitespace(s[|s| - 1]))
  }

  /**
   * `r` is what stripping `s` leaves: a contiguous piece of `s`, with only
   * whitespace cut off on either side, and no whitespace left at its ends.
   */
  ghost predicate IsStripOf(s: string, r: string) {
    Trimmed(r) &&
    exists i, j :: 0 <= i <= j <= |s| && r == s[i..j] && AllWhitespace(s[..i]) && AllWhitespace(s[j..])
  }

  /** The length of the longest all-whitespace prefix of `s`. */
  function LeadingCount(s: string): (n: nat)
    ensures n <= |s|
    ensures AllWhitespace(s[..n])
    ensures n < |s| ==> !IsWhitespace(s[n])
  {
    if s == [] || !IsWhitespace(s[0]) then 0 else 1 + LeadingCount(s[1..])
  }

  /** The length of the longest all-whitespace suffix of `s`. */
  function TrailingCount(s: string): (n: nat)
    ensures n <= |s|
    ensures AllWhitespace(s[|s| - n..])
    ensures n < |s| ==> !IsWhitespace(s[|s| - 1 - n])
  {
    if s == [] || !IsWhitespace(s[|s| - 1]) then 0 else 1 + TrailingCount(s[..|s| - 1])
  }

  function Strip(s: string): (r: string)
    ensures Trimmed(r) && |r| <= |s|
  {
    var i := LeadingCount(s);
    if i == |s| then []
    else
      var j := |s| - TrailingCount(s);
      assert i < j;
      s[i..j]
  }

  /** What `Strip` returns is a strip of its input: a piece of it with only whitespace cut away. */
  lemma StripIsStripOf(s: string)
    ensures IsStripOf(s, Strip(s))
  {
    var i, t := LeadingCount(s), TrailingCount(s);
    if i == |s| {
      assert s[0..0] == [] && s[..0] == [];
    } else {
      assert AllWhitespace(s[|s| - t..]);
    }
  }

  /** A prefix of whitespace ending before a non-whitespace character is the leading run. */
  lemma {:induction false} LeadingCountIs(s: string, i: nat)
    requires i <= |s| && AllWhitespace(s[..i]) && (i < |s| ==> !IsWhitespace(s[i]))
    ensures LeadingCount(s) == i
  {
    var n := LeadingCount(s);
    assert forall k :: 0 <= k < i ==> s[..i][k] == s[k];
    assert forall k :: 0 <= k < n ==> s[..n][k] == s[k];
  }

  /** A suffix of whitespace starting after a non-whitespace character is the trailing run. */
  lemma {:induction false} TrailingCountIs(s: string, j: nat)
    requires j <= |s| && AllWhitespace(s[j..]) && (0 < j ==> !IsWhitespace(s[j - 1]))
    ensures TrailingCount(s) == |s| - j
  {
    var m := |s| - TrailingCount(s);
    assert forall k :: j <= k < |s| ==> s[j..][k - j] == s[k];
    assert forall k :: m <= k < |s| ==> s[m..][k - m] == s[k];
  }

  /** Cutting whitespace off both ends of an all-whitespace string leaves nothing, as stripping does. */
  lemma StripAllWhitespace(s: string, i: nat, j: nat)
    requires i == j <= |s| && AllWhitespace(s[..i]) && AllWhitespace(s[j..])
    ensures Strip(s) == []
  {
    forall k | 0 <= k < |s|
      ensures IsWhitespace(s[k])
    {
      if k < i { assert s[k] == s[..i][k]; } else { assert s[k] == s[j..][k - j]; }
    }
    assert s[..|s|] == s;
    LeadingCountIs(s, |s|);
  }

  /** Cutting maximal whitespace runs off both ends of `s` is what stripping does. */
  lemma StripBetween(s: string, i: nat, j: nat)
    requires i < j <= |s| && AllWhitespace(s[..i]) && AllWhitespace(s[j..])
    requires !IsWhitespace(s[i]) && !IsWhitespace(s[j - 1])
    ensures Strip(s) == s[i..j]
  {
    LeadingCountIs(s, i);
    TrailingCountIs(s, j);
  }

  /** A trimmed piece of `s` with only whitespace around it is `Strip(s)`. */
  lemma StripOfPiece(s: string, i: nat, j: nat)
    requires i <= j <= |s| && Trimmed(s[i..j]) && AllWhitespace(s[..i]) && AllWhitespace(s[j..])
    ensures Strip(s) == s[i..j]
  {
    if i == j {
      StripAllWhitespace(s, i, j);
    } else {
      assert s[i..j][0] == s[i] && s[i..j][j - i - 1] == s[j - 1];
      StripBetween(s, i, j);
    }
  }

  /** Stripping is fully determined: whatever satisfies `IsStripOf(s, _)` is `Strip(s)`. */
  lemma StripUnique(s: string, r: string)
    requires IsStripOf(s, r)
    ensures r == Strip(s)
  {
    var i, j :| 0 <= i <= j <= |s| && r == s[i..j] && AllWhitespace(s[..i]) && AllWhitespace(s[j..]);
    StripOfPiece(s, i, j);
  }

  /** A string without surrounding whitespace is left as it is. */
  lemma StripTrimmed(s: string)
    requires Trimmed(s)
    ensures Strip(s) == s
  {
    assert s[0..|s|] == s && s[..0] == [] && s[|s|..] == [];
    StripUnique(s, s);
  }

  /** Stripping twice is stripping once. */
  lemma StripIdempotent(s: string)
    ensures Strip(Strip(s)) == Strip(s)
  {
    StripTrimmed(Strip(s));
  }
}
