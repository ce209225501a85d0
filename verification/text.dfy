/** The two string primitives the to-do list controller relies on:
    Python's `str.strip()` (applied to the entered task text) and the
    substring test `needle in haystack` (used to detect the completion
    mark). */
module Text {

  /** The ASCII characters Python's `str.isspace()` accepts: tab, line
      feed, vertical tab, form feed, carriage return, the four separator
      controls 0x1C-0x1F, and space. */
  predicate IsSpace(c: char) {
    || c == ' '
    || c == '\t'
    || c == '\n'
    || c == '\r'
    || c == '\U{000B}'
    || c == '\U{000C}'
    || ('\U{001C}' <= c <= '\U{001F}')
  }

  /** Every character of `s` is whitespace (vacuously true of ""). */
  predicate AllSpace(s: string) {
    forall k :: 0 <= k < |s| ==> IsSpace(s[k])
  }

  /** `r` sits at offset `i` of `s` with only whitespace on either side. */
  predicate StrippedAt(s: string, r: string, i: int) {
    && 0 <= i
    && i + |r| <= |s|
    && s[i..i + |r|] == r
    && AllSpace(s[..i])
    && AllSpace(s[i + |r|..])
  }

  /** `r` neither starts nor ends with whitespace. */
  predicate Trimmed(r: string) {
    |r| > 0 ==> !IsSpace(r[0]) && !IsSpace(r[|r| - 1])
  }

  /** Length of the longest all-whitespace prefix of `s`. */
  function LeadingSpace(s: string): (n: nat)
    ensures n <= |s|
    ensures AllSpace(s[..n])
    ensures n < |s| ==> !IsSpace(s[n])
  {
    if |s| == 0 || !IsSpace(s[0]) then 0
    else
      var m := LeadingSpace(s[1..]);
      assert forall k :: 1 <= k < 1 + m ==> s[k] == s[1..][..m][k - 1];
      1 + m
  }

  /** Length of the longest all-whitespace suffix of `s`. */
  function TrailingSpace(s: string): (n: nat)
    ensures n <= |s|
    ensures AllSpace(s[|s| - n..])
    ensures n < |s| ==> !IsSpace(s[|s| - n - 1])
  {
    if |s| == 0 || !IsSpace(s[|s| - 1]) then 0
    else
      var init := s[..|s| - 1];
      var m := TrailingSpace(init);
      assert s[|s| - 1 - m..] == init[|init| - m..] + [s[|s| - 1]];
      1 + m
  }

  /** Python's `s.strip()`: drop leading, then trailing, whitespace. */
  function Strip(s: string): (r: string)
    ensures Trimmed(r)
    ensures exists i :: StrippedAt(s, r, i)
    ensures |r| == 0 <==> AllSpace(s)
  {
    var lead := LeadingSpace(s);
    var t := s[lead..];
    var trail := TrailingSpace(t);
    var r := t[..|t| - trail];
    assert s[lead..lead + |r|] == r;
    assert s[lead + |r|..] == t[|t| - trail..];
    assert StrippedAt(s, r, lead);
    r
  }

  /** Stripping is determined by its contract: any infix of `s` that is
      surrounded only by whitespace and has no whitespace at its ends is
      exactly `Strip(s)`. */
  lemma {:induction false} StripUnique(s: string, r: string, i: int)
    requires StrippedAt(s, r, i)
    requires Trimmed(r)
    requires |r| == 0 ==> AllSpace(s)
    ensures r == Strip(s)
  {
    var q := Strip(s);
    var j :| StrippedAt(s, q, j);
    if |r| == 0 {
      assert |q| == 0;
    } else {
      assert |q| > 0 by {
        assert s[i] == r[0];
        assert !AllSpace(s);
      }
      // Both infixes start at the first non-space character ...
      assert i == j;
      // ... and end at the last one.
      assert |r| == |q|;
    }
  }

  /** Stripping twice is stripping once. */
  lemma StripIdempotent(s: string)
    ensures Strip(Strip(s)) == Strip(s)
  {
    StripTrimmed(Strip(s));
  }

  /** Text without whitespace at either end is left alone by stripping. */
  lemma StripTrimmed(s: string)
    requires Trimmed(s)
    ensures Strip(s) == s
  {
    assert s[0..0 + |s|] == s;
    assert StrippedAt(s, s, 0);
    StripUnique(s, s, 0);
  }

  /** `p` occurs in `s` starting at offset `k`. */
  predicate OccursAt(s: string, p: string, k: int) {
    0 <= k && k + |p| <= |s| && s[k..k + |p|] == p
  }

  /** Python's substring test `p in s`. */
  function Contains(s: string, p: string): (b: bool)
    ensures b <==> exists k :: OccursAt(s, p, k)
    decreases |s|
  {
    if |s| < |p| then false
    else if s[..|p|] == p then
      assert OccursAt(s, p, 0);
      true
    else
      ShiftOccurrence(s, p);
      Contains(s[1..], p)
  }

  /** Dropping a first character that does not start an occurrence loses no
      occurrence. */
  lemma ShiftOccurrence(s: string, p: string)
    requires |p| <= |s|
    requires s[..|p|] != p
    ensures (exists k :: OccursAt(s, p, k)) <==> (exists k :: OccursAt(s[1..], p, k))
  {
    if k :| OccursAt(s, p, k) {
      assert k != 0;
      assert s[1..][k - 1..k - 1 + |p|] == s[k..k + |p|];
      assert OccursAt(s[1..], p, k - 1);
    }
    if k :| OccursAt(s[1..], p, k) {
      assert s[k + 1..k + 1 + |p|] == s[1..][k..k + |p|];
      assert OccursAt(s, p, k + 1);
    }
  }

  /** A string always contains what was just appended to it. */
  lemma ContainsAppended(s: string, p: string)
    ensures Contains(s + p, p)
  {
    assert (s + p)[|s|..|s| + |p|] == p;
    assert OccursAt(s + p, p, |s|);
  }

  /** A string lacking the last character of `p` cannot contain `p`. */
  lemma AbsentCharNotContained(s: string, p: string)
    requires |p| > 0
    requires p[|p| - 1] !in s
    ensures !Contains(s, p)
  {
  }
}
