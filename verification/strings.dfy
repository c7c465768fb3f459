/** The few Python `str` builtins the pipeline relies on: `startswith`,
    character search, and `strip()` without arguments. */
module Strings {

  type String = seq<char>

  /** `str.isspace()` on the ASCII range: tab, line feed, vertical tab, form
      feed, carriage return, the four separators 0x1C..0x1F, and space. */
  predicate IsSpace(c: char) {
    c == ' ' || '\t' <= c <= '\r' || '\U{1C}' <= c <= '\U{1F}'
  }

  /** Every character of `s` in `[lo, hi)` is whitespace. */
  predicate SpaceBetween(s: String, lo: int, hi: int)
    requires 0 <= lo && hi <= |s|
  {
    forall k :: lo <= k < hi ==> IsSpace(s[k])
  }

  /** `s.startswith(p)`. */
  predicate StartsWith(s: String, p: String) {
    |p| <= |s| && s[..|p|] == p
  }

  /** The index of the first `c` in `s` at or after `k`, or `|s|` when there
      is none. */
  function NextFrom(s: String, c: char, k: nat): (n: nat)
    requires k <= |s|
    ensures k <= n <= |s|
    ensures forall m :: k <= m < n ==> s[m] != c
    ensures n < |s| ==> s[n] == c
    decreases |s| - k
  {
    if k == |s| || s[k] == c then k else NextFrom(s, c, k + 1)
  }

  /** The end of the run of whitespace that starts at `k`. */
  function SkipSpaces(s: String, k: nat): (n: nat)
    requires k <= |s|
    ensures k <= n <= |s| && SpaceBetween(s, k, n)
    ensures n < |s| ==> !IsSpace(s[n])
    decreases |s| - k
  {
    if k < |s| && IsSpace(s[k]) then SkipSpaces(s, k + 1) else k
  }

  /** The start of the run of whitespace that ends at `k`, not going below `lo`. */
  function SkipSpacesBack(s: String, lo: nat, k: nat): (n: nat)
    requires lo <= k <= |s|
    ensures lo <= n <= k && SpaceBetween(s, n, k)
    ensures lo < n ==> !IsSpace(s[n - 1])
    decreases k
  {
    if lo < k && IsSpace(s[k - 1]) then SkipSpacesBack(s, lo, k - 1) else k
  }

  /** `r` is the slice of `s` starting at `i` with only whitespace around it. */
  ghost predicate StrippedAt(s: String, r: String, i: int) {
    && 0 <= i <= |s| - |r|
    && r == s[i..i + |r|]
    && SpaceBetween(s, 0, i)
    && SpaceBetween(s, i + |r|, |s|)
  }

  /** `s.strip()`: `s` without its leading and trailing whitespace. */
  function Strip(s: String): (r: String)
    ensures r == [] || (!IsSpace(r[0]) && !IsSpace(r[|r| - 1]))
    ensures exists i :: StrippedAt(s, r, i)
  {
    var a := SkipSpaces(s, 0);
    var e := SkipSpacesBack(s, a, |s|);
    assert StrippedAt(s, s[a..e], a);
    s[a..e]
  }

  /** Strip is determined by its contract: the one slice of `s` that has only
      whitespace around it and no whitespace at either end. */
  lemma {:induction false} StripUnique(s: String, i: nat, j: nat)
    requires i <= j <= |s|
    requires SpaceBetween(s, 0, i) && SpaceBetween(s, j, |s|)
    requires i < j ==> !IsSpace(s[i]) && !IsSpace(s[j - 1])
    requires i == j ==> SpaceBetween(s, 0, |s|)
    ensures Strip(s) == s[i..j]
  {
    var a := SkipSpaces(s, 0);
    var e := SkipSpacesBack(s, a, |s|);
    if i < j {
      assert a == i;
      assert e == j;
    } else {
      assert a == |s|;
    }
  }

  lemma {:induction false} StripIdempotent(s: String)
    ensures Strip(Strip(s)) == Strip(s)
  {
    StripNoop(Strip(s));
  }

  /** Text without whitespace at either end is left alone by strip. */
  lemma {:induction false} StripNoop(s: String)
    requires s == [] || (!IsSpace(s[0]) && !IsSpace(s[|s| - 1]))
    ensures Strip(s) == s
  {
    StripUnique(s, 0, |s|);
  }
}
