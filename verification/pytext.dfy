/**
 The three Python string operations the study app relies on, with Python's
 semantics: `pat in s`, `s.replace(pat, rep)` (leftmost, non-overlapping) and
 `s.strip()` (removes characters for which `str.isspace` holds).
 */
module PyText {

  /** `pat` is a prefix of `s` or of one of its suffixes: Python's `pat in s`. */
  predicate Contains(s: string, pat: string)
    decreases |s|
  {
    pat <= s || (|s| > 0 && Contains(s[1..], pat))
  }

  /** Number of occurrences of the character `c` in `s`. */
  function Count(s: string, c: char): nat
    decreases |s|
  {
    if |s| == 0 then 0 else (if s[0] == c then 1 else 0) + Count(s[1..], c)
  }

  /**
   `s.replace(pat, rep)` for a non-empty `pat`: the leftmost occurrence is
   replaced first, and the scan resumes after the replaced occurrence.
   */
  function ReplaceAll(s: string, pat: string, rep: string): (r: string)
    requires |pat| > 0
    ensures !Contains(s, pat) ==> r == s
    decreases |s|
  {
    if |s| == 0 then []
    else if pat <= s then rep + ReplaceAll(s[|pat|..], pat, rep)
    else [s[0]] + ReplaceAll(s[1..], pat, rep)
  }

  /** The characters for which Python's `str.isspace` holds. */
  predicate IsSpace(c: char) {
    || ('\U{9}' <= c <= '\U{D}')
    || ('\U{1C}' <= c <= '\U{20}')
    || c == '\U{85}' || c == '\U{A0}' || c == '\U{1680}'
    || ('\U{2000}' <= c <= '\U{200A}')
    || c == '\U{2028}' || c == '\U{2029}' || c == '\U{202F}' || c == '\U{205F}' || c == '\U{3000}'
  }

  /** Every character of `s` is whitespace. */
  predicate AllSpace(s: string) {
    forall k :: 0 <= k < |s| ==> IsSpace(s[k])
  }

  /** Neither end of `s` is a whitespace character. */
  predicate Unpadded(s: string) {
    |s| == 0 || (!IsSpace(s[0]) && !IsSpace(s[|s| - 1]))
  }

  /** Number of whitespace characters `s.strip()` removes from the front. */
  function LeadingSpace(s: string): (n: nat)
    ensures n <= |s|
    ensures forall k :: 0 <= k < n ==> IsSpace(s[k])
    ensures n < |s| ==> !IsSpace(s[n])
    decreases |s|
  {
    if |s| > 0 && IsSpace(s[0]) then 1 + LeadingSpace(s[1..]) else 0
  }

  /** Number of whitespace characters `s.strip()` removes from the back. */
  function TrailingSpace(s: string): (n: nat)
    ensures n <= |s|
    ensures forall k :: |s| - n <= k < |s| ==> IsSpace(s[k])
    ensures n < |s| ==> !IsSpace(s[|s| - n - 1])
    decreases |s|
  {
    if |s| > 0 && IsSpace(s[|s| - 1]) then 1 + TrailingSpace(s[..|s| - 1]) else 0
  }

  /** `r` sits in `s` at offset `i` with only whitespace around it. */
  predicate StrippedFrom(s: string, i: nat, r: string) {
    && i + |r| <= |s|
    && r == s[i..i + |r|]
    && (forall k :: 0 <= k < i ==> IsSpace(s[k]))
    && (forall k :: i + |r| <= k < |s| ==> IsSpace(s[k]))
  }

  /** `s.strip()`: what is left after removing whitespace from both ends. */
  function Strip(s: string): (r: string)
    ensures Unpadded(r)
    ensures StrippedFrom(s, LeadingSpace(s), r)
  {
    var i := LeadingSpace(s);
    if i == |s| then []
    else
      var j := |s| - TrailingSpace(s);
      assert i < j;
      s[i..j]
  }

  /** The front count is the one position where the whitespace prefix ends. */
  lemma LeadingSpaceAt(s: string, n: nat)
    requires n <= |s|
    requires forall k :: 0 <= k < n ==> IsSpace(s[k])
    requires n < |s| ==> !IsSpace(s[n])
    ensures LeadingSpace(s) == n
  {
  }

  /** The back count is the one position where the whitespace suffix starts. */
  lemma TrailingSpaceAt(s: string, n: nat)
    requires n <= |s|
    requires forall k :: |s| - n <= k < |s| ==> IsSpace(s[k])
    requires n < |s| ==> !IsSpace(s[|s| - n - 1])
    ensures TrailingSpace(s) == n
  {
  }

  /** `strip` removes exactly the whitespace padding around an unpadded text. */
  lemma StripPadding(a: string, p: string, b: string)
    requires AllSpace(a) && AllSpace(b) && Unpadded(p)
    ensures Strip(a + p + b) == p
  {
    var s := a + p + b;
    if |p| > 0 {
      assert forall k :: 0 <= k < |a| ==> s[k] == a[k];
      assert s[|a|] == p[0];
      LeadingSpaceAt(s, |a|);
      assert forall k :: |s| - |b| <= k < |s| ==> s[k] == b[k - |a| - |p|];
      assert s[|s| - |b| - 1] == p[|p| - 1];
      TrailingSpaceAt(s, |b|);
      assert s[|a|..|s| - |b|] == p;
    } else {
      assert forall k :: 0 <= k < |s| ==> IsSpace(s[k]) by {
        assert forall k :: 0 <= k < |a| ==> s[k] == a[k];
        assert forall k :: |a| <= k < |s| ==> s[k] == b[k - |a|];
      }
      LeadingSpaceAt(s, |s|);
    }
  }

  /** A needle found in a suffix of `s` is found in `s`. */
  lemma {:induction false} ContainsInSuffix(s: string, k: nat, pat: string)
    requires k <= |s|
    requires Contains(s[k..], pat)
    ensures Contains(s, pat)
    decreases k
  {
    if k > 0 {
      assert s[1..][k - 1..] == s[k..];
      ContainsInSuffix(s[1..], k - 1, pat);
    }
  }

  /** A needle found in a prefix of `s` is found in `s`. */
  lemma {:induction false} ContainsInPrefix(s: string, m: nat, pat: string)
    requires m <= |s|
    requires Contains(s[..m], pat)
    ensures Contains(s, pat)
    decreases m
  {
    if pat <= s[..m] {
      assert pat <= s;
    } else {
      assert s[..m][1..] == s[1..][..m - 1];
      ContainsInPrefix(s[1..], m - 1, pat);
    }
  }

  /** A needle found in a slice of `s` is found in `s`. */
  lemma ContainsInSlice(s: string, i: nat, j: nat, pat: string)
    requires i <= j <= |s|
    requires Contains(s[i..j], pat)
    ensures Contains(s, pat)
  {
    assert s[i..j] == s[i..][..j - i];
    ContainsInPrefix(s[i..], j - i, pat);
    ContainsInSuffix(s, i, pat);
  }

  /** A prefix free of the pattern's first character is copied through by `replace`. */
  lemma {:induction false} ReplaceSkipsPlain(x: string, y: string, pat: string, rep: string)
    requires |pat| > 0 && pat[0] !in x
    ensures ReplaceAll(x + y, pat, rep) == x + ReplaceAll(y, pat, rep)
    decreases |x|
  {
    if |x| > 0 {
      assert (x + y)[0] == x[0] != pat[0];
      assert (x + y)[1..] == x[1..] + y;
      ReplaceSkipsPlain(x[1..], y, pat, rep);
      assert x == [x[0]] + x[1..];
    } else {
      assert x + y == y;
    }
  }
}
