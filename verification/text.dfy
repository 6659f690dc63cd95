/**
 The two string normalisations the handlers apply to form input: Python's
 `str.strip()` (drop leading and trailing whitespace) and `str.lower()`.
 */
module Text {

  /** The characters Python's `str.isspace()` accepts, which are exactly the
      ones `str.strip()` without arguments removes. */
  predicate IsSpace(c: char) {
    var n := c as int;
    || (9 <= n <= 13)          // \t \n \v \f \r
    || (28 <= n <= 32)         // the four separators \x1c..\x1f and ' '
    || n == 0x85 || n == 0xA0 || n == 0x1680
    || (0x2000 <= n <= 0x200A)
    || n == 0x2028 || n == 0x2029 || n == 0x202F || n == 0x205F || n == 0x3000
  }

  /** Every character of `s` is whitespace (true of the empty string). */
  predicate AllSpace(s: string) {
    forall k :: 0 <= k < |s| ==> IsSpace(s[k])
  }

  /** `s` neither starts nor ends with whitespace. */
  predicate Trimmed(s: string) {
    |s| > 0 ==> !IsSpace(s[0]) && !IsSpace(s[|s| - 1])
  }

  /** The end of the whitespace run of `s` that starts at `k`. */
  function SpaceRunFrom(s: string, k: nat): (n: nat)
    requires k <= |s|
    ensures k <= n <= |s|
    ensures forall j :: k <= j < n ==> IsSpace(s[j])
    ensures n < |s| ==> !IsSpace(s[n])
    decreases |s| - k
  {
    if k < |s| && IsSpace(s[k]) then SpaceRunFrom(s, k + 1) else k
  }

  /** The start of the whitespace run of `s` that ends at `k`, not going
      below `lo`. */
  function SpaceRunBefore(s: string, k: nat, lo: nat): (n: nat)
    requires lo <= k <= |s|
    ensures lo <= n <= k
    ensures forall j :: n <= j < k ==> IsSpace(s[j])
    ensures n > lo ==> !IsSpace(s[n - 1])
    decreases k
  {
    if k > lo && IsSpace(s[k - 1]) then SpaceRunBefore(s, k - 1, lo) else k
  }

  /** Where the stripped text starts and ends inside `s`. */
  function StripStart(s: string): nat {
    SpaceRunFrom(s, 0)
  }

  function StripEnd(s: string): nat {
    SpaceRunBefore(s, |s|, SpaceRunFrom(s, 0))
  }

  /** Python's `s.strip()`: the result has no outer whitespace, and `s` is the
      result padded on each side by whitespace only.  An all-whitespace input
      strips to the empty string, and only such an input does. */
  function Strip(s: string): (r: string)
    ensures Trimmed(r)
    ensures StripStart(s) <= StripEnd(s) <= |s|
    ensures r == s[StripStart(s)..StripEnd(s)]
    ensures forall k :: 0 <= k < StripStart(s) ==> IsSpace(s[k])
    ensures forall k :: StripEnd(s) <= k < |s| ==> IsSpace(s[k])
    ensures r == [] <==> AllSpace(s)
  {
    var i := StripStart(s);
    var j := StripEnd(s);
    if i == j then
      []
    else
      assert !IsSpace(s[i]);
      s[i..j]
  }

  /** A string without whitespace is its own stripped form. */
  lemma StripNoSpace(s: string)
    requires forall k :: 0 <= k < |s| ==> !IsSpace(s[k])
    ensures Strip(s) == s
  {
    if |s| > 0 {
      assert !IsSpace(s[|s| - 1]);
    }
  }

  /** Python's `str.lower()` on one character, for the ASCII letters. */
  function LowerChar(c: char): (d: char)
  {
    if 'A' <= c <= 'Z' then (c as int - 'A' as int + 'a' as int) as char else c
  }

  /** Python's `str.lower()`, character by character. */
  function Lower(s: string): (r: string)
    ensures |r| == |s|
    ensures forall k :: 0 <= k < |s| ==> r[k] == LowerChar(s[k])
  {
    seq(|s|, k requires 0 <= k < |s| => LowerChar(s[k]))
  }

  /** No upper-case ASCII letter survives lowering, and lowering twice is
      lowering once. */
  lemma LowerIsIdempotent(s: string)
    ensures forall k :: 0 <= k < |Lower(s)| ==> !('A' <= Lower(s)[k] <= 'Z')
    ensures Lower(Lower(s)) == Lower(s)
  {
  }

  /** Lowering never turns whitespace into non-whitespace or back. */
  lemma LowerKeepsSpace(c: char)
    ensures IsSpace(LowerChar(c)) == IsSpace(c)
  {
  }

  lemma {:induction false} SpaceRunFromOfLower(s: string, k: nat)
    requires k <= |s|
    ensures SpaceRunFrom(Lower(s), k) == SpaceRunFrom(s, k)
    decreases |s| - k
  {
    if k < |s| {
      LowerKeepsSpace(s[k]);
      SpaceRunFromOfLower(s, k + 1);
    }
  }

  lemma {:induction false} SpaceRunBeforeOfLower(s: string, k: nat, lo: nat)
    requires lo <= k <= |s|
    ensures SpaceRunBefore(Lower(s), k, lo) == SpaceRunBefore(s, k, lo)
    decreases k
  {
    if k > lo {
      LowerKeepsSpace(s[k - 1]);
      SpaceRunBeforeOfLower(s, k - 1, lo);
    }
  }

  /** `s.strip().lower()` (how an email is normalised) equals
      `s.lower().strip()`: whitespace is not a letter. */
  lemma LowerStripCommute(s: string)
    ensures Lower(Strip(s)) == Strip(Lower(s))
  {
    var a := StripStart(s);
    var b := StripEnd(s);
    SpaceRunFromOfLower(s, 0);
    SpaceRunBeforeOfLower(s, |s|, a);
    var low := Lower(s);
    assert StripStart(low) == a && StripEnd(low) == b;
    assert low[a..b] == Lower(s[a..b]) by {
      forall k | 0 <= k < b - a ensures low[a..b][k] == Lower(s[a..b])[k] {
        assert low[a + k] == LowerChar(s[a + k]);
      }
    }
  }
}
