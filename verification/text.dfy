/**
 * The few string operations the programs use: Python's `str.strip()`,
 * `str.lower()` on ASCII letters, and the substring test `sub in s`.
 */
module Text {

  /** The characters Python's `str.isspace()` accepts. */
  predicate IsSpace(c: char)
  {
    var n := c as int;
    || n == 0x20 || 0x09 <= n <= 0x0d || 0x1c <= n <= 0x1f || n == 0x85 || n == 0xa0
    || n == 0x1680 || 0x2000 <= n <= 0x200a || n == 0x2028 || n == 0x2029
    || n == 0x202f || n == 0x205f || n == 0x3000
  }

  /** The index of the first non-space character of `s` at or after `k`, or `|s|` if there is none. */
  function FirstNonSpace(s: string, k: nat): (i: nat)
    requires k <= |s|
    ensures k <= i <= |s|
    ensures i < |s| ==> !IsSpace(s[i])
    ensures forall t | k <= t < i :: IsSpace(s[t])
    decreases |s| - k
  {
    if k == |s| || !IsSpace(s[k]) then k else FirstNonSpace(s, k + 1)
  }

  /** The end of the text of `s[lo..k]`: trailing whitespace from `k` down to `lo` is skipped. */
  function EndOfText(s: string, lo: nat, k: nat): (j: nat)
    requires lo <= k <= |s|
    ensures lo <= j <= k
    ensures j > lo ==> !IsSpace(s[j - 1])
    ensures forall t | j <= t < k :: IsSpace(s[t])
    decreases k
  {
    if k == lo || !IsSpace(s[k - 1]) then k else EndOfText(s, lo, k - 1)
  }

  /** Python's `s.strip()`: leading and trailing whitespace removed. */
  function Strip(s: string): string
  {
    var i := FirstNonSpace(s, 0);
    s[i..EndOfText(s, i, |s|)]
  }

  /**
   * `Strip(s)` is the slice `s[i..j]` between a whitespace prefix and a
   * whitespace suffix, and starts and ends with a non-space character.
   */
  lemma StripBounds(s: string) returns (i: nat, j: nat)
    ensures i <= j <= |s| && Strip(s) == s[i..j]
    ensures forall t | 0 <= t < i :: IsSpace(s[t])
    ensures forall t | j <= t < |s| :: IsSpace(s[t])
    ensures i < j ==> !IsSpace(s[i]) && !IsSpace(s[j - 1])
  {
    i := FirstNonSpace(s, 0);
    j := EndOfText(s, i, |s|);
  }

  /** Stripping a string made only of whitespace leaves nothing. */
  lemma StripAllSpace(s: string)
    ensures Strip(s) == [] <==> forall i | 0 <= i < |s| :: IsSpace(s[i])
  {
    var i, j := StripBounds(s);
  }

  predicate IsUpper(c: char)
  {
    'A' <= c <= 'Z'
  }

  /** ASCII upper-case letters become lower-case; every other character is kept. */
  function LowerChar(c: char): (r: char)
    ensures IsUpper(c) ==> 'a' <= r <= 'z' && r as int == c as int + 32
    ensures !IsUpper(c) ==> r == c
  {
    if IsUpper(c) then (c as int - 'A' as int + 'a' as int) as char else c
  }

  /**
   * Python's `s.lower()`, restricted to ASCII letters: the result has the
   * same length, no upper-case letter, and each character is either the
   * original one or, for a capital, the letter 32 code points above it.
   */
  function Lower(s: string): (r: string)
    ensures |r| == |s|
    ensures forall i | 0 <= i < |r| :: !IsUpper(r[i])
    ensures forall i | 0 <= i < |s| :: if IsUpper(s[i]) then r[i] as int == s[i] as int + 32 else r[i] == s[i]
  {
    seq(|s|, i requires 0 <= i < |s| => LowerChar(s[i]))
  }

  /** Lower-casing twice is lower-casing once. */
  lemma LowerIdempotent(s: string)
    ensures Lower(Lower(s)) == Lower(s)
  {
  }

  /** Python's `sub in s`: `sub` occurs in `s` at some position. */
  predicate Contains(s: string, sub: string)
  {
    exists i | 0 <= i <= |s| :: sub <= s[i..]
  }

  /** The empty string occurs in every string, and every string in itself. */
  lemma ContainsBasics(s: string)
    ensures Contains(s, "") && Contains(s, s)
  {
    assert s[0..] == s;
  }
}
