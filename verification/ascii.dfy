/** ASCII character classes (`isspace`, `isdigit`) and case folding with the
    case-insensitive comparisons built on it. Both the watch (`tolower` in
    the C locale) and the phone (`toLowerCase`, restricted here to ASCII)
    fold only the letters A-Z. */
module Ascii {

  /** `isspace` in the C locale: space, \t, \n, \v, \f, \r. */
  predicate IsSpace(c: char) { c == ' ' || 9 <= c as int <= 13 }

  /** `isdigit`. */
  predicate IsDigit(c: char) { '0' <= c <= '9' }

  /** `tolower` in the C locale: A-Z become a-z, every other character is kept. */
  function Lower(c: char): (r: char)
    ensures 'A' <= c <= 'Z' ==> r as int == c as int + 32
    ensures !('A' <= c <= 'Z') ==> r == c
    ensures 'A' <= r <= 'Z' ==> false
  {
    if 'A' <= c <= 'Z' then (c as int + 32) as char else c
  }

  /** Two strings of the same length that agree position by position once folded. */
  predicate EqCI(a: string, b: string) {
    |a| == |b| && forall i :: 0 <= i < |a| ==> Lower(a[i]) == Lower(b[i])
  }

  /** `s` begins with `p`, ignoring ASCII case. */
  predicate HasPrefixCI(s: string, p: string) {
    |p| <= |s| && EqCI(s[..|p|], p)
  }

  /** `n` occurs in `h` at offset `k`, ignoring ASCII case. */
  predicate MatchAt(h: string, n: string, k: nat) {
    k + |n| <= |h| && EqCI(h[k..k + |n|], n)
  }

  /** `n` occurs somewhere in `h`, ignoring ASCII case. */
  predicate ContainsCI(h: string, n: string) {
    exists k :: 0 <= k <= |h| && MatchAt(h, n, k)
  }

  /** A string with no upper-case ASCII letter (the markers searched for). */
  predicate IsLowerCase(w: string) {
    forall i :: 0 <= i < |w| ==> !('A' <= w[i] <= 'Z')
  }

  lemma MatchAtZero(h: string, n: string)
    ensures MatchAt(h, n, 0) <==> HasPrefixCI(h, n)
  {
    if |n| <= |h| {
      assert h[0..|n|] == h[..|n|];
    }
  }

  /** A case-insensitive prefix is a case-insensitive occurrence. */
  lemma PrefixContains(h: string, n: string)
    requires HasPrefixCI(h, n)
    ensures ContainsCI(h, n)
  {
    MatchAtZero(h, n);
    assert MatchAt(h, n, 0);
  }
}
