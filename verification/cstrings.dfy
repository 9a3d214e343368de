/** NUL-terminated byte strings as the watch app sees them, and the string
    routines OpenMensa.c relies on: its own `strncasecmp` and `strcasestr`,
    and the C library's `strchr` and `strncpy`. */
module CStrings {
  import opened Common
  import opened Ascii

  /** A byte of a C string other than its terminator. */
  predicate IsByte(c: char) { 0 < c as int < 256 }

  /** The characters of a C string before its terminating NUL, one per byte;
      the terminator itself sits at index |s|. */
  type CString = s: string | forall i :: 0 <= i < |s| ==> IsByte(s[i])

  /** `s[i]` in C: the byte at `i`, or the terminating NUL at `i == |s|`.
      Indices past the terminator are outside the string; the model never
      reads one on a path that can run (see Classifier.ClassifyMeal). */
  function At(s: CString, i: nat): (c: char)
    ensures i < |s| ==> c == s[i]
    ensures i >= |s| ==> c == '\0'
  {
    if i < |s| then s[i] else '\0'
  }

  /** The bytes of `s` from `b` up to `e`, as a C string of their own. */
  function Slice(s: CString, b: nat, e: nat): (r: CString)
    requires b <= e <= |s|
    ensures r == s[b..e]
  {
    s[b..e]
  }

  /** The first `n` bytes of `s`, or all of it when it is shorter. */
  function Take(s: string, n: nat): (r: string)
    ensures |r| == Min(n, |s|) && r == s[..|r|]
  {
    if n <= |s| then s[..n] else s
  }

  // ---------------------------------------------------------------------
  // strncasecmp (OpenMensa.c:47-54)

  /** What `strncasecmp(s1, s2, n)` returns: the difference of the folded
      bytes at the first position (among the first `n`) where they differ,
      stopping after the terminator of `s1`. */
  function CaseCmp(s1: CString, s2: CString, n: nat): int
    decreases n
  {
    if n == 0 then 0
    else
      var diff := Lower(At(s1, 0)) as int - Lower(At(s2, 0)) as int;
      if diff != 0 || s1 == [] then diff
      else CaseCmp(s1[1..], s2[1..], n - 1)
  }

  /** `strncasecmp` returns zero exactly when the first `n` bytes of both
      strings (each cut at its terminator) are equal ignoring case. */
  lemma {:induction false} CaseCmpZero(s1: CString, s2: CString, n: nat)
    ensures CaseCmp(s1, s2, n) == 0 <==> EqCI(Take(s1, n), Take(s2, n))
    decreases n
  {
    if n == 0 {
    } else if s1 == [] || s2 == [] {
      if s1 != [] {
        assert Lower(At(s1, 0)) != '\0';
      }
    } else if Lower(s1[0]) != Lower(s2[0]) {
      assert Take(s1, n)[0] == s1[0] && Take(s2, n)[0] == s2[0];
    } else {
      CaseCmpZero(s1[1..], s2[1..], n - 1);
      assert Take(s1, n) == [s1[0]] + Take(s1[1..], n - 1);
      assert Take(s2, n) == [s2[0]] + Take(s2[1..], n - 1);
    }
  }

  /** Comparing exactly |w| bytes is a case-insensitive prefix test. */
  lemma CaseCmpPrefix(s: CString, w: CString)
    ensures CaseCmp(s, w, |w|) == 0 <==> HasPrefixCI(s, w)
  {
    CaseCmpZero(s, w, |w|);
  }

  /** Comparing |w| + 1 bytes also compares the terminator of `w`: it is a
      case-insensitive equality of the whole strings. */
  lemma CaseCmpWhole(s: CString, w: CString)
    ensures CaseCmp(s, w, |w| + 1) == 0 <==> EqCI(s, w)
  {
    CaseCmpZero(s, w, |w| + 1);
    assert Take(w, |w| + 1) == w;
    if |s| <= |w| + 1 {
      assert Take(s, |w| + 1) == s;
    }
  }

  /** OpenMensa.c's `strncasecmp`: walk both strings while `n` lasts and stop
      at the first folded difference or at the end of `s1`. */
  method StrNCaseCmp(s1: CString, s2: CString, n: nat) returns (diff: int)
    ensures diff == CaseCmp(s1, s2, n)
    ensures diff == 0 <==> EqCI(Take(s1, n), Take(s2, n))
  {
    CaseCmpZero(s1, s2, n);
    var i: nat, k: nat := 0, n;
    while k > 0
      invariant i + k == n
      invariant i <= |s1| && i <= |s2|
      invariant CaseCmp(s1[i..], s2[i..], k) == CaseCmp(s1, s2, n)
      decreases k
    {
      diff := Lower(At(s1, i)) as int - Lower(At(s2, i)) as int;
      assert At(s1[i..], 0) == At(s1, i) && At(s2[i..], 0) == At(s2, i);
      if diff != 0 || i == |s1| {
        return;
      }
      assert Lower(At(s2, i)) != '\0';
      assert s1[i..][1..] == s1[i + 1..] && s2[i..][1..] == s2[i + 1..];
      i, k := i + 1, k - 1;
    }
    diff := 0;
  }

  // ---------------------------------------------------------------------
  // strcasestr (OpenMensa.c:58-73)

  /** OpenMensa.c's `strcasestr`: the offset of the first case-insensitive
      occurrence of `needle` in `haystack`, or None for NULL. An empty needle
      is found at offset 0. */
  method StrCaseStr(haystack: CString, needle: CString) returns (r: Option<nat>)
    ensures r.Some? <==> ContainsCI(haystack, needle)
    ensures r.Some? ==> MatchAt(haystack, needle, r.value)
    ensures r.Some? ==> forall k :: 0 <= k < r.value ==> !MatchAt(haystack, needle, k)
  {
    if needle == [] {
      assert MatchAt(haystack, needle, 0);
      return Some(0);
    }
    var k := 0;
    while k < |haystack|
      invariant k <= |haystack|
      invariant forall j :: 0 <= j < k ==> !MatchAt(haystack, needle, j)
    {
      if Lower(haystack[k]) == Lower(needle[0]) {
        var i := 0;
        while k + i < |haystack| && i < |needle|
          invariant 0 <= i <= |needle| && k + i <= |haystack|
          invariant forall j :: 0 <= j < i ==> Lower(haystack[k + j]) == Lower(needle[j])
        {
          if Lower(haystack[k + i]) != Lower(needle[i]) {
            break;
          }
          i := i + 1;
        }
        if i == |needle| {
          assert MatchAt(haystack, needle, k);
          return Some(k);
        }
        assert !MatchAt(haystack, needle, k) by {
          if k + |needle| <= |haystack| {
            assert haystack[k..k + |needle|][i] == haystack[k + i];
          }
        }
      } else {
        assert !MatchAt(haystack, needle, k) by {
          if k + |needle| <= |haystack| {
            assert haystack[k..k + |needle|][0] == haystack[k];
          }
        }
      }
      k := k + 1;
    }
    assert !MatchAt(haystack, needle, |haystack|);
    r := None;
  }

  // ---------------------------------------------------------------------
  // strchr (C library)

  /** `strchr(s + k, c)` for a byte `c` other than NUL, as an index into `s`:
      the first `c` at or after `k`, or None for NULL. */
  function FindFrom(s: string, k: nat, c: char): (r: Option<nat>)
    requires k <= |s| && c != '\0'
    ensures r.Some? ==> k <= r.value < |s| && s[r.value] == c
    decreases |s| - k
  {
    if k == |s| then None
    else if s[k] == c then Some(k)
    else FindFrom(s, k + 1, c)
  }

  /** No `c` lies between `k` and what `strchr` returns, or the end of the
      string when it returns NULL. */
  lemma {:induction false} FindFromSkipped(s: string, k: nat, c: char)
    requires k <= |s| && c != '\0'
    ensures FindFrom(s, k, c).Some? ==> forall i :: k <= i < FindFrom(s, k, c).value ==> s[i] != c
    ensures FindFrom(s, k, c).None? ==> forall i :: k <= i < |s| ==> s[i] != c
    decreases |s| - k
  {
    if k < |s| && s[k] != c {
      FindFromSkipped(s, k + 1, c);
    }
  }

  /** A found `strchr` result is determined by its characterisation. */
  lemma FindFromIs(s: string, k: nat, c: char, m: nat)
    requires c != '\0' && k <= m < |s| && s[m] == c
    requires forall i :: k <= i < m ==> s[i] != c
    ensures FindFrom(s, k, c) == Some(m)
    decreases m - k
  {
    if k < m {
      FindFromIs(s, k + 1, c, m);
    }
  }

  /** So is a NULL result. */
  lemma FindFromNone(s: string, k: nat, c: char)
    requires c != '\0' && k <= |s|
    requires forall i :: k <= i < |s| ==> s[i] != c
    ensures FindFrom(s, k, c) == None
    decreases |s| - k
  {
    if k < |s| {
      FindFromNone(s, k + 1, c);
    }
  }

  /** `strchr` on `p + t` from inside `t` finds what it finds in `t`, shifted by |p|. */
  lemma FindShift(p: string, t: string, k: nat, c: char)
    requires c != '\0' && k <= |t|
    ensures FindFrom(t, k, c).None? ==> FindFrom(p + t, |p| + k, c).None?
    ensures FindFrom(t, k, c).Some? ==> FindFrom(p + t, |p| + k, c) == Some(|p| + FindFrom(t, k, c).value)
  {
    var s := p + t;
    FindFromSkipped(t, k, c);
    match FindFrom(t, k, c)
    case None =>
      forall i | |p| + k <= i < |s| ensures s[i] != c {
        assert s[i] == t[i - |p|];
      }
      FindFromNone(s, |p| + k, c);
    case Some(m) =>
      forall i | |p| + k <= i < |p| + m ensures s[i] != c {
        assert s[i] == t[i - |p|];
      }
      FindFromIs(s, |p| + k, c, |p| + m);
  }

  /** `strchr` skips bytes that are not the one searched for. */
  lemma FindSkip(s: string, k: nat, d: nat, c: char)
    requires c != '\0' && k <= d <= |s|
    requires forall i :: k <= i < d ==> s[i] != c
    ensures FindFrom(s, k, c) == FindFrom(s, d, c)
  {
    FindFromSkipped(s, d, c);
    match FindFrom(s, d, c)
    case None =>
      FindFromNone(s, k, c);
    case Some(m) =>
      FindFromIs(s, k, c, m);
  }

  // ---------------------------------------------------------------------
  // strncpy into a fixed buffer, and reading a buffer back as a C string

  /** The C string stored in a character buffer: everything before the first NUL. */
  function CStringOf(buf: seq<char>): string
  {
    if buf == [] || buf[0] == '\0' then [] else [buf[0]] + CStringOf(buf[1..])
  }

  /** A buffer holding the bytes of `s` followed by a NUL holds the C string `s`. */
  lemma {:induction false} CStringOfTerminated(s: CString, rest: seq<char>)
    requires rest != [] && rest[0] == '\0'
    ensures CStringOf(s + rest) == s
  {
    if s == [] {
      assert (s + rest)[0] == '\0';
    } else {
      assert (s + rest)[1..] == s[1..] + rest;
      CStringOfTerminated(s[1..], rest);
    }
  }

  /** `n` NUL bytes. */
  function Nuls(n: nat): (r: seq<char>)
    ensures |r| == n && forall i :: 0 <= i < n ==> r[i] == '\0'
  {
    seq(n, _ => '\0')
  }

  /** `strncpy(dst, src, n)`: copy the bytes of `src` up to `n`, then pad
      with NULs up to `n`; bytes of `dst` from `n` on are not touched. */
  method StrNCpy(dst: array<char>, src: CString, n: nat)
    requires n <= dst.Length
    modifies dst
    ensures dst[..n] == Take(src, n) + Nuls(n - Min(n, |src|))
    ensures dst[n..] == old(dst[n..])
  {
    var i := 0;
    while i < n && i < |src|
      invariant i <= n && i <= |src|
      invariant dst[..i] == src[..i]
      invariant dst[n..] == old(dst[n..])
    {
      dst[i] := src[i];
      i := i + 1;
    }
    var j := i;
    while j < n
      invariant i <= j <= n
      invariant dst[..i] == src[..i]
      invariant forall k :: i <= k < j ==> dst[k] == '\0'
      invariant dst[n..] == old(dst[n..])
    {
      dst[j] := '\0';
      j := j + 1;
    }
    assert dst[..n] == dst[..i] + dst[i..n];
  }
}
