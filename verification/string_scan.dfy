/** `parse_string_array` (OpenMensa.c:279-298): read the quoted elements
    of a flat payload such as ["01.01.2025","02.01.2025"] left to right. It
    looks like a JSON array but is not parsed as JSON: an element is
    whatever lies between a quote and the next quote (no escapes). Positions
    are indices into the scanned text, as the C code's pointers are. */
module StringScan {
  import opened Common
  import opened CStrings

  predicate QuoteFree(s: string) { forall i :: 0 <= i < |s| ==> s[i] != '"' }

  /** The strings `parse_string_array(s + k, dst, max)` stores: repeatedly
      find a quote, then the next quote, and take the bytes between them;
      stop at `max` strings, at the end of the text, or when a quote is
      missing. */
  function StringsFrom(s: string, k: nat, max: nat): (r: seq<string>)
    requires k <= |s|
    ensures |r| <= max
    decreases |s| - k, 1
  {
    if k == |s| || max == 0 then []
    else match FindFrom(s, k, '"')
      case None => []
      case Some(i) => QuotedFrom(s, i + 1, max)
  }

  /** The scan resumed just after an opening quote at `b - 1`: the element
      runs up to the next quote, and scanning goes on after that quote. */
  function QuotedFrom(s: string, b: nat, max: nat): (r: seq<string>)
    requires b <= |s| && max > 0
    ensures |r| <= max
    decreases |s| - b, 0
  {
    match FindFrom(s, b, '"')
      case None => []
      case Some(e) => [s[b..e]] + StringsFrom(s, e + 1, max - 1)
  }

  /** Text in front of `t` does not matter once the scan starts inside `t`. */
  lemma {:induction false} StringsShift(p: string, t: string, k: nat, max: nat)
    requires k <= |t|
    ensures StringsFrom(p + t, |p| + k, max) == StringsFrom(t, k, max)
    decreases |t| - k, 1
  {
    if k < |t| && max > 0 {
      FindShift(p, t, k, '"');
      match FindFrom(t, k, '"')
      case None =>
      case Some(i) =>
        QuotedShift(p, t, i + 1, max);
    }
  }

  lemma {:induction false} QuotedShift(p: string, t: string, b: nat, max: nat)
    requires b <= |t| && max > 0
    ensures QuotedFrom(p + t, |p| + b, max) == QuotedFrom(t, b, max)
    decreases |t| - b, 0
  {
    FindShift(p, t, b, '"');
    match FindFrom(t, b, '"')
    case None =>
    case Some(e) =>
      assert (p + t)[|p| + b..|p| + e] == t[b..e];
      StringsShift(p, t, e + 1, max - 1);
  }

  /** Bytes without a quote in front of the scan position change nothing:
      the scan starts by looking for a quote. */
  lemma StringsSkip(s: string, k: nat, d: nat, max: nat)
    requires k <= d <= |s|
    requires forall i :: k <= i < d ==> s[i] != '"'
    ensures StringsFrom(s, k, max) == StringsFrom(s, d, max)
  {
    FindSkip(s, k, d, '"');
  }

  /** In quote-free bytes, then a quoted quote-free element, the two
      searches for a quote find the element's quotes. */
  lemma QuotesAround(g: string, x: string, rest: string)
    requires QuoteFree(g) && QuoteFree(x)
    ensures FindFrom(g + "\"" + x + "\"" + rest, 0, '"') == Some(|g|)
    ensures FindFrom(g + "\"" + x + "\"" + rest, |g| + 1, '"') == Some(|g| + 1 + |x|)
    ensures (g + "\"" + x + "\"" + rest)[|g| + 1..|g| + 1 + |x|] == x
  {
    var s := g + "\"" + x + "\"" + rest;
    var b, e := |g| + 1, |g| + 1 + |x|;
    FindFromIs(s, 0, '"', |g|);
    forall i | b <= i < e ensures s[i] != '"' {
      assert s[i] == x[i - b];
    }
    FindFromIs(s, b, '"', e);
    assert s[b..e] == x;
  }

  /** One element: bytes without a quote, a quoted element, and whatever follows. */
  lemma StringsStep(g: string, x: string, rest: string, max: nat)
    requires QuoteFree(g) && QuoteFree(x) && max > 0
    ensures StringsFrom(g + "\"" + x + "\"" + rest, 0, max) == [x] + StringsFrom(rest, 0, max - 1)
  {
    var p := g + "\"" + x + "\"";
    QuotesAround(g, x, rest);
    StringsShift(p, rest, 0, max - 1);
  }

  /** Text with at most one quote after its first quote. */
  predicate AtMostOneQuote(t: string) {
    forall i, j :: 0 <= i < j < |t| && t[i] == '"' ==> t[j] != '"'
  }

  /** Text holding fewer than two quotes yields no element: an opening
      quote without its closing quote is dropped. */
  lemma StringsNone(g: string, tail: string, max: nat)
    requires QuoteFree(g) && AtMostOneQuote(tail)
    ensures StringsFrom(g + tail, 0, max) == []
  {
    var s := g + tail;
    if s != [] && max > 0 {
      match FindFrom(s, 0, '"')
      case None =>
      case Some(i) =>
        assert s[i] == tail[i - |g|];
        forall m | i + 1 <= m < |s| ensures s[m] != '"' {
          assert s[m] == tail[m - |g|];
        }
        FindFromNone(s, i + 1, '"');
    }
  }

  /** The elements `xs` written as a comma-separated list of quoted strings. */
  function Joined(xs: seq<string>): string
  {
    if xs == [] then ""
    else "\"" + xs[0] + "\"" + (if |xs| == 1 then "" else "," + Joined(xs[1..]))
  }

  /** `xs` written as a bracketed array of quoted strings. */
  function Rendered(xs: seq<string>): string
  {
    "[" + Joined(xs) + "]"
  }

  /** The first of several joined elements, then the scan of the others
      after their separating comma. */
  lemma StringsJoinedCons(g: string, xs: seq<string>, tail: string, max: nat)
    requires |xs| > 1 && max > 0
    requires QuoteFree(g) && QuoteFree(xs[0])
    ensures StringsFrom(g + Joined(xs) + tail, 0, max) == [xs[0]] + StringsFrom("," + Joined(xs[1..]) + tail, 0, max - 1)
  {
    var rest := "," + Joined(xs[1..]) + tail;
    assert g + Joined(xs) + tail == g + "\"" + xs[0] + "\"" + rest;
    StringsStep(g, xs[0], rest, max);
  }

  /** A single element, after quote-free text and before text with at most one quote. */
  lemma StringsJoinedOne(g: string, x: string, tail: string, max: nat)
    requires QuoteFree(g) && QuoteFree(x) && AtMostOneQuote(tail)
    requires max > 0
    ensures StringsFrom(g + Joined([x]) + tail, 0, max) == [x]
  {
    assert g + Joined([x]) + tail == g + "\"" + x + "\"" + tail;
    StringsStep(g, x, tail, max);
    StringsNone("", tail, max - 1);
    assert "" + tail == tail;
  }

  /** Scanning a joined list returns its elements, up to `max`, whatever
      quote-free text comes before and whatever text with at most one quote
      comes after. */
  lemma {:induction false} StringsJoined(g: string, xs: seq<string>, tail: string, max: nat)
    requires QuoteFree(g) && AtMostOneQuote(tail)
    requires forall k :: 0 <= k < |xs| ==> QuoteFree(xs[k])
    ensures StringsFrom(g + Joined(xs) + tail, 0, max) == xs[..Min(max, |xs|)]
    decreases |xs|
  {
    if xs == [] {
      assert g + Joined(xs) + tail == g + tail;
      StringsNone(g, tail, max);
    } else if max > 0 {
      if |xs| == 1 {
        assert xs == [xs[0]];
        StringsJoinedOne(g, xs[0], tail, max);
      } else {
        StringsJoinedCons(g, xs, tail, max);
        StringsJoined(",", xs[1..], tail, max - 1);
        TakeFirst(xs, max);
      }
    }
  }

  /** Round trip: scanning a rendered array gives back its elements, cut at `max`. */
  lemma StringsRendered(xs: seq<string>, max: nat)
    requires forall k :: 0 <= k < |xs| ==> QuoteFree(xs[k])
    ensures StringsFrom(Rendered(xs), 0, max) == xs[..Min(max, |xs|)]
  {
    StringsJoined("[", xs, "]", max);
  }

  /** A list cut off after an opening quote keeps its complete elements only. */
  lemma StringsTruncated(xs: seq<string>, partial: string, max: nat)
    requires forall k :: 0 <= k < |xs| ==> QuoteFree(xs[k])
    requires QuoteFree(partial)
    ensures StringsFrom("[" + Joined(xs) + ",\"" + partial, 0, max) == xs[..Min(max, |xs|)]
  {
    var tail: string := ",\"" + partial;
    forall i, j | 0 <= i < j < |tail| && tail[i] == '"' ensures tail[j] != '"' {
      assert tail[j] == partial[j - 2];
    }
    assert "[" + Joined(xs) + ",\"" + partial == "[" + Joined(xs) + tail;
    StringsJoined("[", xs, tail, max);
  }

  /** One turn of the scanners' loops: when the strings still to come
      from `ptr` are `whole[index..]`, the bytes between the next two quotes
      are `whole[index]` and the scan resumes after the closing quote. */
  lemma StringsTurn(json: string, ptr: nat, b: nat, e: nat, whole: seq<string>, index: nat, max: nat)
    requires ptr < |json| && max > 0 && index <= |whole|
    requires FindFrom(json, ptr, '"') == Some(b - 1) && b <= e
    requires FindFrom(json, b, '"') == Some(e)
    requires whole[index..] == StringsFrom(json, ptr, max)
    ensures index < |whole| && whole[index] == json[b..e]
    ensures whole[index + 1..] == StringsFrom(json, e + 1, max - 1)
  {
    assert whole[index..][0] == whole[index];
    assert whole[index + 1..] == whole[index..][1..];
  }

  /** No stored string contains a quote: each is the text strictly between
      a quote and the next one. */
  lemma {:induction false} StringsQuoteFree(s: string, k: nat, max: nat)
    requires k <= |s|
    ensures forall j :: 0 <= j < |StringsFrom(s, k, max)| ==> QuoteFree(StringsFrom(s, k, max)[j])
    decreases |s| - k
  {
    if k < |s| && max > 0 {
      match FindFrom(s, k, '"')
      case None =>
      case Some(i) =>
        match FindFrom(s, i + 1, '"')
        case None =>
        case Some(e) =>
          FindFromSkipped(s, i + 1, '"');
          StringsQuoteFree(s, e + 1, max - 1);
          assert QuoteFree(s[i + 1..e]);
          assert StringsFrom(s, k, max) == [s[i + 1..e]] + StringsFrom(s, e + 1, max - 1);
    }
  }

  /** Scanning the text that starts at `d` is scanning `s` from `d`: passing
      `ptr` to the scanner as a new string changes nothing. */
  lemma StringsSuffix(s: string, d: nat, max: nat)
    requires d <= |s|
    ensures StringsFrom(s[d..], 0, max) == StringsFrom(s, d, max)
  {
    assert s[..d] + s[d..] == s;
    StringsShift(s[..d], s[d..], 0, max);
  }

  /** The bound only cuts: scanning for at most `m` strings gives the first
      `m` of what a larger bound gives. */
  lemma {:induction false} StringsBound(s: string, k: nat, m: nat, n: nat)
    requires k <= |s| && m <= n
    ensures StringsFrom(s, k, m) == StringsFrom(s, k, n)[..Min(m, |StringsFrom(s, k, n)|)]
    decreases |s| - k
  {
    if k < |s| && m > 0 {
      match FindFrom(s, k, '"')
      case None =>
      case Some(i) =>
        match FindFrom(s, i + 1, '"')
        case None =>
        case Some(e) =>
          StringsBound(s, e + 1, m - 1, n - 1);
          assert StringsFrom(s, k, n) == [s[i + 1..e]] + StringsFrom(s, e + 1, n - 1);
          TakeFirst(StringsFrom(s, k, n), m);
    }
  }

  /** Each string uses up at least its two quotes. */
  lemma {:induction false} StringsLength(s: string, k: nat, max: nat)
    requires k <= |s|
    ensures 2 * |StringsFrom(s, k, max)| <= |s| - k
    decreases |s| - k
  {
    if k < |s| && max > 0 {
      match FindFrom(s, k, '"')
      case None =>
      case Some(i) =>
        match FindFrom(s, i + 1, '"')
        case None =>
        case Some(e) =>
          StringsLength(s, e + 1, max - 1);
    }
  }

  /** Every complete quoted string of `s`, with no bound. */
  function AllStrings(s: string): seq<string>
  {
    StringsFrom(s, 0, |s|)
  }

  /** A bounded scan returns the first `max` complete quoted strings. */
  lemma StringsAll(s: string, max: nat)
    ensures StringsFrom(s, 0, max) == AllStrings(s)[..Min(max, |AllStrings(s)|)]
  {
    if max <= |s| {
      StringsBound(s, 0, max, |s|);
    } else {
      StringsBound(s, 0, |s|, max);
      StringsLength(s, 0, max);
    }
  }

  /** `parse_string_array` (OpenMensa.c:279-298): store the scanned strings
      in `dst[0..count)` and leave the rest of `dst` alone. */
  method ParseStringArray(json: CString, dst: array<CString>, maxCount: nat) returns (count: nat)
    requires maxCount <= dst.Length
    modifies dst
    ensures count <= maxCount
    ensures dst[..count] == StringsFrom(json, 0, maxCount)
    ensures forall i :: count <= i < dst.Length ==> dst[i] == old(dst[i])
  {
    count := 0;
    var ptr := 0;
    ghost var whole := StringsFrom(json, 0, maxCount);
    while ptr < |json| && count < maxCount
      invariant ptr <= |json| && count <= maxCount && count <= |whole|
      invariant forall i :: 0 <= i < count ==> dst[i] == whole[i]
      invariant whole[count..] == StringsFrom(json, ptr, maxCount - count)
      invariant forall i :: count <= i < dst.Length ==> dst[i] == old(dst[i])
      decreases |json| - ptr
    {
      var start := FindFrom(json, ptr, '"');
      if start.None? {
        break;
      }
      var s := start.value + 1;
      var end := FindFrom(json, s, '"');
      if end.None? {
        break;
      }
      var e := end.value;
      StringsTurn(json, ptr, s, e, whole, count, maxCount - count);
      var item := Slice(json, s, e);
      dst[count] := item;
      count := count + 1;
      ptr := e + 1;
    }
    assert count == |whole|;
  }

  /** An array cut off before its closing bracket still yields every
      complete string. */
  lemma UnclosedExample()
    ensures StringsFrom("[\"A\",\"B\"", 0, 20) == ["A", "B"]
  {
    var a, b := "A", "B";
    assert Joined([a, b]) == "\"" + a + "\"" + "," + "\"" + b + "\"";
    assert "[\"A\",\"B\"" == "[" + Joined([a, b]) + "";
    StringsJoined("[", [a, b], "", 20);
  }
}
