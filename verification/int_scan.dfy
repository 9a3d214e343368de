/** `parse_int_array` (OpenMensa.c:302-320) and the C library's `atoi`:
    read the numbers of a flat payload such as [12,13,-1] left to right. A
    number is `atoi` of a run of digits and minus signs; everything else
    separates numbers. */
module IntScan {
  import opened Common
  import opened Ascii
  import opened Spans
  import opened CStrings

  /** The value of a decimal digit. */
  function DigitValue(c: char): int
  {
    c as int - '0' as int
  }

  /** The value of a run of decimal digits (0 for no digits). */
  function DecimalValue(d: string): int
  {
    if d == [] then 0 else DecimalValue(d[..|d| - 1]) * 10 + DigitValue(d[|d| - 1])
  }

  /** `atoi`'s digit loop from `k`: starting from `acc`, take in each digit as
      value * 10 + digit, and stop at the first byte that is not a digit. */
  function DigitsFrom(s: string, k: nat, acc: int): int
    requires k <= |s|
    decreases |s| - k
  {
    if k < |s| && IsDigit(s[k]) then DigitsFrom(s, k + 1, acc * 10 + DigitValue(s[k])) else acc
  }

  /** C `atoi(s + k)`: skip white space, read an optional sign, then the
      digits that follow; anything else ends the number. */
  function Atoi(s: string, k: nat): int
    requires k <= |s|
  {
    var t := RunEnd(s, k, Spaces);
    if t < |s| && s[t] == '-' then -DigitsFrom(s, t + 1, 0)
    else if t < |s| && s[t] == '+' then DigitsFrom(s, t + 1, 0)
    else DigitsFrom(s, t, 0)
  }

  /** The integers `parse_int_array(s + k, dst, max)` stores: skip to the next
      digit or minus sign, take `atoi` there, then skip the whole run of
      digits and minus signs; stop at `max` numbers or at the end. */
  function IntsFrom(s: string, k: nat, max: nat): (r: seq<int>)
    requires k <= |s|
    ensures |r| <= max
    decreases |s| - k, 1
  {
    if k == |s| || max == 0 then []
    else
      var n := RunEnd(s, k, NonNumerics);
      RunEndSpan(s, k, NonNumerics);
      if n == |s| then [] else NumberAt(s, n, max)
  }

  /** The scan resumed at a digit or minus sign at `n`. */
  function NumberAt(s: string, n: nat, max: nat): (r: seq<int>)
    requires n < |s| && IsNumeric(s[n]) && max > 0
    ensures |r| <= max
    decreases |s| - n, 0
  {
    [Atoi(s, n)] + IntsFrom(s, RunEnd(s, n, Numerics), max - 1)
  }

  /** `atoi` inside `t` reads the same number inside `p + t`. */
  lemma AtoiShift(p: string, t: string, k: nat)
    requires k <= |t|
    ensures Atoi(p + t, |p| + k) == Atoi(t, k)
  {
    var s := p + t;
    RunEndShift(p, t, k, Spaces);
    var u := RunEnd(t, k, Spaces);
    if u < |t| {
      assert s[|p| + u] == t[u];
    }
    if u < |t| && (t[u] == '-' || t[u] == '+') {
      DigitsShift(p, t, u + 1, 0);
    } else {
      DigitsShift(p, t, u, 0);
    }
  }

  lemma DigitsShift(p: string, t: string, k: nat, acc: int)
    requires k <= |t|
    ensures DigitsFrom(p + t, |p| + k, acc) == DigitsFrom(t, k, acc)
    decreases |t| - k
  {
    if k < |t| {
      assert (p + t)[|p| + k] == t[k];
      DigitsShift(p, t, k + 1, acc * 10 + DigitValue(t[k]));
    }
  }

  /** Text in front of `t` does not matter once the scan starts inside `t`. */
  lemma {:induction false} IntsShift(p: string, t: string, k: nat, max: nat)
    requires k <= |t|
    ensures IntsFrom(p + t, |p| + k, max) == IntsFrom(t, k, max)
    decreases |t| - k, 1
  {
    if k < |t| && max > 0 {
      RunEndShift(p, t, k, NonNumerics);
      var n := RunEnd(t, k, NonNumerics);
      RunEndSpan(t, k, NonNumerics);
      if n < |t| {
        assert (p + t)[|p| + n] == t[n];
        NumberShift(p, t, n, max);
      }
    }
  }

  lemma {:induction false} NumberShift(p: string, t: string, n: nat, max: nat)
    requires n < |t| && IsNumeric(t[n]) && max > 0
    ensures (p + t)[|p| + n] == t[n]
    ensures NumberAt(p + t, |p| + n, max) == NumberAt(t, n, max)
    decreases |t| - n, 0
  {
    var e := RunEnd(t, n, Numerics);
    assert (p + t)[|p| + n] == t[n];
    AtoiShift(p, t, n);
    RunEndShift(p, t, n, Numerics);
    IntsShift(p, t, e, max - 1);
  }

  function DigitChar(d: nat): (c: char)
    requires d < 10
    ensures IsDigit(c) && DigitValue(c) == d
  {
    ('0' as int + d) as char
  }

  /** The decimal digits of `n`, most significant first. */
  function DecimalDigits(n: nat): (r: string)
    ensures |r| > 0 && IsDigit(r[0])
  {
    (if n < 10 then "" else DecimalDigits(n / 10)) + [DigitChar(n % 10)]
  }

  /** `x` written in decimal, with a leading minus sign when negative. */
  function Decimal(x: int): (r: string)
    ensures |r| > 0 && IsNumeric(r[0])
  {
    if x < 0 then "-" + DecimalDigits(-x) else DecimalDigits(x)
  }

  lemma {:induction false} DecimalDigitsAreDigits(n: nat)
    ensures forall i :: 0 <= i < |DecimalDigits(n)| ==> IsDigit(DecimalDigits(n)[i])
  {
    if n >= 10 {
      DecimalDigitsAreDigits(n / 10);
    }
  }

  /** A number written in decimal is a single run of digits and minus signs. */
  lemma DecimalIsNumeric(x: int)
    ensures forall i :: 0 <= i < |Decimal(x)| ==> IsNumeric(Decimal(x)[i])
  {
    DecimalDigitsAreDigits(if x < 0 then -x else x);
  }

  /** Reading back the digits of `n` gives `n`. */
  lemma {:induction false} DecimalDigitsValue(n: nat)
    ensures DecimalValue(DecimalDigits(n)) == n
  {
    var d := DecimalDigits(n);
    var q, r := n / 10, n % 10;
    assert n == q * 10 + r;
    var front := if n < 10 then "" else DecimalDigits(q);
    assert d == front + [DigitChar(r)];
    assert d[..|d| - 1] == front;
    var v := DecimalValue(front);
    if n >= 10 {
      DecimalDigitsValue(q);
      assert v == q;
    } else {
      assert v == 0 && q == 0;
    }
    assert DecimalValue(d) == v * 10 + r;
  }

  /** Reading the digits of `d` one by one reaches, after `j` of them, the
      value of the first `j`. */
  lemma {:induction false} DigitsFromPrefix(d: string, rest: string, j: nat)
    requires j <= |d|
    requires forall i :: 0 <= i < |d| ==> IsDigit(d[i])
    ensures DigitsFrom(d + rest, 0, 0) == DigitsFrom(d + rest, j, DecimalValue(d[..j]))
    decreases j
  {
    if j > 0 {
      DigitsFromPrefix(d, rest, j - 1);
      assert (d + rest)[j - 1] == d[j - 1];
      assert d[..j][..j - 1] == d[..j - 1];
    } else {
      assert d[..0] == [];
    }
  }

  /** Digits followed by a non-digit have their own value. */
  lemma DigitsAtDecimal(n: nat, rest: string)
    requires rest == [] || !IsDigit(rest[0])
    ensures DigitsFrom(DecimalDigits(n) + rest, 0, 0) == n
  {
    var d := DecimalDigits(n);
    DecimalDigitsAreDigits(n);
    DigitsFromPrefix(d, rest, |d|);
    assert d[..|d|] == d;
    if rest != [] {
      assert (d + rest)[|d|] == rest[0];
    }
    DecimalDigitsValue(n);
  }

  /** `atoi` at a digit reads the run of digits there. */
  lemma AtoiAtDigit(s: string, k: nat)
    requires k < |s| && IsDigit(s[k])
    ensures Atoi(s, k) == DigitsFrom(s, k, 0)
  {
    RunEndIs(s, k, Spaces, k);
  }

  /** `atoi` at a minus sign negates the run of digits after it. */
  lemma AtoiAtMinus(s: string, k: nat)
    requires k < |s| && s[k] == '-'
    ensures Atoi(s, k) == -DigitsFrom(s, k + 1, 0)
  {
    RunEndIs(s, k, Spaces, k);
  }

  /** `atoi` reads back a natural number written in decimal. */
  lemma AtoiDecimalDigits(n: nat, rest: string)
    requires rest == [] || !IsDigit(rest[0])
    ensures Atoi(DecimalDigits(n) + rest, 0) == n
  {
    var s := DecimalDigits(n) + rest;
    assert s[0] == DecimalDigits(n)[0];
    AtoiAtDigit(s, 0);
    DigitsAtDecimal(n, rest);
  }

  /** `atoi` reads back a negative number written in decimal. */
  lemma AtoiMinusDecimalDigits(n: nat, rest: string)
    requires rest == [] || !IsDigit(rest[0])
    ensures Atoi(("-" + DecimalDigits(n)) + rest, 0) == -(n as int)
  {
    var t := DecimalDigits(n) + rest;
    assert ("-" + DecimalDigits(n)) + rest == "-" + t;
    AtoiAtMinus("-" + t, 0);
    DigitsShift("-", t, 0, 0);
    DigitsAtDecimal(n, rest);
  }

  /** `atoi` reads back a number written in decimal. */
  lemma AtoiDecimal(x: int, rest: string)
    requires rest == [] || !IsDigit(rest[0])
    ensures Atoi(Decimal(x) + rest, 0) == x
  {
    if x < 0 {
      assert Decimal(x) == "-" + DecimalDigits(-x);
      AtoiMinusDecimalDigits(-x, rest);
    } else {
      assert Decimal(x) == DecimalDigits(x);
      AtoiDecimalDigits(x, rest);
    }
  }

  /** Bytes that cannot start a number in front of the scan position change
      nothing: the scan starts by skipping them. */
  lemma IntsSkip(s: string, k: nat, d: nat, max: nat)
    requires k <= d <= |s|
    requires forall i :: k <= i < d ==> !IsNumeric(s[i])
    ensures IntsFrom(s, k, max) == IntsFrom(s, d, max)
  {
    if k < d && max > 0 {
      RunEndSkip(s, k, d, NonNumerics);
      if d == |s| {
        assert RunEnd(s, d, NonNumerics) == |s|;
      }
    }
  }

  /** A number written in decimal at the front: `atoi` reads it, and the scan
      goes on after it. */
  lemma DecimalFirst(x: int, rest: string, max: nat)
    requires rest == [] || !IsNumeric(rest[0])
    requires max > 0
    ensures IntsFrom(Decimal(x) + rest, 0, max) == [x] + IntsFrom(rest, 0, max - 1)
  {
    var d := Decimal(x);
    var t := d + rest;
    assert RunEnd(t, 0, NonNumerics) == 0 by {
      assert t[0] == d[0];
      RunEndIs(t, 0, NonNumerics, 0);
    }
    IntsFromAt(t, 0, 0, max);
    assert Atoi(t, 0) == x by {
      AtoiDecimal(x, rest);
    }
    assert RunEnd(t, 0, Numerics) == |d| by {
      DecimalIsNumeric(x);
      forall i | 0 <= i < |d| ensures InClass(t[i], Numerics) {
        assert t[i] == d[i];
      }
      if rest != [] {
        assert t[|d|] == rest[0];
      }
      RunEndIs(t, 0, Numerics, |d|);
    }
    assert IntsFrom(t, |d|, max - 1) == IntsFrom(rest, 0, max - 1) by {
      IntsShift(d, rest, 0, max - 1);
    }
  }

  /** One number: bytes that cannot start a number, a decimal, and the rest. */
  lemma IntsStep(g: string, x: int, rest: string, max: nat)
    requires forall i :: 0 <= i < |g| ==> !IsNumeric(g[i])
    requires rest == [] || !IsNumeric(rest[0])
    requires max > 0
    ensures IntsFrom(g + Decimal(x) + rest, 0, max) == [x] + IntsFrom(rest, 0, max - 1)
  {
    var t := Decimal(x) + rest;
    var s := g + t;
    assert s == g + Decimal(x) + rest;
    forall i | 0 <= i < |g| ensures !IsNumeric(s[i]) {
      assert s[i] == g[i];
    }
    IntsSkip(s, 0, |g|, max);
    IntsShift(g, t, 0, max);
    DecimalFirst(x, rest, max);
  }

  /** Text without digits or minus signs yields no number. */
  lemma IntsNone(t: string, max: nat)
    requires forall i :: 0 <= i < |t| ==> !IsNumeric(t[i])
    ensures IntsFrom(t, 0, max) == []
  {
    if t != [] && max > 0 {
      RunEndIs(t, 0, NonNumerics, |t|);
    }
  }

  /** The numbers `xs` written as a comma-separated list. */
  function IntsJoined(xs: seq<int>): string
  {
    if xs == [] then ""
    else Decimal(xs[0]) + (if |xs| == 1 then "" else "," + IntsJoined(xs[1..]))
  }

  /** `xs` written as a bracketed array of numbers. */
  function IntsRendered(xs: seq<int>): string
  {
    "[" + IntsJoined(xs) + "]"
  }

  /** Text around no numbers yields no number. */
  lemma IntsNoneAround(g: string, tail: string, max: nat)
    requires forall i :: 0 <= i < |g| ==> !IsNumeric(g[i])
    requires forall i :: 0 <= i < |tail| ==> !IsNumeric(tail[i])
    ensures IntsFrom(g + tail, 0, max) == []
  {
    var t := g + tail;
    forall i | 0 <= i < |t| ensures !IsNumeric(t[i]) {
      if i < |g| { assert t[i] == g[i]; } else { assert t[i] == tail[i - |g|]; }
    }
    IntsNone(t, max);
  }

  /** Several joined numbers are the first, a comma, and the others joined. */
  lemma IntsJoinedText(g: string, xs: seq<int>, tail: string)
    requires |xs| > 1
    ensures g + IntsJoined(xs) + tail == g + Decimal(xs[0]) + ("," + IntsJoined(xs[1..]) + tail)
  {
    var a, b := Decimal(xs[0]), "," + IntsJoined(xs[1..]);
    assert IntsJoined(xs) == a + b;
    Regroup(g, a, b, tail);
  }

  /** The first of several joined numbers, then the scan of the others
      after their separating comma. */
  lemma IntsJoinedCons(g: string, xs: seq<int>, tail: string, max: nat)
    requires forall i :: 0 <= i < |g| ==> !IsNumeric(g[i])
    requires |xs| > 1 && max > 0
    ensures IntsFrom(g + IntsJoined(xs) + tail, 0, max) == [xs[0]] + IntsFrom("," + IntsJoined(xs[1..]) + tail, 0, max - 1)
  {
    IntsJoinedText(g, xs, tail);
    IntsStep(g, xs[0], "," + IntsJoined(xs[1..]) + tail, max);
  }

  /** A single number, surrounded by text without numbers. */
  lemma IntsJoinedOne(g: string, x: int, tail: string, max: nat)
    requires forall i :: 0 <= i < |g| ==> !IsNumeric(g[i])
    requires forall i :: 0 <= i < |tail| ==> !IsNumeric(tail[i])
    requires max > 0
    ensures IntsFrom(g + IntsJoined([x]) + tail, 0, max) == [x]
  {
    assert g + IntsJoined([x]) + tail == g + Decimal(x) + tail;
    IntsStep(g, x, tail, max);
    IntsNone(tail, max - 1);
  }

  /** Scanning joined numbers returns them, up to `max`, whatever text
      without digits or minus signs surrounds them. */
  lemma {:induction false} IntsJoinedScan(g: string, xs: seq<int>, tail: string, max: nat)
    requires forall i :: 0 <= i < |g| ==> !IsNumeric(g[i])
    requires forall i :: 0 <= i < |tail| ==> !IsNumeric(tail[i])
    ensures IntsFrom(g + IntsJoined(xs) + tail, 0, max) == xs[..Min(max, |xs|)]
    decreases |xs|
  {
    if xs == [] {
      assert g + IntsJoined(xs) + tail == g + tail;
      IntsNoneAround(g, tail, max);
    } else if max > 0 {
      if |xs| == 1 {
        assert xs == [xs[0]];
        IntsJoinedOne(g, xs[0], tail, max);
      } else {
        IntsJoinedCons(g, xs, tail, max);
        IntsJoinedScan(",", xs[1..], tail, max - 1);
        TakeFirst(xs, max);
      }
    }
  }

  /** Round trip: scanning a rendered id array gives back its numbers, cut at `max`. */
  lemma IntsRenderedScan(xs: seq<int>, max: nat)
    ensures IntsFrom(IntsRendered(xs), 0, max) == xs[..Min(max, |xs|)]
  {
    IntsJoinedScan("[", xs, "]", max);
  }

  /** One step of the scan from `k`: the number starting at the first digit
      or minus sign `n`, then the scan after its run. */
  lemma IntsFromAt(s: string, k: nat, n: nat, max: nat)
    requires k <= n < |s| && max > 0
    requires RunEnd(s, k, NonNumerics) == n
    ensures IsNumeric(s[n])
    ensures IntsFrom(s, k, max) == [Atoi(s, n)] + IntsFrom(s, RunEnd(s, n, Numerics), max - 1)
  {
    RunEndSpan(s, k, NonNumerics);
  }

  /** The bound only cuts: scanning for at most `m` numbers gives the first
      `m` of what a larger bound gives. */
  lemma {:induction false} IntsBound(s: string, k: nat, m: nat, n: nat)
    requires k <= |s| && m <= n
    ensures IntsFrom(s, k, m) == IntsFrom(s, k, n)[..Min(m, |IntsFrom(s, k, n)|)]
    decreases |s| - k
  {
    if k < |s| && m > 0 {
      var at := RunEnd(s, k, NonNumerics);
      if at < |s| {
        IntsFromAt(s, k, at, m);
        IntsFromAt(s, k, at, n);
        var e := RunEnd(s, at, Numerics);
        assert e > at by {
          assert RunEnd(s, at, Numerics) == RunEnd(s, at + 1, Numerics);
        }
        IntsBound(s, e, m - 1, n - 1);
        TakeFirst(IntsFrom(s, k, n), m);
      }
    }
  }

  /** One turn of `parse_int_array`'s loop: after the numbers stored so far,
      the number at the end of the skipped bytes joins them and the scan
      resumes after its run. */
  lemma IntsTurn(json: string, from: nat, at: nat, stored: seq<int>, whole: seq<int>, max: nat)
    requires from <= at < |json| && max > 0
    requires RunEnd(json, from, NonNumerics) == at
    requires stored + IntsFrom(json, from, max) == whole
    ensures (stored + [Atoi(json, at)]) + IntsFrom(json, RunEnd(json, at, Numerics), max - 1) == whole
  {
    IntsFromAt(json, from, at, max);
  }

  /** `parse_int_array` (OpenMensa.c:302-320): store the scanned numbers in
      `dst[0..count)` and leave the rest of `dst` alone. */
  method ParseIntArray(json: CString, dst: array<int>, maxCount: nat) returns (count: nat)
    requires maxCount <= dst.Length
    modifies dst
    ensures count <= maxCount
    ensures dst[..count] == IntsFrom(json, 0, maxCount)
    ensures forall i :: count <= i < dst.Length ==> dst[i] == old(dst[i])
  {
    count := 0;
    var ptr := 0;
    ghost var stored: seq<int> := [];
    ghost var whole := IntsFrom(json, 0, maxCount);
    while ptr < |json| && count < maxCount
      invariant ptr <= |json| && count <= maxCount && |stored| == count
      invariant forall i :: 0 <= i < count ==> dst[i] == stored[i]
      invariant stored + IntsFrom(json, ptr, maxCount - count) == whole
      invariant forall i :: count <= i < dst.Length ==> dst[i] == old(dst[i])
      decreases |json| - ptr
    {
      ghost var from := ptr;
      // Skip bytes that cannot start a number.
      ptr := SkipRun(json, ptr, NonNumerics);
      if ptr == |json| {
        assert IntsFrom(json, from, maxCount - count) == [];
        break;
      }
      var value := Atoi(json, ptr);
      dst[count] := value;
      IntsTurn(json, from, ptr, stored, whole, maxCount - count);
      stored := stored + [value];
      count := count + 1;
      // Skip the number just read.
      var next := SkipRun(json, ptr, Numerics);
      ptr := next;
    }
  }

  // ---------------------------------------------------------------------
  // Examples

  /** An empty slot between commas stores nothing. */
  lemma EmptySlot(x: int, y: int, max: nat)
    requires max >= 2
    ensures IntsFrom("[" + Decimal(x) + ",," + Decimal(y) + "]", 0, max) == [x, y]
  {
    var rest := ",," + Decimal(y) + "]";
    assert "[" + Decimal(x) + ",," + Decimal(y) + "]" == "[" + Decimal(x) + rest;
    assert rest[0] == ',';
    LastAfterCommas(y, max - 1);
    IntsStep("[", x, rest, max);
    assert [x] + [y] == [x, y];
  }

  lemma LastAfterCommas(y: int, max: nat)
    requires max >= 1
    ensures IntsFrom(",," + Decimal(y) + "]", 0, max) == [y]
  {
    IntsStep(",,", y, "]", max);
    IntsNone("]", max - 1);
  }

  lemma EmptySlotExample()
    ensures IntsFrom("[1,,3]", 0, 20) == [1, 3]
  {
    assert Decimal(1) == "1" && Decimal(3) == "3";
    assert "[1,,3]" == "[" + Decimal(1) + ",," + Decimal(3) + "]";
    EmptySlot(1, 3, 20);
  }

  /** A minus sign without digits is `atoi` of nothing: 0. */
  lemma LoneMinusExample()
    ensures IntsFrom("[-]", 0, 20) == [0]
  {
  }

  /** A minus sign inside a run does not start a number: the run is one number. */
  lemma MinusInsideExample()
    ensures IntsFrom("[1-2]", 0, 20) == [1]
  {
  }
}
