/** Skipping over a run of bytes of one class, as the scanners' inner
    `while (*ptr && ...) ptr++;` loops do. Positions are indices into the
    text, as the C code's pointers are. */
module Spans {
  import opened Ascii

  /** A byte that `parse_int_array` treats as part of a number. */
  predicate IsNumeric(c: char) { IsDigit(c) || c == '-' }

  /** The classes of bytes the scanners skip over; `Separators` are the
      spaces and colons that follow a meal marker. */
  datatype Class = Spaces | Digits | Numerics | NonNumerics | Separators

  predicate InClass(c: char, cls: Class) {
    match cls
    case Spaces => IsSpace(c)
    case Digits => IsDigit(c)
    case Numerics => IsNumeric(c)
    case NonNumerics => !IsNumeric(c)
    case Separators => c == ' ' || c == ':'
  }

  /** Where the run of `cls` bytes starting at `k` ends: the first index at or
      after `k` holding a byte outside `cls`, or the end of the text. */
  function RunEnd(s: string, k: nat, cls: Class): (e: nat)
    requires k <= |s|
    ensures k <= e <= |s|
    decreases |s| - k
  {
    if k < |s| && InClass(s[k], cls) then RunEnd(s, k + 1, cls) else k
  }

  /** Every byte of the run is in `cls`; the byte ending it is not. */
  lemma {:induction false} RunEndSpan(s: string, k: nat, cls: Class)
    requires k <= |s|
    ensures forall i :: k <= i < RunEnd(s, k, cls) ==> InClass(s[i], cls)
    ensures RunEnd(s, k, cls) < |s| ==> !InClass(s[RunEnd(s, k, cls)], cls)
    decreases |s| - k
  {
    if k < |s| && InClass(s[k], cls) {
      RunEndSpan(s, k + 1, cls);
    }
  }

  /** The end of a run is determined by its characterisation. */
  lemma RunEndIs(s: string, k: nat, cls: Class, e: nat)
    requires k <= e <= |s|
    requires forall i :: k <= i < e ==> InClass(s[i], cls)
    requires e < |s| ==> !InClass(s[e], cls)
    ensures RunEnd(s, k, cls) == e
    decreases e - k
  {
    if k < e {
      RunEndIs(s, k + 1, cls, e);
    }
  }

  /** A run starting earlier inside the same run ends at the same place. */
  lemma RunEndSkip(s: string, k: nat, d: nat, cls: Class)
    requires k <= d <= |s|
    requires forall i :: k <= i < d ==> InClass(s[i], cls)
    ensures RunEnd(s, k, cls) == RunEnd(s, d, cls)
    decreases d - k
  {
    if k < d {
      RunEndSkip(s, k + 1, d, cls);
    }
  }

  /** Runs inside `t` are the same runs inside `p + t`, shifted by |p|. */
  lemma RunEndShift(p: string, t: string, k: nat, cls: Class)
    requires k <= |t|
    ensures RunEnd(p + t, |p| + k, cls) == |p| + RunEnd(t, k, cls)
  {
    var s, e := p + t, RunEnd(t, k, cls);
    RunEndSpan(t, k, cls);
    forall i | |p| + k <= i < |p| + e ensures InClass(s[i], cls) {
      assert s[i] == t[i - |p|];
    }
    if e < |t| {
      assert s[|p| + e] == t[e];
    }
    RunEndIs(s, |p| + k, cls, |p| + e);
  }

  /** The scanners' `while (*ptr && ...) ptr++;` loops: advance over the run
      of `cls` bytes starting at `k`. */
  method SkipRun(s: string, k: nat, cls: Class) returns (e: nat)
    requires k <= |s|
    ensures e == RunEnd(s, k, cls)
  {
    e := k;
    while e < |s| && InClass(s[e], cls)
      invariant k <= e <= |s|
      invariant forall i :: k <= i < e ==> InClass(s[i], cls)
    {
      e := e + 1;
    }
    RunEndIs(s, k, cls, e);
  }
}
