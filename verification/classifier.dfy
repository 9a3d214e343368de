/** The meal classifier of the watch app's message handler
    (OpenMensa.c:531-571): a meal title that starts with a diet marker loses
    the marker and the spaces and colons after it, and every meal gets
    exactly one icon. The first rule that matches wins. */
module Classifier {
  import opened Common
  import opened Ascii
  import opened CStrings
  import opened Spans

  /** A classified meal: the title left in the title buffer and the icon. */
  datatype Meal = Meal(title: string, icon: Icon)

  /** `name` starts with `marker` (ignoring case), and a space or a colon
      follows it. */
  predicate MarkedBy(name: string, marker: string) {
    HasPrefixCI(name, marker) && |marker| < |name| && InClass(name[|marker|], Separators)
  }

  /** The title with its marker and all spaces and colons after the marker removed. */
  function Unmarked(name: string, marker: string): (r: string)
    requires MarkedBy(name, marker)
    ensures |r| < |name| - |marker|
  {
    name[RunEnd(name, |marker|, Separators)..]
  }

  /** What the classifier leaves behind, rule by rule: a `vegan` marker, a
      `vegetarian` marker, then `vegan` anywhere, then `vegetarian` or
      `vegetarisch` anywhere, and otherwise the pot. */
  function Classify(name: string): Meal
  {
    if MarkedBy(name, "vegan") then Meal(Unmarked(name, "vegan"), Vegan)
    else if MarkedBy(name, "vegetarian") then Meal(Unmarked(name, "vegetarian"), Vegetarian)
    else if ContainsCI(name, "vegan") then Meal(name, Vegan)
    else if ContainsCI(name, "vegetarian") || ContainsCI(name, "vegetarisch") then Meal(name, Vegetarian)
    else Meal(name, Pot)
  }

  /** The test the C code writes for each marker: `strncasecmp` with the
      marker and a colon over `n1` bytes, or with the bare marker over `n2`
      bytes and then a space or a colon at index `n2`. */
  predicate MarkerTest(name: CString, colonForm: CString, n1: nat, bare: CString, n2: nat) {
    CaseCmp(name, colonForm, n1) == 0 || (CaseCmp(name, bare, n2) == 0 && InClass(At(name, n2), Separators))
  }

  /** A title the classifier may be given: the exact titles `vegetarisch`
      and `vegetarisch:` (in any case) make the C code read past the
      terminator, so they are excluded. */
  predicate Classifiable(name: string) {
    !EqCI(name, "vegetarisch") && !EqCI(name, "vegetarisch:")
  }

  /** Folding a byte gives a colon only for a colon. */
  lemma LowerColon(c: char)
    ensures Lower(c) == ':' <==> c == ':'
  {
  }

  /** With the right lengths the C test is exactly "marked by". */
  lemma MarkerTestMarked(name: CString, marker: CString)
    ensures MarkerTest(name, marker + ":", |marker| + 1, marker, |marker|) <==> MarkedBy(name, marker)
  {
    var colonForm: CString := marker + ":";
    CaseCmpPrefix(name, colonForm);
    CaseCmpPrefix(name, marker);
    if HasPrefixCI(name, colonForm) {
      assert name[..|colonForm|][..|marker|] == name[..|marker|];
      assert Lower(name[|marker|]) == Lower(colonForm[|marker|]);
      LowerColon(name[|marker|]);
    }
    if MarkedBy(name, marker) {
      assert name[..|colonForm|][..|marker|] == name[..|marker|];
    }
  }

  /** The `vegetarisch` test compares 13 and 12 bytes against markers of 12
      and 11 characters, so it also compares the terminators: it can hold
      only for the exact titles `vegetarisch:` and `vegetarisch`. */
  lemma VegetarischTestWhole(name: CString)
    ensures MarkerTest(name, "vegetarisch:", 13, "vegetarisch", 12) ==> !Classifiable(name)
  {
    CaseCmpWhole(name, "vegetarisch:");
    CaseCmpWhole(name, "vegetarisch");
  }

  /** The C test for one marker, run with `strncasecmp` as the C code runs it. */
  method TestMarker(name: CString, colonForm: CString, n1: nat, bare: CString, n2: nat) returns (hit: bool)
    ensures hit <==> MarkerTest(name, colonForm, n1, bare, n2)
  {
    var d := StrNCaseCmp(name, colonForm, n1);
    if d == 0 {
      return true;
    }
    d := StrNCaseCmp(name, bare, n2);
    hit := d == 0 && InClass(At(name, n2), Separators);
  }

  /** Strip a marker the way the C code does: step past the marker and its
      colon if it has one, else past the marker, then past every space and
      colon, and keep the rest (the `memmove` to the front of the buffer). */
  method StripMarker(name: CString, marker: CString) returns (rest: CString)
    requires MarkedBy(name, marker)
    ensures rest == Unmarked(name, marker)
  {
    var d := StrNCaseCmp(name, marker + ":", |marker| + 1);
    var p := |marker|;
    if d == 0 {
      MarkerTestMarked(name, marker);
      CaseCmpPrefix(name, marker + ":");
      assert name[..|marker| + 1][|marker|] == name[|marker|];
      LowerColon(name[|marker|]);
      p := |marker| + 1;
      RunEndSkip(name, |marker|, p, Separators);
    }
    p := SkipRun(name, p, Separators);
    rest := Slice(name, p, |name|);
  }

  /** The C test for the `vegan` and `vegetarian` markers, whose lengths
      are right: `strncasecmp` over the marker and its colon, or over the
      bare marker and then a space or colon. */
  method TestMarkedBy(name: CString, marker: CString) returns (hit: bool)
    ensures hit <==> MarkedBy(name, marker)
  {
    hit := TestMarker(name, marker + ":", |marker| + 1, marker, |marker|);
    MarkerTestMarked(name, marker);
  }

  /** The classification block for one meal: the new title and the icon. */
  method ClassifyMeal(name: CString) returns (title: CString, icon: Icon)
    requires Classifiable(name)
    ensures Meal(title, icon) == Classify(name)
  {
    var hit := TestMarkedBy(name, "vegan");
    if hit {
      title := StripMarker(name, "vegan");
      return title, Vegan;
    }
    hit := TestMarkedBy(name, "vegetarian");
    if hit {
      title := StripMarker(name, "vegetarian");
      return title, Vegetarian;
    }
    hit := TestMarker(name, "vegetarisch:", 13, "vegetarisch", 12);
    if hit {
      VegetarischTestWhole(name);
      assert false;
    }
    var found := StrCaseStr(name, "vegan");
    if found.Some? {
      return name, Vegan;
    }
    found := StrCaseStr(name, "vegetarian");
    if found.None? {
      found := StrCaseStr(name, "vegetarisch");
    }
    if found.Some? {
      return name, Vegetarian;
    }
    return name, Pot;
  }

  // ---------------------------------------------------------------------
  // What the classification promises

  /** A title cannot carry both markers: they differ in their fourth letter. */
  lemma MarkersExclusive(name: string)
    ensures !(MarkedBy(name, "vegan") && MarkedBy(name, "vegetarian"))
  {
    if MarkedBy(name, "vegan") {
      assert name[..5][3] == name[3];
      if |name| >= 10 {
        assert name[..10][3] == name[3];
      }
    }
  }

  /** The icon, characterised without the rule order: vegan exactly when
      `vegan` occurs and no `vegetarian` marker leads; pot exactly when none
      of the three words occurs; vegetarian otherwise. */
  lemma ClassifyIcon(name: string)
    ensures Classify(name).icon == Vegan <==> ContainsCI(name, "vegan") && !MarkedBy(name, "vegetarian")
    ensures Classify(name).icon == Pot <==>
      !ContainsCI(name, "vegan") && !ContainsCI(name, "vegetarian") && !ContainsCI(name, "vegetarisch")
  {
    MarkersExclusive(name);
    if MarkedBy(name, "vegan") {
      PrefixContains(name, "vegan");
    }
    if MarkedBy(name, "vegetarian") {
      PrefixContains(name, "vegetarian");
    }
  }

  /** All bytes from `from` up to `to` are spaces or colons. */
  predicate SeparatorsBetween(name: string, from: nat, to: nat)
    requires from <= to <= |name|
  {
    forall i :: from <= i < to ==> InClass(name[i], Separators)
  }

  /** The title is what follows the first `cut` bytes of the name, and those
      bytes are `marker` (ignoring case) and then at least one space or colon. */
  predicate StrippedBy(name: string, title: string, marker: string) {
    |marker| < |name| - |title| && name[|name| - |title|..] == title &&
    HasPrefixCI(name, marker) && SeparatorsBetween(name, |marker|, |name| - |title|)
  }

  /** The title is the name itself or the name without a leading marker and
      its separators; a stripped title does not start with a space or colon;
      the icon agrees with the marker removed. */
  lemma ClassifyTitle(name: string)
    ensures Classify(name).title == name ||
      (StrippedBy(name, Classify(name).title, "vegan") && Classify(name).icon == Vegan) ||
      (StrippedBy(name, Classify(name).title, "vegetarian") && Classify(name).icon == Vegetarian)
    ensures Classify(name).title != name ==>
      Classify(name).title == [] || !InClass(Classify(name).title[0], Separators)
  {
    var m := if MarkedBy(name, "vegan") then "vegan" else "vegetarian";
    if MarkedBy(name, m) {
      RunEndSpan(name, |m|, Separators);
      var e := RunEnd(name, |m|, Separators);
      assert |name| - |name[e..]| == e;
    }
  }

  /** A title without a leading marker keeps its name. */
  lemma ClassifyKeepsUnmarked(name: string)
    requires !MarkedBy(name, "vegan") && !MarkedBy(name, "vegetarian")
    ensures Classify(name).title == name
  {
  }

  // ---------------------------------------------------------------------
  // Examples

  lemma VeganColonExample()
    ensures Classify("Vegan: Curry") == Meal("Curry", Vegan)
  {
    var s := "Vegan: Curry";
    assert MarkedBy(s, "vegan") by {
      assert s[..5] == "Vegan";
    }
    RunEndIs(s, 5, Separators, 7);
    assert s[7..] == "Curry";
  }

  lemma VeganSpaceExample()
    ensures Classify("vegan  Bowl") == Meal("Bowl", Vegan)
  {
    var s := "vegan  Bowl";
    assert MarkedBy(s, "vegan") by {
      assert s[..5] == "vegan";
    }
    RunEndIs(s, 5, Separators, 7);
    assert s[7..] == "Bowl";
  }

  /** `vegan` glued to a word is no marker: the substring rule still gives
      the vegan icon and keeps the name. */
  lemma VeganWordExample()
    ensures Classify("Veganes Chili") == Meal("Veganes Chili", Vegan)
  {
    var s := "Veganes Chili";
    assert !MarkedBy(s, "vegan") by {
      assert s[5] == 'e';
    }
    assert !MarkedBy(s, "vegetarian") by {
      assert Lower(s[..10][3]) == 'a';
    }
    assert MatchAt(s, "vegan", 0) by {
      assert s[0..5] == "Vegan";
    }
  }

  /** Because of the `vegetarisch` lengths, a German marker is never
      stripped: the title stays whole and the substring rule gives the
      vegetarian icon. */
  lemma VegetarischExample()
    ensures Classify("Vegetarisch: Lasagne") == Meal("Vegetarisch: Lasagne", Vegetarian)
  {
    var s := "Vegetarisch: Lasagne";
    assert !MarkedBy(s, "vegan") by {
      assert Lower(s[..5][3]) == 'e';
    }
    assert !MarkedBy(s, "vegetarian") by {
      assert Lower(s[..10][8]) == 's';
    }
    forall k | 0 <= k <= |s| ensures !MatchAt(s, "vegan", k) {
      if k + 5 <= |s| {
        var w := s[k..k + 5];
        assert w[0] == s[k] && w[3] == s[k + 3];
      }
    }
    assert MatchAt(s, "vegetarisch", 0) by {
      assert s[0..11] == "Vegetarisch";
    }
  }

  lemma PotExample()
    ensures Classify("Schnitzel") == Meal("Schnitzel", Pot)
  {
    var s := "Schnitzel";
    forall k | 0 <= k <= |s| ensures !MatchAt(s, "vegan", k) {
      if k + 5 <= |s| {
        assert s[k..k + 5][0] == s[k];
      }
    }
  }
}
