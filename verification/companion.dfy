/** The reshaping helpers of the phone companion (src/pkjs/index.js): the
    day list for the watch's menu, the date sent back when a day is picked,
    the meal list with its icons and stripped titles, the detail records and
    the title of the detail card. Strings are JavaScript strings restricted
    to ASCII: `toLowerCase` folds A-Z only and `trim` removes the ASCII
    white space characters. */
module Companion {
  import opened Common
  import opened Ascii
  import Classifier

  // ---------------------------------------------------------------------
  // JavaScript string operations

  /** `s.substring(a, b)` for non-negative arguments: both are clamped to
      the length, and they are swapped when the first is the larger. */
  function Substring(s: string, a: nat, b: nat): (r: string)
    ensures a <= b <= |s| ==> r == s[a..b]
    ensures b <= a <= |s| ==> r == s[b..a]
    ensures |r| <= |s|
  {
    var lo := Min(a, |s|);
    var hi := Min(b, |s|);
    if lo <= hi then s[lo..hi] else s[hi..lo]
  }

  /** `s.substring(a)`: from `a` to the end, empty past the end. */
  function SubstringFrom(s: string, a: nat): (r: string)
    ensures a <= |s| ==> r == s[a..]
    ensures a > |s| ==> r == []
  {
    Substring(s, a, |s|)
  }

  /** `s.toLowerCase()` on ASCII text. */
  function ToLower(s: string): (r: string)
    ensures |r| == |s|
    ensures forall i :: 0 <= i < |s| ==> r[i] == Lower(s[i])
  {
    if s == [] then [] else [Lower(s[0])] + ToLower(s[1..])
  }

  /** `n` occurs in `h` at offset `k`, exactly. */
  predicate OccursAt(h: string, n: string, k: nat) {
    k + |n| <= |h| && h[k..k + |n|] == n
  }

  /** `h.includes(n)`: an exact occurrence. */
  predicate Includes(h: string, n: string) {
    exists k :: 0 <= k <= |h| && OccursAt(h, n, k)
  }

  /** `s.startsWith(p)`: an exact prefix. */
  predicate StartsWith(s: string, p: string) {
    |p| <= |s| && s[..|p|] == p
  }

  /** Text without white space at either end. */
  predicate Trimmed(t: string) {
    t == [] || (!IsSpace(t[0]) && !IsSpace(t[|t| - 1]))
  }

  /** The leading white space removed. */
  function TrimStart(s: string): (r: string)
    ensures |r| <= |s| && r == s[|s| - |r|..]
    ensures forall i :: 0 <= i < |s| - |r| ==> IsSpace(s[i])
    ensures r == [] || !IsSpace(r[0])
  {
    if s != [] && IsSpace(s[0]) then TrimStart(s[1..]) else s
  }

  /** The trailing white space removed. */
  function TrimEnd(s: string): (r: string)
    ensures |r| <= |s| && r == s[..|r|]
    ensures forall i :: |r| <= i < |s| ==> IsSpace(s[i])
    ensures r == [] || !IsSpace(r[|r| - 1])
  {
    if s != [] && IsSpace(s[|s| - 1]) then TrimEnd(s[..|s| - 1]) else s
  }

  /** `s.trim()`. */
  function Trim(s: string): string {
    TrimEnd(TrimStart(s))
  }

  /** Only white space lies before `i` and from `j` on. */
  predicate SpaceAround(s: string, i: nat, j: nat) {
    i <= j <= |s| && (forall k :: 0 <= k < i ==> IsSpace(s[k])) && (forall k :: j <= k < |s| ==> IsSpace(s[k]))
  }

  /** The bounds of what `trim` keeps: only white space before `i` and
      from `j` on, and none at either end of what is kept. */
  lemma TrimBounds(s: string) returns (i: nat, j: nat)
    ensures SpaceAround(s, i, j) && Trim(s) == s[i..j] && Trimmed(Trim(s))
  {
    var t := TrimStart(s);
    i := |s| - |t|;
    assert t == s[i..];
    var r := TrimEnd(t);
    assert r == t[..|r|];
    j := i + |r|;
    PrefixOfSuffix(s, i, |r|);
    assert Trim(s) == r;
    forall k | j <= k < |s| ensures IsSpace(s[k]) {
      assert s[k] == t[k - i];
    }
    TrimTrimmedEnds(s);
  }

  /** A prefix of a suffix is a slice. */
  lemma PrefixOfSuffix(s: string, i: nat, m: nat)
    requires i + m <= |s|
    ensures s[i..][..m] == s[i..i + m]
  {
    forall x | 0 <= x < m ensures s[i..][..m][x] == s[i + x] {
      assert s[i..][..m][x] == s[i..][x];
    }
  }

  /** `trim` leaves no white space at either end. */
  lemma TrimTrimmedEnds(s: string)
    ensures Trimmed(Trim(s))
  {
    var t := TrimStart(s);
    var r := TrimEnd(t);
    if r != [] {
      assert r[0] == t[..|r|][0] == t[0];
    }
  }

  /** Trimmed text is kept as it is: `trim` is idempotent. */
  lemma TrimTrimmed(s: string)
    requires Trimmed(s)
    ensures Trim(s) == s
  {
    assert TrimStart(s) == s;
  }

  lemma TrimIdempotent(s: string)
    ensures Trim(Trim(s)) == Trim(s)
  {
    var i, j := TrimBounds(s);
    TrimTrimmed(Trim(s));
  }

  // ---------------------------------------------------------------------
  // Lower-casing and the case-insensitive tests of the watch

  /** Against a lower-case needle, an exact match in the lower-cased text
      is a case-insensitive match in the text. */
  lemma LowerMatch(h: string, n: string, k: nat)
    requires IsLowerCase(n) && k + |n| <= |h|
    ensures ToLower(h)[k..k + |n|] == n <==> MatchAt(h, n, k)
  {
    LowerSlice(h, k, k + |n|);
    var l := ToLower(h)[k..k + |n|];
    var w := h[k..k + |n|];
    if MatchAt(h, n, k) {
      forall i | 0 <= i < |n| ensures l[i] == n[i] {
        assert Lower(w[i]) == Lower(n[i]);
      }
      assert l == n;
    }
    if l == n {
      forall i | 0 <= i < |n| ensures Lower(w[i]) == Lower(n[i]) {
        assert l[i] == n[i];
      }
      assert EqCI(w, n);
    }
  }

  /** A slice of the lower-cased text is the slice, folded. */
  lemma LowerSlice(h: string, a: nat, b: nat)
    requires a <= b <= |h|
    ensures |ToLower(h)[a..b]| == b - a
    ensures forall i :: 0 <= i < b - a ==> ToLower(h)[a..b][i] == Lower(h[a..b][i])
  {
    forall i | 0 <= i < b - a ensures ToLower(h)[a..b][i] == Lower(h[a..b][i]) {
      assert ToLower(h)[a..b][i] == ToLower(h)[a + i] && h[a..b][i] == h[a + i];
    }
  }

  /** `h.toLowerCase().includes(n)` for a lower-case `n` is the watch's
      case-insensitive search. */
  lemma IncludesLower(h: string, n: string)
    requires IsLowerCase(n)
    ensures Includes(ToLower(h), n) <==> ContainsCI(h, n)
  {
    if Includes(ToLower(h), n) {
      var k :| 0 <= k <= |ToLower(h)| && OccursAt(ToLower(h), n, k);
      LowerMatch(h, n, k);
    }
    if ContainsCI(h, n) {
      var k :| 0 <= k <= |h| && MatchAt(h, n, k);
      LowerMatch(h, n, k);
      assert OccursAt(ToLower(h), n, k);
    }
  }

  /** `s.toLowerCase().startsWith(p)` for a lower-case `p` is a
      case-insensitive prefix. */
  lemma StartsWithLower(s: string, p: string)
    requires IsLowerCase(p)
    ensures StartsWith(ToLower(s), p) <==> HasPrefixCI(s, p)
  {
    MatchAtZero(s, p);
    if |p| <= |s| {
      LowerMatch(s, p, 0);
      assert ToLower(s)[..|p|] == ToLower(s)[0..|p|];
    }
  }

  /** An occurrence in a part is an occurrence in the whole. */
  lemma ContainsInFactor(p: string, m: string, q: string, n: string)
    requires ContainsCI(m, n)
    ensures ContainsCI(p + m + q, n)
  {
    var k :| 0 <= k <= |m| && MatchAt(m, n, k);
    assert (p + m + q)[|p| + k..|p| + k + |n|] == m[k..k + |n|];
    assert MatchAt(p + m + q, n, |p| + k);
  }

  // ---------------------------------------------------------------------
  // The day menu (index.js:65-79 and 35-40)

  /** A day of the canteen's day list; only its date is read. */
  datatype Day = Day(date: string)

  /** An item of the day menu. */
  datatype DayItem = DayItem(title: string)

  /** The title `parseDays` makes of a date: `YYYY-MM-DD` becomes
      `DD.MM.YYYY`. */
  function DayTitle(date: string): string {
    Substring(date, 8, 10) + "." + Substring(date, 5, 7) + "." + Substring(date, 0, 4)
  }

  /** The date the select handler rebuilds from a title and asks the
      canteen's meals for. */
  function SelectedDate(title: string): string {
    Substring(title, 6, 10) + "-" + Substring(title, 3, 5) + "-" + Substring(title, 0, 2)
  }

  /** A date of at least ten characters gives a title of ten characters,
      its day, month and year separated by dots. */
  lemma DayTitleShape(date: string)
    requires |date| >= 10
    ensures var t := DayTitle(date);
      |t| == 10 && t[2] == '.' && t[5] == '.' &&
      t[..2] == date[8..10] && t[3..5] == date[5..7] && t[6..] == date[..4]
  {
  }

  /** Round trip: picking a day asks for the date the day came with (its
      first ten characters) exactly when that date has dashes where
      `YYYY-MM-DD` has them. */
  lemma DateRoundTrip(date: string)
    requires |date| >= 10
    ensures SelectedDate(DayTitle(date)) == date[..10] <==> date[4] == '-' && date[7] == '-'
  {
    var t := DayTitle(date);
    DayTitleShape(date);
    var back := SelectedDate(t);
    assert back == date[..4] + "-" + date[5..7] + "-" + date[8..10];
    assert back[4] == '-' && back[7] == '-';
    if date[4] == '-' && date[7] == '-' {
      assert date[..10] == date[..4] + [date[4]] + date[5..7] + [date[7]] + date[8..10];
    }
  }

  lemma DateExample()
    ensures DayTitle("2025-01-31") == "31.01.2025"
    ensures SelectedDate("31.01.2025") == "2025-01-31"
  {
    var t := "31.01.2025";
    assert t[6..10] == "2025" && t[3..5] == "01" && t[0..2] == "31";
  }

  /** `parseDays`: one item per day, in order, titled with its date. */
  method ParseDays(days: seq<Day>) returns (items: seq<DayItem>)
    ensures |items| == |days|
    ensures forall i :: 0 <= i < |days| ==> items[i].title == DayTitle(days[i].date)
    ensures forall i :: 0 <= i < |days| && |days[i].date| >= 10 && days[i].date[4] == '-' && days[i].date[7] == '-' ==>
      SelectedDate(items[i].title) == days[i].date[..10]
  {
    items := [];
    var i := 0;
    while i < |days|
      invariant i <= |days| && |items| == i
      invariant forall j :: 0 <= j < i ==> items[j].title == DayTitle(days[j].date)
    {
      var date := days[i].date;
      items := items + [DayItem(Substring(date, 8, 10) + "." + Substring(date, 5, 7) + "." + Substring(date, 0, 4))];
      i := i + 1;
    }
    forall i | 0 <= i < |days| && |days[i].date| >= 10 && days[i].date[4] == '-' && days[i].date[7] == '-'
      ensures SelectedDate(items[i].title) == days[i].date[..10]
    {
      DateRoundTrip(days[i].date);
    }
  }

  // ---------------------------------------------------------------------
  // The meal menu (index.js:81-129)

  /** A meal's notes: a string, or an array of strings. */
  datatype Notes = Text(text: string) | List(items: seq<string>)

  /** A meal of the canteen's meal list; of its prices only the student
      price is read, as text. */
  datatype ApiMeal = ApiMeal(name: string, notes: Notes, students: string)

  /** An item of the meal menu. */
  datatype MealItem = MealItem(title: string, icon: Icon, subtitle: string)

  /** A record of `parseMealInfo`, kept for the detail card. */
  datatype MealInfo = MealInfo(title: string, price: string, notes: Notes)

  /** `array.join(', ')`. */
  function Join(xs: seq<string>): string
  {
    if xs == [] then ""
    else if |xs| == 1 then xs[0]
    else xs[0] + ", " + Join(xs[1..])
  }

  /** The notes as the icon rule reads them: an array joined with ", ". */
  function NotesText(n: Notes): string
  {
    match n
    case Text(t) => t
    case List(xs) => Join(xs)
  }

  /** A word mentioned by any one note is mentioned by the joined notes. */
  lemma {:induction false} JoinMentions(xs: seq<string>, k: nat, w: string)
    requires k < |xs| && ContainsCI(xs[k], w)
    ensures ContainsCI(Join(xs), w)
  {
    if |xs| == 1 {
    } else if k == 0 {
      ContainsInFactor([], xs[0], ", " + Join(xs[1..]), w);
      assert [] + xs[0] + (", " + Join(xs[1..])) == Join(xs);
    } else {
      JoinMentions(xs[1..], k - 1, w);
      ContainsInFactor(xs[0] + ", ", Join(xs[1..]), [], w);
      assert xs[0] + ", " + Join(xs[1..]) + [] == Join(xs);
    }
  }

  /** `w` occurs, in any case, in the name or in the notes. */
  predicate Mentions(name: string, notes: string, w: string) {
    ContainsCI(name, w) || ContainsCI(notes, w)
  }

  /** The phone's icon rule, by precedence rather than by the order of its
      assignments: vegetarian when `vegetarisch` or `vegetarian` is
      mentioned, even beside `vegan`; else vegan when `vegan` is mentioned;
      else the pot. */
  function IconOf(name: string, notes: string): Icon {
    if Mentions(name, notes, "vegetarisch") || Mentions(name, notes, "vegetarian") then Vegetarian
    else if Mentions(name, notes, "vegan") then Vegan
    else Pot
  }

  /** The icon assignments of `parseMeals`: the pot, overwritten by the
      vegan image, overwritten by the vegetarian image. */
  method PickIcon(name: string, notes: string) returns (image: Icon)
    ensures image == IconOf(name, notes)
  {
    image := Pot;
    if Includes(ToLower(name), "vegan") || Includes(ToLower(notes), "vegan") {
      image := Vegan;
    }
    if Includes(ToLower(name), "vegetarisch") || Includes(ToLower(name), "vegetarian") ||
       Includes(ToLower(notes), "vegetarisch") || Includes(ToLower(notes), "vegetarian") {
      image := Vegetarian;
    }
    IncludesLower(name, "vegan");
    IncludesLower(notes, "vegan");
    IncludesLower(name, "vegetarisch");
    IncludesLower(notes, "vegetarisch");
    IncludesLower(name, "vegetarian");
    IncludesLower(notes, "vegetarian");
  }

  /** One prefix check of `parseMeals`: a case-insensitive `marker` prefix
      is cut off and the rest trimmed. */
  function StripLower(name: string, marker: string): string {
    if StartsWith(ToLower(name), marker) then Trim(SubstringFrom(name, |marker|)) else name
  }

  /** The three prefix checks of `parseMeals`, in sequence. */
  function MealTitle(name: string): string {
    StripLower(StripLower(StripLower(name, "vegan:"), "vegetarian:"), "vegetarisch:")
  }

  /** The markers `parseMeals` looks for are written in lower case. */
  lemma MarkersLowerCase()
    ensures IsLowerCase("vegan:") && IsLowerCase("vegetarian:") && IsLowerCase("vegetarisch:")
  {
  }

  /** A check cuts exactly a case-insensitive marker prefix. */
  lemma StripLowerCI(name: string, marker: string)
    requires IsLowerCase(marker)
    ensures StripLower(name, marker) == if HasPrefixCI(name, marker) then Trim(name[|marker|..]) else name
  {
    StartsWithLower(name, marker);
  }

  /** Stripping either keeps the name or leaves trimmed text that lay inside it. */
  predicate StrippedFrom(name: string, title: string) {
    title == name ||
    (Trimmed(title) && exists i, j :: 0 <= i <= j <= |name| && title == name[i..j])
  }

  /** A slice of a suffix is a slice of the whole. */
  lemma SliceOfSuffix(s: string, k: nat, i: nat, j: nat)
    requires k <= |s| && i <= j <= |s| - k
    ensures s[k..][i..j] == s[k + i..k + j]
  {
    var t := s[k..][i..j];
    forall x | 0 <= x < |t| ensures t[x] == s[k + i + x] {
      assert t[x] == s[k..][i + x];
    }
  }

  /** Cutting a prefix and trimming the rest strips the name. */
  lemma CutStrips(name: string, k: nat)
    requires k <= |name|
    ensures StrippedFrom(name, Trim(name[k..]))
  {
    var i, j := TrimBounds(name[k..]);
    SliceOfSuffix(name, k, i, j);
    assert 0 <= k + i <= k + j <= |name| && Trim(name[k..]) == name[k + i..k + j];
  }

  lemma StripLowerStrips(name: string, marker: string)
    ensures StrippedFrom(name, StripLower(name, marker))
  {
    if StartsWith(ToLower(name), marker) {
      CutStrips(name, |marker|);
    }
  }

  /** Each check keeps what the previous one left or cuts inside it, so the
      meal title lies inside the name and is trimmed unless it is the name. */
  lemma StrippedTrans(name: string, mid: string, title: string)
    requires StrippedFrom(name, mid) && StrippedFrom(mid, title)
    ensures StrippedFrom(name, title)
  {
    if mid != name && title != mid {
      var i, j :| 0 <= i <= j <= |name| && mid == name[i..j];
      var i', j' :| 0 <= i' <= j' <= |mid| && title == mid[i'..j'];
      forall x | 0 <= x < |title| ensures title[x] == name[i + i' + x] {
        assert title[x] == mid[i' + x];
      }
      assert title == name[i + i'..i + j'];
    }
  }

  lemma MealTitleStrips(name: string)
    ensures StrippedFrom(name, MealTitle(name))
  {
    var a := StripLower(name, "vegan:");
    var b := StripLower(a, "vegetarian:");
    StripLowerStrips(name, "vegan:");
    StripLowerStrips(a, "vegetarian:");
    StripLowerStrips(b, "vegetarisch:");
    StrippedTrans(name, a, b);
    StrippedTrans(name, b, MealTitle(name));
  }

  /** A name without any of the three colon markers keeps its title: a
      marker followed by a space alone is not stripped. */
  lemma MealTitleUnmarked(name: string)
    requires !HasPrefixCI(name, "vegan:") && !HasPrefixCI(name, "vegetarian:") && !HasPrefixCI(name, "vegetarisch:")
    ensures MealTitle(name) == name
  {
    StripLowerCI(name, "vegan:");
    StripLowerCI(name, "vegetarian:");
    StripLowerCI(name, "vegetarisch:");
  }

  /** One space before trimmed text is removed by `trim`. */
  lemma TrimAfterSpace(t: string)
    requires Trimmed(t)
    ensures Trim([' '] + t) == t
  {
    assert ([' '] + t)[1..] == t;
    assert TrimStart(t) == t;
    TrimTrimmed(t);
  }

  /** A check that fires on a marker, a space and trimmed text leaves that text. */
  lemma StripLowerStep(name: string, marker: string, rest: string)
    requires IsLowerCase(marker) && HasPrefixCI(name, marker)
    requires name[|marker|..] == [' '] + rest && Trimmed(rest)
    ensures StripLower(name, marker) == rest
  {
    StripLowerCI(name, marker);
    TrimAfterSpace(rest);
  }

  /** A name made of the marker written in any case, one space and trimmed
      text loses the marker and the space: the check leaves the text. */
  lemma StripAfter(marker: string, m: string, rest: string)
    requires IsLowerCase(marker) && EqCI(m, marker) && Trimmed(rest)
    ensures StripLower(m + [' '] + rest, marker) == rest
  {
    var name := m + [' '] + rest;
    assert name[..|marker|] == m;
    assert name[|marker|..] == [' '] + rest;
    StripLowerStep(name, marker, rest);
  }

  /** The checks run in sequence, so stacked markers are all removed:
      `Vegan: Vegetarian: X` becomes `X`, in any case of the markers. */
  lemma StackedMarkers(m1: string, m2: string, x: string)
    requires EqCI(m1, "vegan:") && EqCI(m2, "vegetarian:")
    requires x != [] && Trimmed(x) && !HasPrefixCI(x, "vegetarisch:")
    ensures MealTitle(m1 + [' '] + (m2 + [' '] + x)) == x
  {
    MarkersLowerCase();
    var t := m2 + [' '] + x;
    assert t[0] == m2[0] && t[|t| - 1] == x[|x| - 1];
    assert Lower(m2[0]) == 'v';
    StripAfter("vegan:", m1, t);
    StripAfter("vegetarian:", m2, x);
    StripLowerCI(x, "vegetarisch:");
  }

  lemma SpaceMarkerExample()
    ensures MealTitle("Vegan Curry") == "Vegan Curry"
  {
    var s := "Vegan Curry";
    assert !HasPrefixCI(s, "vegan:") by {
      assert s[..6][5] == ' ';
    }
    MealTitleUnmarked(s);
  }

  /** Item for one meal. */
  function MealItemOf(meal: ApiMeal): MealItem {
    MealItem(MealTitle(meal.name), IconOf(meal.name, NotesText(meal.notes)), meal.students + "€")
  }

  /** The prefix checks of `parseMeals` on the variable holding the name. */
  method StripMarkers(name: string) returns (title: string)
    ensures title == MealTitle(name)
  {
    title := name;
    if StartsWith(ToLower(title), "vegan:") {
      title := Trim(SubstringFrom(title, 6));
    }
    if StartsWith(ToLower(title), "vegetarian:") {
      title := Trim(SubstringFrom(title, 11));
    }
    if StartsWith(ToLower(title), "vegetarisch:") {
      title := Trim(SubstringFrom(title, 12));
    }
  }

  /** `parseMeals`: one item per meal, in order, with the stripped title,
      the icon of its name and notes, and the student price with a euro sign. */
  method ParseMeals(meals: seq<ApiMeal>) returns (items: seq<MealItem>)
    ensures |items| == |meals|
    ensures forall i :: 0 <= i < |meals| ==> items[i] == MealItemOf(meals[i])
  {
    items := [];
    var i := 0;
    while i < |meals|
      invariant i <= |meals| && |items| == i
      invariant forall j :: 0 <= j < i ==> items[j] == MealItemOf(meals[j])
    {
      var meal := meals[i];
      var mealNotes := NotesText(meal.notes);
      var image := PickIcon(meal.name, mealNotes);
      var mealName := StripMarkers(meal.name);
      items := items + [MealItem(mealName, image, meal.students + "€")];
      i := i + 1;
    }
  }

  /** `parseMealInfo`: one record per meal, in order, the name copied
      unchanged, with the student price and the notes as they came. */
  method ParseMealInfo(meals: seq<ApiMeal>) returns (infos: seq<MealInfo>)
    ensures |infos| == |meals|
    ensures forall i :: 0 <= i < |meals| ==>
      infos[i].title == meals[i].name && infos[i].price == meals[i].students && infos[i].notes == meals[i].notes
  {
    infos := [];
    var i := 0;
    while i < |meals|
      invariant i <= |meals| && |infos| == i
      invariant forall j :: 0 <= j < i ==>
        infos[j].title == meals[j].name && infos[j].price == meals[j].students && infos[j].notes == meals[j].notes
    {
      var meal := meals[i];
      infos := infos + [MealInfo(meal.name, meal.students, meal.notes)];
      i := i + 1;
    }
  }

  /** A meal whose notes array mentions `vegan` in one of its entries gets
      the vegan icon, unless vegetarian is mentioned anywhere. */
  lemma NoteEntryIcon(meal: ApiMeal, k: nat)
    requires meal.notes.List? && k < |meal.notes.items| && ContainsCI(meal.notes.items[k], "vegan")
    ensures MealItemOf(meal).icon != Pot
  {
    JoinMentions(meal.notes.items, k, "vegan");
  }

  /** The watch and the phone disagree on a name mentioning both words
      without a leading `vegetarian` marker: the watch's first match gives
      vegan, the phone's precedence gives vegetarian. */
  lemma IconPrecedenceDiffers(name: string)
    requires ContainsCI(name, "vegan") && ContainsCI(name, "vegetarian") && !Classifier.MarkedBy(name, "vegetarian")
    ensures Classifier.Classify(name).icon == Vegan
    ensures IconOf(name, "") == Vegetarian
  {
    Classifier.ClassifyIcon(name);
  }

  // ---------------------------------------------------------------------
  // The detail card (index.js:172-193)

  /** One prefix check of `showMealCard`: an exact, case-sensitive marker. */
  function StripExact(name: string, marker: string): string {
    if StartsWith(name, marker) then Trim(SubstringFrom(name, |marker|)) else name
  }

  /** The card title: the three upper-case checks, in sequence. */
  function CardTitle(name: string): string {
    StripExact(StripExact(StripExact(name, "VEGAN:"), "VEGETARIAN:"), "VEGETARISCH:")
  }

  lemma StripExactStrips(name: string, marker: string)
    ensures StrippedFrom(name, StripExact(name, marker))
  {
    if StartsWith(name, marker) {
      CutStrips(name, |marker|);
    }
  }

  /** The card title lies inside the name and is trimmed unless it is the name. */
  lemma CardTitleStrips(name: string)
    ensures StrippedFrom(name, CardTitle(name))
  {
    var a := StripExact(name, "VEGAN:");
    var b := StripExact(a, "VEGETARIAN:");
    StripExactStrips(name, "VEGAN:");
    StripExactStrips(a, "VEGETARIAN:");
    StripExactStrips(b, "VEGETARISCH:");
    StrippedTrans(name, a, b);
    StrippedTrans(name, b, CardTitle(name));
  }

  /** A name that does not start with an exact upper-case marker keeps its
      card title, whatever its case-insensitive prefix. */
  lemma CardTitleUnmarked(name: string)
    requires !StartsWith(name, "VEGAN:") && !StartsWith(name, "VEGETARIAN:") && !StartsWith(name, "VEGETARISCH:")
    ensures CardTitle(name) == name
  {
  }

  lemma CardExample()
    ensures CardTitle("VEGAN: Curry") == "Curry"
    ensures CardTitle("Vegan: Curry") == "Vegan: Curry"
  {
    var s := "VEGAN: Curry";
    assert s[..6] == "VEGAN:";
    assert s[6..] == [' '] + "Curry";
    TrimAfterSpace("Curry");
    var t := "Vegan: Curry";
    assert t[..6][1] == 'e';
    CardTitleUnmarked(t);
  }

  /** The card shown for a picked meal. */
  datatype Card = Card(title: string, subtitle: string, body: Notes)

  /** `showMealCard`: the card title is the record's title after the three
      upper-case checks, the subtitle the price with a euro sign, the body
      the notes as they came. */
  method ShowMealCard(meal: MealInfo) returns (card: Card)
    ensures card.title == CardTitle(meal.title)
    ensures StrippedFrom(meal.title, card.title)
    ensures card.subtitle == meal.price + "€" && card.body == meal.notes
  {
    var mealName := meal.title;
    if StartsWith(mealName, "VEGAN:") {
      mealName := Trim(SubstringFrom(mealName, 6));
    }
    if StartsWith(mealName, "VEGETARIAN:") {
      mealName := Trim(SubstringFrom(mealName, 11));
    }
    if StartsWith(mealName, "VEGETARISCH:") {
      mealName := Trim(SubstringFrom(mealName, 12));
    }
    CardTitleStrips(meal.title);
    card := Card(mealName, meal.price + "€", meal.notes);
  }
}
