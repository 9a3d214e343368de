/** The watch app's state and its message handler (OpenMensa.c): the day
    menu, the meal menu and the meal detail buffers, all globals that
    `inbox_received_callback` updates in place. Windows, layers and bitmaps
    are not modelled; what the handler puts on screen is recorded in a
    ghost log of signals. */
module Watch {
  import opened Common
  import opened CStrings
  import opened Spans
  import opened StringScan
  import opened IntScan
  import opened Classifier

  /** MAX_MENU_ITEMS and MAX_MEALS (OpenMensa.c:16, 21). */
  const MaxMenuItems: nat := 10
  const MaxMeals: nat := 20

  /** The sizes of the meal detail buffers s_meal_info_name, _price and
      _allergens (OpenMensa.c:37-39). */
  const NameSize: nat := 128
  const PriceSize: nat := 64
  const AllergensSize: nat := 256

  /** What the handler puts on screen. */
  datatype Signal =
    | ErrorShown(message: CString)  // the error window
    | MealInfoShown                 // the meal detail window
    | MealsShown                    // the meals window
    | DayMenuReloaded               // the day menu redrawn

  /** One incoming message: each key present (Some) or absent (None). */
  datatype Message = Message(
    error: Option<CString>,
    dayList: Option<CString>,
    weekdayList: Option<CString>,
    mealsIds: Option<CString>,
    mealsNames: Option<CString>,
    mealsPrices: Option<CString>,
    mealName: Option<CString>,
    mealPrice: Option<CString>,
    mealNotes: Option<CString>)

  /** All three detail fields are present. */
  predicate HasDetail(m: Message) {
    m.mealName.Some? && m.mealPrice.Some? && m.mealNotes.Some?
  }

  /** All three meal-list fields are present. */
  predicate HasMeals(m: Message) {
    m.mealsIds.Some? && m.mealsNames.Some? && m.mealsPrices.Some?
  }

  /** The signals the handler gives for a message, in order: an error alone,
      or the detail window, the meals window and the day menu reload. */
  function SignalsFor(m: Message): seq<Signal>
  {
    if m.error.Some? then [ErrorShown(m.error.value)]
    else
      (if HasDetail(m) then [MealInfoShown] else []) +
      (if HasMeals(m) then [MealsShown] else []) +
      [DayMenuReloaded]
  }

  /** An error is shown alone; otherwise the day menu is reloaded last, the
      detail window appears exactly when all detail fields are present and
      the meals window exactly when all meal fields are. */
  lemma SignalsForShape(m: Message)
    ensures m.error.Some? ==> |SignalsFor(m)| == 1 && SignalsFor(m)[0].ErrorShown?
    ensures m.error.None? ==> SignalsFor(m)[|SignalsFor(m)| - 1] == DayMenuReloaded
    ensures m.error.None? ==> forall j :: 0 <= j < |SignalsFor(m)| ==> !SignalsFor(m)[j].ErrorShown?
    ensures MealInfoShown in SignalsFor(m) <==> m.error.None? && HasDetail(m)
    ensures MealsShown in SignalsFor(m) <==> m.error.None? && HasMeals(m)
  {
  }

  // ---------------------------------------------------------------------
  // The detail buffers

  /** A buffer of `size` bytes after `strncpy(buf, s, size - 1)` and
      `buf[size - 1] = '\0'`. */
  function Stored(s: CString, size: nat): (b: seq<char>)
    requires size > 0
    ensures |b| == size && b[size - 1] == '\0'
  {
    Take(s, size - 1) + Nuls(size - 1 - Min(size - 1, |s|)) + ['\0']
  }

  /** Read back as a C string, the buffer holds the first `size - 1` bytes
      of `s`: the whole of a shorter string, a prefix of a longer one. */
  lemma StoredReadsBack(s: CString, size: nat)
    requires size > 0
    ensures CStringOf(Stored(s, size)) == Take(s, size - 1)
  {
    var t: CString := Take(s, size - 1);
    var pad := Nuls(size - 1 - Min(size - 1, |s|)) + ['\0'];
    assert Stored(s, size) == t + pad;
    CStringOfTerminated(t, pad);
  }

  // ---------------------------------------------------------------------
  // What each update leaves in the arrays

  /** The day titles after `parse_day_list(json)`: the first MaxMenuItems
      quoted strings in front, counted by `count`, every other slot as before. */
  predicate DaysAfter(before: seq<CString>, after: seq<CString>, count: nat, json: CString)
  {
    var d := StringsFrom(json, 0, MaxMenuItems);
    |after| == |before| && count == |d| && count <= |after| &&
    after[..count] == d && (forall i :: count <= i < |after| ==> after[i] == before[i])
  }

  /** The subtitles after `parse_weekday_list(json)` with `itemCount` days:
      the first `itemCount` quoted strings in front, every other slot as before. */
  predicate WeekdaysAfter(before: seq<Option<CString>>, after: seq<Option<CString>>, itemCount: nat, json: CString)
  {
    var w := StringsFrom(json, 0, itemCount);
    |after| == |before| && |w| <= |after| &&
    (forall i :: 0 <= i < |w| ==> after[i] == Some(w[i])) &&
    (forall i :: |w| <= i < |after| ==> after[i] == before[i])
  }

  /** The number of meals after an update: the length of the shortest list. */
  function MealCountOf(ids: string, names: string, prices: string): nat
  {
    Min(|IntsFrom(ids, 0, MaxMeals)|, Min(|StringsFrom(names, 0, MaxMeals)|, |StringsFrom(prices, 0, MaxMeals)|))
  }

  /** Every title the classifier will see is one it may be given. */
  predicate MealsClassifiable(ids: string, names: string, prices: string)
  {
    forall i :: 0 <= i < MealCountOf(ids, names, prices) ==> Classifiable(StringsFrom(names, 0, MaxMeals)[i])
  }

  /** The meal arrays after a meal-list update: the scanned ids and prices
      in front; the first `count` titles classified, with their icons; the
      other scanned titles as scanned; every other slot as before; no icon
      beyond the meals shown. */
  predicate MealsAfter(
    idsBefore: seq<int>, ids: seq<int>,
    titlesBefore: seq<CString>, titles: seq<CString>,
    pricesBefore: seq<CString>, prices: seq<CString>,
    icons: seq<Option<Icon>>, count: nat,
    idsText: CString, namesText: CString, pricesText: CString)
  {
    var scannedIds := IntsFrom(idsText, 0, MaxMeals);
    var scannedNames := StringsFrom(namesText, 0, MaxMeals);
    var scannedPrices := StringsFrom(pricesText, 0, MaxMeals);
    |idsBefore| == |ids| == MaxMeals && |titlesBefore| == |titles| == MaxMeals &&
    |pricesBefore| == |prices| == MaxMeals && |icons| == MaxMeals &&
    count == MealCountOf(idsText, namesText, pricesText) &&
    ids[..|scannedIds|] == scannedIds && (forall i :: |scannedIds| <= i < MaxMeals ==> ids[i] == idsBefore[i]) &&
    prices[..|scannedPrices|] == scannedPrices &&
    (forall i :: |scannedPrices| <= i < MaxMeals ==> prices[i] == pricesBefore[i]) &&
    (forall i :: 0 <= i < count ==> icons[i].Some? && Meal(titles[i], icons[i].value) == Classify(scannedNames[i])) &&
    (forall i :: count <= i < |scannedNames| ==> titles[i] == scannedNames[i]) &&
    (forall i :: |scannedNames| <= i < MaxMeals ==> titles[i] == titlesBefore[i]) &&
    (forall i :: count <= i < MaxMeals ==> icons[i] == None)
  }

  /** The weekday list fills as many subtitles as there are days or complete
      quoted strings, whichever is fewer. */
  lemma WeekdaySlots(json: CString, itemCount: nat)
    ensures |StringsFrom(json, 0, itemCount)| == Min(itemCount, |AllStrings(json)|)
  {
    StringsAll(json, itemCount);
  }

  /** The meal count is at most MaxMeals and is the length of one of the
      three scanned lists, none shorter. */
  lemma MealCountShortest(ids: string, names: string, prices: string)
    ensures MealCountOf(ids, names, prices) <= MaxMeals
    ensures var c, i, n, p := MealCountOf(ids, names, prices), |IntsFrom(ids, 0, MaxMeals)|,
                             |StringsFrom(names, 0, MaxMeals)|, |StringsFrom(prices, 0, MaxMeals)|;
      c <= i && c <= n && c <= p && (c == i || c == n || c == p)
  {
  }

  /** After an update every meal shown has exactly one icon and no slot
      beyond them has one. */
  lemma MealsAfterIcons(
    idsBefore: seq<int>, ids: seq<int>,
    titlesBefore: seq<CString>, titles: seq<CString>,
    pricesBefore: seq<CString>, prices: seq<CString>,
    icons: seq<Option<Icon>>, count: nat,
    idsText: CString, namesText: CString, pricesText: CString)
    requires MealsAfter(idsBefore, ids, titlesBefore, titles, pricesBefore, prices, icons, count, idsText, namesText, pricesText)
    ensures count <= MaxMeals
    ensures forall i :: 0 <= i < MaxMeals ==> (icons[i].Some? <==> i < count)
  {
    MealCountShortest(idsText, namesText, pricesText);
  }

  /** Where the day and weekday scans start: after leading whitespace and
      one `[` (OpenMensa.c:226-228 and 255-257). */
  function OpeningEnd(json: string): (p: nat)
    ensures p <= |json|
  {
    var t := RunEnd(json, 0, Spaces);
    if t < |json| && json[t] == '[' then t + 1 else t
  }

  /** The skip cannot pass a quote, so the scan after it finds the strings a
      scan from the start finds. */
  lemma StringsAfterOpening(json: string, max: nat)
    ensures StringsFrom(json, OpeningEnd(json), max) == StringsFrom(json, 0, max)
  {
    RunEndSpan(json, 0, Spaces);
    StringsSkip(json, 0, OpeningEnd(json), max);
  }

  /** The skip of the day and weekday parsers. */
  method SkipOpening(json: CString) returns (ptr: nat)
    ensures ptr == OpeningEnd(json)
  {
    ptr := SkipRun(json, 0, Spaces);
    if ptr < |json| && json[ptr] == '[' {
      ptr := ptr + 1;
    }
  }

  /** One field of the detail window: `strncpy` of one byte less than the
      buffer, then a terminator in its last byte. */
  method StoreField(buf: array<char>, s: CString)
    requires buf.Length > 0
    modifies buf
    ensures buf[..] == Stored(s, buf.Length)
  {
    StrNCpy(buf, s, buf.Length - 1);
    buf[buf.Length - 1] := '\0';
    assert buf[..] == buf[..buf.Length - 1] + [buf[buf.Length - 1]];
  }

  // ---------------------------------------------------------------------
  // The state

  class MenuState {
    /** s_menu_titles and s_menu_subtitles: one row per day. A subtitle is
        None while its pointer is NULL. */
    const menuTitles: array<CString>
    const menuSubtitles: array<Option<CString>>
    /** s_menu_item_count. */
    var menuItemCount: nat
    /** s_meal_ids, s_meal_titles, s_meal_subtitles (the prices) and
        s_meal_bitmaps (None for a NULL bitmap). */
    const mealIds: array<int>
    const mealTitles: array<CString>
    const mealSubtitles: array<CString>
    const mealIcons: array<Option<Icon>>
    /** s_meal_count. */
    var mealCount: nat
    /** s_meal_info_name, s_meal_info_price and s_meal_info_allergens. */
    const infoName: array<char>
    const infoPrice: array<char>
    const infoAllergens: array<char>
    /** What has been put on screen so far. */
    ghost var signals: seq<Signal>

    ghost predicate Valid()
      reads this`menuItemCount, this`mealCount, mealIcons
    {
      menuTitles.Length == MaxMenuItems && menuSubtitles.Length == MaxMenuItems &&
      menuItemCount <= MaxMenuItems &&
      mealIds.Length == MaxMeals && mealTitles.Length == MaxMeals &&
      mealSubtitles.Length == MaxMeals && mealIcons.Length == MaxMeals &&
      mealCount <= MaxMeals &&
      infoName.Length == NameSize && infoPrice.Length == PriceSize && infoAllergens.Length == AllergensSize &&
      menuTitles != mealTitles && menuTitles != mealSubtitles && mealTitles != mealSubtitles &&
      infoName != infoPrice && infoName != infoAllergens && infoPrice != infoAllergens &&
      (forall i :: mealCount <= i < MaxMeals ==> mealIcons[i] == None)
    }

    /** The globals as the program starts: no days, no meals, zero ids,
        empty titles and prices (NULL pointers in C), NULL subtitles and
        bitmaps, and detail buffers of NUL bytes. */
    constructor ()
      ensures Valid() && menuItemCount == 0 && mealCount == 0 && signals == []
      ensures forall i :: 0 <= i < MaxMenuItems ==> menuSubtitles[i] == None
      ensures forall i :: 0 <= i < MaxMeals ==> mealIcons[i] == None
      ensures forall i :: 0 <= i < MaxMenuItems ==> menuTitles[i] == ""
      ensures forall i :: 0 <= i < MaxMeals ==> mealIds[i] == 0 && mealTitles[i] == "" && mealSubtitles[i] == ""
      ensures infoName[..] == Nuls(NameSize) && infoPrice[..] == Nuls(PriceSize)
      ensures infoAllergens[..] == Nuls(AllergensSize)
    {
      menuTitles := new CString[MaxMenuItems](_ => "");
      menuSubtitles := new Option<CString>[MaxMenuItems](_ => None);
      menuItemCount := 0;
      mealIds := new int[MaxMeals](_ => 0);
      mealTitles := new CString[MaxMeals](_ => "");
      mealSubtitles := new CString[MaxMeals](_ => "");
      mealIcons := new Option<Icon>[MaxMeals](_ => None);
      mealCount := 0;
      infoName := new char[NameSize](_ => '\0');
      infoPrice := new char[PriceSize](_ => '\0');
      infoAllergens := new char[AllergensSize](_ => '\0');
      signals := [];
    }

    /** `show_meal_info_window_separated` (OpenMensa.c:444-469): copy each
        field into its buffer, cut to one byte less than the buffer and
        terminated, and show the detail window. */
    method ShowMealInfo(name: CString, price: CString, notes: CString)
      requires Valid()
      modifies infoName, infoPrice, infoAllergens, this`signals
      ensures Valid()
      ensures infoName[..] == Stored(name, NameSize)
      ensures infoPrice[..] == Stored(price, PriceSize)
      ensures infoAllergens[..] == Stored(notes, AllergensSize)
      ensures signals == old(signals) + [MealInfoShown]
    {
      StoreField(infoName, name);
      StoreField(infoPrice, price);
      StoreField(infoAllergens, notes);
      signals := signals + [MealInfoShown];
    }

    /** `parse_day_list` (OpenMensa.c:222-247): skip leading whitespace and
        one `[`, then scan quoted strings into the day titles. Its loop is
        the loop of `parse_string_array`, run from the skipped position. */
    method ParseDayList(json: CString)
      requires Valid()
      modifies menuTitles, this`menuItemCount
      ensures Valid()
      ensures DaysAfter(old(menuTitles[..]), menuTitles[..], menuItemCount, json)
    {
      menuItemCount := 0;
      var ptr := SkipOpening(json);
      var count := ParseStringArray(json[ptr..], menuTitles, MaxMenuItems);
      menuItemCount := count;
      StringsSuffix(json, ptr, MaxMenuItems);
      StringsAfterOpening(json, MaxMenuItems);
    }

    /** `parse_weekday_list` (OpenMensa.c:251-276): the same scan, into the
        subtitles, stopping at the current number of days. */
    method ParseWeekdayList(json: CString)
      requires menuItemCount <= menuSubtitles.Length
      modifies menuSubtitles
      ensures WeekdaysAfter(old(menuSubtitles[..]), menuSubtitles[..], menuItemCount, json)
    {
      var days := menuItemCount;
      var subtitles := menuSubtitles;
      var index := 0;
      var ptr := SkipOpening(json);
      StringsAfterOpening(json, days);
      ghost var before := subtitles[..];
      ghost var whole := StringsFrom(json, 0, days);
      while ptr < |json| && index < days
        invariant ptr <= |json| && index <= days <= subtitles.Length && index <= |whole|
        invariant forall i :: 0 <= i < index ==> subtitles[i] == Some(whole[i])
        invariant whole[index..] == StringsFrom(json, ptr, days - index)
        invariant forall i :: index <= i < subtitles.Length ==> subtitles[i] == before[i]
        decreases |json| - ptr
      {
        var start := FindFrom(json, ptr, '"');
        if start.None? {
          break;
        }
        var s := start.value + 1;
        var end := FindFrom(json, s, '"');
        if end.None? {
          break;
        }
        var e := end.value;
        StringsTurn(json, ptr, s, e, whole, index, days - index);
        var item := Slice(json, s, e);
        subtitles[index] := Some(item);
        index := index + 1;
        ptr := e + 1;
      }
      assert index == |whole|;
    }

    /** Drop the icon of every meal shown, as the clean-up loops before a
        meal-list update and in `meals_window_unload` do. */
    method DropIcons()
      requires Valid()
      modifies mealIcons
      ensures Valid()
      ensures forall i :: 0 <= i < MaxMeals ==> mealIcons[i] == None
    {
      var count := mealCount;
      var i := 0;
      while i < count
        invariant mealIcons.Length == MaxMeals && i <= count <= MaxMeals
        invariant forall j :: 0 <= j < i ==> mealIcons[j] == None
        invariant forall j :: count <= j < MaxMeals ==> mealIcons[j] == None
      {
        mealIcons[i] := None;
        i := i + 1;
      }
    }

    /** The classification loop (OpenMensa.c:531-571) over the first `count`
        titles, which hold the scanned names. */
    method ClassifyShown(count: nat, ghost names: seq<string>)
      requires count <= |names| <= MaxMeals == mealTitles.Length == mealIcons.Length
      requires forall j :: 0 <= j < |names| ==> mealTitles[j] == names[j]
      requires forall j :: 0 <= j < count ==> Classifiable(names[j])
      requires forall j :: 0 <= j < MaxMeals ==> mealIcons[j] == None
      modifies mealTitles, mealIcons
      ensures forall j :: 0 <= j < count ==> mealIcons[j].Some? && Meal(mealTitles[j], mealIcons[j].value) == Classify(names[j])
      ensures forall j :: count <= j < MaxMeals ==> mealTitles[j] == old(mealTitles[j]) && mealIcons[j] == None
    {
      var i := 0;
      while i < count
        invariant i <= count
        invariant forall j :: 0 <= j < i ==> mealIcons[j].Some? && Meal(mealTitles[j], mealIcons[j].value) == Classify(names[j])
        invariant forall j :: i <= j < MaxMeals ==> mealTitles[j] == old(mealTitles[j]) && mealIcons[j] == None
      {
        var title, icon := ClassifyMeal(mealTitles[i]);
        mealTitles[i] := title;
        mealIcons[i] := Some(icon);
        i := i + 1;
      }
    }

    /** The meal-list branch of the handler (OpenMensa.c:511-583): drop the
        previous meals' icons, scan the ids, names and prices, keep as many
        meals as the shortest list has, classify each of them, and show the
        meals window. */
    method UpdateMeals(ids: CString, names: CString, prices: CString)
      requires Valid()
      requires MealsClassifiable(ids, names, prices)
      modifies mealIds, mealTitles, mealSubtitles, mealIcons, this`mealCount, this`signals
      ensures Valid()
      ensures MealsAfter(old(mealIds[..]), mealIds[..], old(mealTitles[..]), mealTitles[..],
                         old(mealSubtitles[..]), mealSubtitles[..], mealIcons[..], mealCount, ids, names, prices)
      ensures signals == old(signals) + [MealsShown]
    {
      DropIcons();
      ScanMeals(ids, names, prices);
      ClassifyShown(mealCount, StringsFrom(names, 0, MaxMeals));
      signals := signals + [MealsShown];
    }

    /** The three scans of a meal-list update and the meal count, the
        length of the shortest list (OpenMensa.c:521-528). */
    method ScanMeals(ids: CString, names: CString, prices: CString)
      requires mealIds.Length == mealTitles.Length == mealSubtitles.Length == MaxMeals
      requires mealTitles != mealSubtitles
      modifies mealIds, mealTitles, mealSubtitles, this`mealCount
      ensures mealCount == MealCountOf(ids, names, prices)
      ensures var scanned := IntsFrom(ids, 0, MaxMeals);
        mealIds[..|scanned|] == scanned && forall i :: |scanned| <= i < MaxMeals ==> mealIds[i] == old(mealIds[i])
      ensures var scanned := StringsFrom(names, 0, MaxMeals);
        mealTitles[..|scanned|] == scanned && forall i :: |scanned| <= i < MaxMeals ==> mealTitles[i] == old(mealTitles[i])
      ensures var scanned := StringsFrom(prices, 0, MaxMeals);
        mealSubtitles[..|scanned|] == scanned && forall i :: |scanned| <= i < MaxMeals ==> mealSubtitles[i] == old(mealSubtitles[i])
    {
      var countIds := ParseIntArray(ids, mealIds, MaxMeals);
      var countNames := ParseStringArray(names, mealTitles, MaxMeals);
      var countPrices := ParseStringArray(prices, mealSubtitles, MaxMeals);
      mealCount := countIds;
      if countNames < mealCount {
        mealCount := countNames;
      }
      if countPrices < mealCount {
        mealCount := countPrices;
      }
    }

    /** `meals_window_unload` (OpenMensa.c:198-210): drop every meal's icon
        and forget the meals. */
    method UnloadMeals()
      requires Valid()
      modifies mealIcons, this`mealCount
      ensures Valid() && mealCount == 0
      ensures forall i :: 0 <= i < MaxMeals ==> mealIcons[i] == None
    {
      DropIcons();
      mealCount := 0;
    }

    /** `inbox_received_callback` (OpenMensa.c:471-586): an error shows the
        error window and nothing else; otherwise the message is applied and
        the day menu is reloaded. */
    method Receive(m: Message)
      requires Valid()
      requires m.error.None? && HasMeals(m) ==>
        MealsClassifiable(m.mealsIds.value, m.mealsNames.value, m.mealsPrices.value)
      modifies this, menuTitles, menuSubtitles, mealIds, mealTitles, mealSubtitles, mealIcons,
        infoName, infoPrice, infoAllergens
      ensures Valid()
      ensures signals == old(signals) + SignalsFor(m)
      ensures m.error.Some? ==>
        menuItemCount == old(menuItemCount) && mealCount == old(mealCount) &&
        unchanged(menuTitles, menuSubtitles, mealIds, mealTitles, mealSubtitles, mealIcons) &&
        unchanged(infoName, infoPrice, infoAllergens)
      ensures m.error.None? ==> Applied(m)
    {
      if m.error.Some? {
        signals := signals + [ErrorShown(m.error.value)];
        return;
      }
      ApplyMessage(m);
      signals := signals + [DayMenuReloaded];
    }

    /** The state after a message without an error: the detail (all three
        fields), the day list, the weekday list and the meal list (all three
        fields) are each applied when present, and each part of the state
        stays as it was when its fields are absent. */
    twostate predicate Applied(m: Message)
      reads this, menuTitles, menuSubtitles, mealIds, mealTitles, mealSubtitles, mealIcons,
        infoName, infoPrice, infoAllergens
    {
      (if HasDetail(m) then
         infoName[..] == Stored(m.mealName.value, NameSize) &&
         infoPrice[..] == Stored(m.mealPrice.value, PriceSize) &&
         infoAllergens[..] == Stored(m.mealNotes.value, AllergensSize)
       else unchanged(infoName, infoPrice, infoAllergens)) &&
      (if m.dayList.Some? then DaysAfter(old(menuTitles[..]), menuTitles[..], menuItemCount, m.dayList.value)
       else menuItemCount == old(menuItemCount) && unchanged(menuTitles)) &&
      (if m.weekdayList.Some? then WeekdaysAfter(old(menuSubtitles[..]), menuSubtitles[..], menuItemCount, m.weekdayList.value)
       else unchanged(menuSubtitles)) &&
      (if HasMeals(m) then
         MealsAfter(old(mealIds[..]), mealIds[..], old(mealTitles[..]), mealTitles[..],
                    old(mealSubtitles[..]), mealSubtitles[..], mealIcons[..], mealCount,
                    m.mealsIds.value, m.mealsNames.value, m.mealsPrices.value)
       else mealCount == old(mealCount) && unchanged(mealIds, mealTitles, mealSubtitles, mealIcons))
    }

    /** The handler's branches for a message without an error, in the order
        of the C code. */
    method ApplyMessage(m: Message)
      requires Valid() && m.error.None?
      requires HasMeals(m) ==> MealsClassifiable(m.mealsIds.value, m.mealsNames.value, m.mealsPrices.value)
      modifies this, menuTitles, menuSubtitles, mealIds, mealTitles, mealSubtitles, mealIcons,
        infoName, infoPrice, infoAllergens
      ensures Valid()
      ensures signals == old(signals) + (if HasDetail(m) then [MealInfoShown] else []) +
        (if HasMeals(m) then [MealsShown] else [])
      ensures Applied(m)
    {
      if HasDetail(m) {
        ShowMealInfo(m.mealName.value, m.mealPrice.value, m.mealNotes.value);
      }
      if m.dayList.Some? {
        ParseDayList(m.dayList.value);
      }
      if m.weekdayList.Some? {
        ParseWeekdayList(m.weekdayList.value);
      }
      if HasMeals(m) {
        UpdateMeals(m.mealsIds.value, m.mealsNames.value, m.mealsPrices.value);
      }
    }
  }
}
