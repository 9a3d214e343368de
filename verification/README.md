# OpenMensa for Pebble — a verified model of its parsing and classification core

OpenMensa shows a university canteen's menu on a Pebble watch. The phone
companion (`src/pkjs/index.js`) fetches the canteen's days and meals from the
OpenMensa API. It turns them into menu items: a date title per day, and per
meal a stripped title, an icon and a price. The watch app (`src/c/OpenMensa.c`)
receives its data as flat JSON-like payloads in an app message. It scans them
with hand-written scanners into fixed-size global arrays. It classifies each
meal as vegan, vegetarian or "pot" by a diet marker at the start of the title
or by a word anywhere in it.

This project models that core in Dafny:

- `common.dfy`: `Option` and the three icons.
- `ascii.dfy`: `isspace`, `isdigit`, `tolower` and case-insensitive matching.
- `cstrings.dfy`: the watch's own `strncasecmp` and `strcasestr`, `strchr`
  (`FindFrom`) and `strncpy`.
- `spans.dfy`: the scanners' skip loops (`while (*ptr && …) ptr++`).
- `int_scan.dfy`: `atoi` and `parse_int_array`, with a specification function
  `IntsFrom` and the method proved against it over an `array<int>`.
- `string_scan.dfy`: `parse_string_array`, with `StringsFrom` and the method
  proved against it over an array of strings.
- `classifier.dfy`: the title classification block of the message handler.
  It has a rule-by-rule specification `Classify`, the C tests run as
  methods, and lemmas characterising the icon and the title.
- `watch.dfy`: the watch's globals as a class `MenuState`, with arrays sized
  by `MAX_MENU_ITEMS` (10), `MAX_MEALS` (20) and the detail buffers (128, 64,
  256 bytes). Its methods are `parse_day_list`, `parse_weekday_list`,
  `show_meal_info_window_separated`, `meals_window_unload` and
  `inbox_received_callback`. A ghost log of signals records what is put on
  screen.
- `companion.dfy`: the phone's `parseDays`, the date rebuilt when a day is
  picked, `parseMeals` (icon precedence and prefix stripping), `parseMealInfo`
  and `showMealCard`, on JavaScript strings restricted to ASCII.

Where the two halves disagree, each is modelled as its code is written:

- The watch gives the first matching rule. A name mentioning both `vegan` and
  `vegetarian` is vegan there.
- On the phone `vegetarian`/`vegetarisch` overrides `vegan`
  (`Companion.IconPrecedenceDiffers`).
- The watch compares `vegetarisch:` over 13 bytes and `vegetarisch` over 12.
  Both lengths include the terminator, so a title such as
  `Vegetarisch: Lasagne` is never stripped. It is still shown as vegetarian
  through the substring rule (`Classifier.VegetarischExample`).

## Model

| member | source | states |
|---|---|---|
| Ascii.Lower | src/c/OpenMensa.c:49 | `tolower`: A-Z move to a-z, every other character is kept, and no result is upper case |
| CStrings.CaseCmp | src/c/OpenMensa.c:47-54 | the value `strncasecmp` returns: 0 after `n` equal folded bytes or at a shared terminator, else the difference of the first folded bytes that differ |
| CStrings.CaseCmpZero | src/c/OpenMensa.c:47-54 | `strncasecmp` returns 0 exactly when the first `n` bytes of both strings agree ignoring case; a terminator stops the comparison |
| CStrings.CaseCmpPrefix | src/c/OpenMensa.c:534 | comparing `|w|` bytes is a case-insensitive prefix test |
| CStrings.CaseCmpWhole | src/c/OpenMensa.c:554 | comparing `|w|+1` bytes also compares the terminator: whole-string equality ignoring case |
| CStrings.StrNCaseCmp | src/c/OpenMensa.c:47-54 | the loop returns the specified difference, which is zero iff the `n`-byte prefixes agree ignoring case |
| CStrings.StrCaseStr | src/c/OpenMensa.c:58-73 | the result is present iff the needle occurs ignoring case; it is an occurrence, and no earlier offset is one; an empty needle is found at 0 |
| CStrings.FindFrom | src/c/OpenMensa.c:283 | `strchr`: a found index is at or after the start and holds the byte |
| CStrings.FindFromSkipped | src/c/OpenMensa.c:283-287 | no occurrence lies before the found index; NULL means none up to the end |
| CStrings.FindShift | src/c/OpenMensa.c:286 | `strchr` from inside a suffix finds the same byte, shifted |
| CStrings.CStringOfTerminated | src/c/OpenMensa.c:447 | a buffer holding the bytes and then a NUL reads back as that string |
| CStrings.StrNCpy | src/c/OpenMensa.c:446 | `strncpy`: the first `n` bytes of the source, padded with NULs to `n`; the rest of the buffer is unchanged |
| Spans.RunEnd | src/c/OpenMensa.c:307-309 | the end of a run of one byte class lies between the start and the end of the text |
| Spans.RunEndSpan | src/c/OpenMensa.c:315-317 | every byte of the run is in the class and the byte ending it is not |
| Spans.RunEndIs | src/c/OpenMensa.c:307-309 | any index with that characterisation is the run's end |
| Spans.SkipRun | src/c/OpenMensa.c:227 | the skip loop stops at the end of the run |
| IntScan.Atoi | src/c/OpenMensa.c:311 | `atoi(ptr)`: skip white space, an optional sign, then the digits up to the first non-digit |
| IntScan.AtoiDecimal | src/c/OpenMensa.c:311 | `atoi` reads back any integer written in decimal, whatever non-digit follows |
| IntScan.IntsFrom | src/c/OpenMensa.c:302-320 | the scan of `parse_int_array` returns at most `max` numbers |
| IntScan.NumberAt | src/c/OpenMensa.c:311-317 | one stored number: `atoi` at the first digit or minus sign, then the scan after its run with one slot fewer |
| IntScan.IntsSkip | src/c/OpenMensa.c:307-309 | bytes that are neither digits nor minus signs are skipped without effect |
| IntScan.DecimalFirst | src/c/OpenMensa.c:311-317 | a number at the front is read by `atoi` and its whole run skipped before the rest is scanned |
| IntScan.IntsStep | src/c/OpenMensa.c:305-317 | one turn: separators, a number, then the scan of the rest with one slot fewer |
| IntScan.IntsNone | src/c/OpenMensa.c:310 | text without digits or minus signs yields no number |
| IntScan.IntsJoinedScan | src/c/OpenMensa.c:302-320 | comma-joined numbers between separator text are read back, cut at `max` |
| IntScan.IntsRenderedScan | src/c/OpenMensa.c:302-320 | round trip: scanning a bracketed id array gives back its numbers, cut at `max` |
| IntScan.IntsFromAt | src/c/OpenMensa.c:307-317 | at the first digit or minus sign the scan takes `atoi` there and resumes after the run |
| IntScan.IntsBound | src/c/OpenMensa.c:305 | a smaller bound only cuts the list a larger bound gives |
| IntScan.ParseIntArray | src/c/OpenMensa.c:302-320 | the count is at most `max_count`; the stored prefix is exactly the scanned numbers; later slots are untouched |
| IntScan.EmptySlot | src/c/OpenMensa.c:305-317 | two numbers with an empty slot between their commas are read back as exactly those two |
| IntScan.EmptySlotExample | src/c/OpenMensa.c:307-310 | `[1,,3]` yields 1 and 3: an empty slot stores nothing |
| IntScan.LoneMinusExample | src/c/OpenMensa.c:311 | a minus sign alone is stored as 0 |
| IntScan.MinusInsideExample | src/c/OpenMensa.c:315-317 | `1-2` is one run, stored as 1 |
| StringScan.StringsFrom | src/c/OpenMensa.c:279-298 | the scan of `parse_string_array` returns at most `max` strings |
| StringScan.QuotedFrom | src/c/OpenMensa.c:286-295 | after an opening quote: the text up to the next quote is stored and the scan resumes after it; without a closing quote nothing more is stored |
| StringScan.StringsSkip | src/c/OpenMensa.c:283 | text without quotes in front of the scan is skipped without effect |
| StringScan.StringsStep | src/c/OpenMensa.c:283-295 | a quoted string is taken whole, then the scan resumes after its closing quote |
| StringScan.StringsNone | src/c/OpenMensa.c:284-287 | text with at most one quote yields nothing: an unclosed string is dropped |
| StringScan.StringsJoined | src/c/OpenMensa.c:279-298 | quote-free strings written quoted and comma-joined are read back, cut at `max` |
| StringScan.StringsRendered | src/c/OpenMensa.c:279-298 | round trip: scanning a rendered string array gives back its strings, cut at `max` |
| StringScan.StringsTruncated | src/c/OpenMensa.c:286-287 | an array cut inside its last string yields every complete string before it |
| StringScan.StringsQuoteFree | src/c/OpenMensa.c:286 | no stored string contains a quote |
| StringScan.StringsSuffix | src/c/OpenMensa.c:281 | scanning from a pointer into the text is scanning the suffix there |
| StringScan.StringsBound | src/c/OpenMensa.c:282 | a smaller bound only cuts the list a larger bound gives |
| StringScan.StringsLength | src/c/OpenMensa.c:283-295 | each stored string uses up at least its two quotes |
| StringScan.StringsAll | src/c/OpenMensa.c:282 | a bounded scan is the first `max` of all complete quoted strings |
| StringScan.ParseStringArray | src/c/OpenMensa.c:279-298 | the count is at most `max_count`; the stored prefix is exactly the scanned strings; later slots are untouched |
| StringScan.UnclosedExample | src/c/OpenMensa.c:282-287 | `["A","B"` without its closing bracket yields A and B |
| Classifier.Unmarked | src/c/OpenMensa.c:541-542 | the stripped title is shorter than the name minus the marker |
| Classifier.MarkedBy | src/c/OpenMensa.c:534 | a title starts with the marker in any case and then a space or a colon |
| Classifier.Classify | src/c/OpenMensa.c:531-571 | the rule chain, first match wins: `vegan` marker, `vegetarian` marker, `vegan` anywhere, `vegetarian`/`vegetarisch` anywhere, else the pot |
| Classifier.MarkerTest | src/c/OpenMensa.c:534 | the C test for one marker: `strncasecmp` over `n1` bytes with the colon form, or over `n2` bytes with the bare form and a space or colon at index `n2` |
| Classifier.Classifiable | src/c/OpenMensa.c:554 | the titles the model classifies: all but `vegetarisch` and `vegetarisch:` in any case, whose classification reads past the terminator |
| Classifier.LowerColon | src/c/OpenMensa.c:534 | folding gives a colon only for a colon |
| Classifier.MarkerTestMarked | src/c/OpenMensa.c:534 | with lengths `|m|+1` and `|m|`, the C test for a marker holds iff the name starts with the marker followed by a space or colon |
| Classifier.VegetarischTestWhole | src/c/OpenMensa.c:554 | the `vegetarisch` test can hold only for the exact titles `vegetarisch` and `vegetarisch:` |
| Classifier.TestMarker | src/c/OpenMensa.c:534 | running the two `strncasecmp` calls and the index test computes the C test |
| Classifier.StripMarker | src/c/OpenMensa.c:535-542 | stepping past the marker and its spaces and colons, then moving the rest down, leaves the specified title |
| Classifier.TestMarkedBy | src/c/OpenMensa.c:544 | the C test for `vegan`/`vegetarian` holds iff the name is marked |
| Classifier.ClassifyMeal | src/c/OpenMensa.c:531-571 | the classification block leaves the title and icon the first matching rule gives |
| Classifier.MarkersExclusive | src/c/OpenMensa.c:534-553 | no title carries both the `vegan` and the `vegetarian` marker |
| Classifier.ClassifyIcon | src/c/OpenMensa.c:564-569 | vegan iff `vegan` occurs and no `vegetarian` marker leads; pot iff none of the three words occurs |
| Classifier.ClassifyTitle | src/c/OpenMensa.c:535-553 | the title is the name, or the name without a marker and at least one separator, with the matching icon; a stripped title starts with neither a space nor a colon |
| Classifier.ClassifyKeepsUnmarked | src/c/OpenMensa.c:564-570 | a name without a leading marker keeps its title |
| Classifier.VeganColonExample | src/c/OpenMensa.c:534-543 | `Vegan: Curry` becomes `Curry`, vegan |
| Classifier.VeganSpaceExample | src/c/OpenMensa.c:534-543 | `vegan  Bowl` becomes `Bowl`, vegan |
| Classifier.VeganWordExample | src/c/OpenMensa.c:564-565 | `Veganes Chili` is not stripped but is vegan |
| Classifier.VegetarischExample | src/c/OpenMensa.c:554-567 | `Vegetarisch: Lasagne` is not stripped and is vegetarian |
| Classifier.PotExample | src/c/OpenMensa.c:568-569 | `Schnitzel` gets the pot |
| Watch.SignalsForShape | src/c/OpenMensa.c:471-586 | an error is shown alone; otherwise the day menu is reloaded last; the detail window appears iff all detail fields are present, the meals window iff all meal fields are |
| Watch.SignalsFor | src/c/OpenMensa.c:471-586 | what a message puts on screen: the error window alone, or the detail window, the meals window and the day menu reload, each when its fields are present |
| Watch.DaysAfter | src/c/OpenMensa.c:222-247 | the day titles after a day list: the first 10 scanned strings in front, counted, every other slot as before |
| Watch.WeekdaysAfter | src/c/OpenMensa.c:251-276 | the subtitles after a weekday list: the first item-count scanned strings in front, every other slot as before |
| Watch.MealCountOf | src/c/OpenMensa.c:525-528 | the meal count: the least of the three scan lengths |
| Watch.MealsAfter | src/c/OpenMensa.c:511-571 | the meal arrays after a meal list: scanned ids and prices in front, the first count titles classified with their icons, the other scanned titles as scanned, other slots as before, no icon past the count |
| Watch.MenuState.Applied | src/c/OpenMensa.c:488-583 | the state after a message without an error: each of the detail, day, weekday and meal parts applied when all its fields are present and unchanged otherwise |
| Watch.Stored | src/c/OpenMensa.c:446-453 | a detail buffer has its size and ends in a NUL |
| Watch.StoredReadsBack | src/c/OpenMensa.c:446-453 | a detail buffer reads back as the field cut to one byte less than the buffer |
| Watch.WeekdaySlots | src/c/OpenMensa.c:259 | the weekday list fills as many subtitles as there are days or complete strings, whichever is fewer |
| Watch.MealCountShortest | src/c/OpenMensa.c:525-528 | the meal count is at most MAX_MEALS and is the length of the shortest scanned list |
| Watch.MealsAfterIcons | src/c/OpenMensa.c:513-571 | after an update exactly the meals shown have an icon |
| Watch.OpeningEnd | src/c/OpenMensa.c:226-228 | the opening skip stays inside the text |
| Watch.StringsAfterOpening | src/c/OpenMensa.c:226-234 | skipping white space and `[` does not change the strings found |
| Watch.SkipOpening | src/c/OpenMensa.c:227-228 | the skip loop and bracket test stop where specified |
| Watch.StoreField | src/c/OpenMensa.c:446-447 | `strncpy` of size-1 bytes then a terminator leaves the specified buffer |
| Watch.MenuState.constructor | src/c/OpenMensa.c:16-39 | the globals start with no days and no meals, zero ids, empty titles and prices, NULL subtitles and icons, and detail buffers of NULs |
| Watch.MenuState.ShowMealInfo | src/c/OpenMensa.c:444-469 | each buffer holds its field cut and terminated; the detail window is shown |
| Watch.MenuState.ParseDayList | src/c/OpenMensa.c:222-247 | the first 10 quoted strings become the day titles, counted by the item count; other slots keep their contents |
| Watch.MenuState.ParseWeekdayList | src/c/OpenMensa.c:251-276 | the first item-count quoted strings become the subtitles; other slots keep their contents |
| Watch.MenuState.DropIcons | src/c/OpenMensa.c:513-520 | no meal keeps an icon |
| Watch.MenuState.ClassifyShown | src/c/OpenMensa.c:531-571 | every meal shown gets the title and icon `Classify` gives for its scanned name; other slots are untouched |
| Watch.MenuState.ScanMeals | src/c/OpenMensa.c:521-528 | the three arrays hold their scans in front, the rest untouched; the meal count is the shortest scan |
| Watch.MenuState.UpdateMeals | src/c/OpenMensa.c:511-583 | the meal arrays are as `MealsAfter` describes and the meals window is shown |
| Watch.MenuState.UnloadMeals | src/c/OpenMensa.c:198-210 | no meal remains and no icon is kept |
| Watch.MenuState.ApplyMessage | src/c/OpenMensa.c:488-583 | each present part of a message is applied and each absent part leaves its state unchanged |
| Watch.MenuState.Receive | src/c/OpenMensa.c:471-586 | an error changes nothing but the log; otherwise the message is applied; the signals are `SignalsFor(m)` |
| Companion.Substring | src/pkjs/index.js:36-38 | `substring` takes the slice between its arguments in either order, never longer than the string |
| Companion.SubstringFrom | src/pkjs/index.js:99 | `substring(a)` is the suffix from `a`, empty past the end |
| Companion.ToLower | src/pkjs/index.js:89 | `toLowerCase` keeps the length and folds every character |
| Companion.TrimStart | src/pkjs/index.js:99 | what is removed is white space and what is left starts with none |
| Companion.TrimEnd | src/pkjs/index.js:99 | what is removed is white space and what is left ends with none |
| Companion.Trim | src/pkjs/index.js:99 | `trim`: the leading, then the trailing white space removed |
| Companion.TrimBounds | src/pkjs/index.js:99 | `trim` keeps the bytes between white space at both ends, and its result is trimmed |
| Companion.TrimTrimmed | src/pkjs/index.js:99 | trimmed text is kept as it is |
| Companion.TrimIdempotent | src/pkjs/index.js:99 | `trim` is idempotent |
| Companion.IncludesLower | src/pkjs/index.js:89 | `toLowerCase().includes(w)` for a lower-case `w` is the watch's case-insensitive containment |
| Companion.StartsWithLower | src/pkjs/index.js:98 | `toLowerCase().startsWith(p)` for a lower-case `p` is a case-insensitive prefix test |
| Companion.DayTitleShape | src/pkjs/index.js:69-72 | the title of a date is ten characters `DD.MM.YYYY` |
| Companion.DayTitle | src/pkjs/index.js:69-72 | the title of a date: characters 8-10, a dot, 5-7, a dot, 0-4 |
| Companion.SelectedDate | src/pkjs/index.js:36-39 | the date asked for on select: characters 6-10, a dash, 3-5, a dash, 0-2 of the title |
| Companion.DateRoundTrip | src/pkjs/index.js:36-39 | picking a day asks for the first ten characters of its date iff that date has dashes at 4 and 7 |
| Companion.DateExample | src/pkjs/index.js:69-72 | `2025-01-31` is shown as `31.01.2025` and asked for again as `2025-01-31` |
| Companion.ParseDays | src/pkjs/index.js:65-79 | one item per day, in order, titled with its date; each well-formed date is asked for again when picked |
| Companion.JoinMentions | src/pkjs/index.js:86 | a word in one note is in the notes joined with `, ` |
| Companion.Join | src/pkjs/index.js:86 | `join(', ')`: the entries separated by a comma and a space |
| Companion.NotesText | src/pkjs/index.js:86 | the notes as read by the icon rule: a string as it is, an array joined |
| Companion.IconOf | src/pkjs/index.js:87-95 | the phone's icon: vegetarian when `vegetarisch` or `vegetarian` occurs in name or notes, else vegan when `vegan` does, else the pot |
| Companion.PickIcon | src/pkjs/index.js:87-95 | the assignments give vegetarian over vegan over the pot, by words in the name or notes |
| Companion.StripLowerCI | src/pkjs/index.js:98-100 | one check cuts exactly a case-insensitive marker prefix and trims the rest |
| Companion.StripLower | src/pkjs/index.js:98-100 | one check: when the lower-cased name starts with the marker, the rest after it, trimmed; otherwise the name |
| Companion.MealTitle | src/pkjs/index.js:97-106 | the list title: the `vegan:`, `vegetarian:` and `vegetarisch:` checks in that order, each on what the previous left |
| Companion.CutStrips | src/pkjs/index.js:99 | a cut and a trim leave trimmed text lying inside the name |
| Companion.StrippedTrans | src/pkjs/index.js:97-106 | the checks in sequence still leave text inside the original name |
| Companion.MealTitleStrips | src/pkjs/index.js:97-106 | the list title is the name or trimmed text inside it |
| Companion.MealTitleUnmarked | src/pkjs/index.js:97-106 | a name without a colon marker keeps its title |
| Companion.StripAfter | src/pkjs/index.js:98-99 | a marker, a space and trimmed text leave that text |
| Companion.StackedMarkers | src/pkjs/index.js:97-106 | `vegan:` then `vegetarian:` in front are both removed, because the checks run in sequence |
| Companion.SpaceMarkerExample | src/pkjs/index.js:98 | `Vegan Curry` keeps its title: only the colon form is stripped on the phone |
| Companion.StripMarkers | src/pkjs/index.js:97-106 | the three checks on the name variable give `MealTitle` |
| Companion.MealItemOf | src/pkjs/index.js:108-112 | the item of one meal: its list title, its icon from name and notes, its student price with a euro sign |
| Companion.ParseMeals | src/pkjs/index.js:81-115 | one item per meal, in order, with the stripped title, the icon of name and notes, and the student price with a euro sign |
| Companion.ParseMealInfo | src/pkjs/index.js:117-129 | one record per meal, in order, with the name unchanged, the student price and the notes |
| Companion.NoteEntryIcon | src/pkjs/index.js:86-90 | a `vegan` in any one note entry keeps the meal off the pot |
| Companion.IconPrecedenceDiffers | src/pkjs/index.js:89-95 | a name with both words and no leading `vegetarian` marker is vegan on the watch and vegetarian on the phone |
| Companion.StripExact | src/pkjs/index.js:176-178 | one card check: when the title starts with the exact upper-case marker, the rest after it, trimmed; otherwise the title |
| Companion.CardTitle | src/pkjs/index.js:175-184 | the card title: the `VEGAN:`, `VEGETARIAN:` and `VEGETARISCH:` checks in that order |
| Companion.CardTitleStrips | src/pkjs/index.js:175-184 | the card title is the name or trimmed text inside it |
| Companion.CardTitleUnmarked | src/pkjs/index.js:175-184 | a name without an exact upper-case marker keeps its card title |
| Companion.CardExample | src/pkjs/index.js:176-178 | `VEGAN: Curry` becomes `Curry`; `Vegan: Curry` is kept, because the card check is case-sensitive |
| Companion.ShowMealCard | src/pkjs/index.js:172-193 | the card shows the stripped title, the price with a euro sign and the notes |

## Left out

- Memory management is not modelled. `malloc` failure is not modelled: the C code then skips a string without advancing its count. `free`, `gbitmap_create_with_resource` and `gbitmap_destroy` are not modelled either. A bitmap is its icon value, and a freed slot keeps its old value in the model.
- Dangling pointers are modelled as values. `inbox_received_callback` frees the weekday subtitles using the item count the new day list has just set, and it frees day titles that are not rewritten afterwards. The model keeps the old strings in those slots instead of dangling pointers.
- Slots that are still NULL in C start as empty strings for day titles, meal titles and meal prices. Only day subtitles and meal bitmaps are `None`.
- `memmove` of the rest of the title is modelled as the title becoming that suffix.
- IntScan.Atoi: reads C `int` without overflow. Dafny integers are unbounded, and the undefined behaviour of `atoi` on values outside 32 bits is not modelled.
- Watch.MenuState.Receive: requires that no meal shown is titled exactly `vegetarisch` or `vegetarisch:` (in any case). For these titles the C code reads past the terminator, which is undefined behaviour (`Classifier.VegetarischTestWhole`).
- Watch.MenuState.ApplyMessage: carries the same requirement as `Receive`.
- Watch.MenuState.UpdateMeals: carries the same requirement as `Receive`.
- Watch.MenuState.ClassifyShown: carries the same requirement as `Receive`.
- Classifier.ClassifyMeal: carries the same requirement as `Receive`.
- Windows, layers, menus, scroll layers and the Pebble drawing callbacks are not modelled. Only their effect is recorded, as a ghost log of signals. This covers window creation and its failure, the meals window pushed twice, the reload of the meals menu layer, and the contents of the error window.
- The phone's XMLHttpRequest calls, the app-message transport, the request URLs and the error cards are left out. The API's JSON arrives already parsed, as `Day` and `ApiMeal` values.
- Companion.ToLower: ASCII only. JavaScript's `toLowerCase` and `trim` follow Unicode, but the model folds A-Z and trims ASCII white space.
- Companion.ParseMeals: the student price is taken as text. JavaScript's number-to-string conversion of `prices.students` is not modelled.
- Companion.ParseMeals: the model requires notes to be a string or an array of strings. Notes that are `null` or missing make the JavaScript throw as soon as the icon rule lowers them. It lowers them unless the name mentions `vegan` and also `vegetarian` or `vegetarisch`; when it does, the throw never comes.
- The watch's strings are sequences of non-NUL bytes, 1 to 255 (`CString`), with no encoding beyond one character per byte.
