# Ramadan Insight: a verified model of the state engine

Ramadan Insight is a web app for the fasting month. It shows a countdown to
sahari (the pre-dawn meal, at Fajr) or to iftar (the fast-breaking meal, at
Maghrib), keeps a log of fasted days and a fasting streak, counts dhikr
(repeated phrases) on a tasbih counter, and unlocks badges. This project
models, in Dafny, the logic behind those screens:

- `AppContext.dfy`: the persisted application state (`AppState`) and its
  transitions `setLocation`, `setLanguage`, `toggleFastingDay`,
  `addTasbihEntry` and `earnBadge`. Each transition is a pure updater
  function, and the class `AppStore` holds the state cell with one method
  per transition. It also models `isFastingDay` and the streak algorithm
  `getFastingStreak`, a method with the source's backward loop. For a log
  without repeated days (every log the toggles build from the default
  state), the streak is proved to be the length of the run of consecutive
  days ending at the latest logged day.
- `Tasbih.dfy`: the counter session of the tasbih page. The fields are
  `selectedDhikr`, `count` and `goalReached`. The handlers are tap, reset
  and switch-dhikr. Each handler is a pure transition function returning
  the next session and the entry it commits to the store. On top of those
  functions, a class `TasbihSession` updates its fields and calls the
  store.
- `Home.dfy`: the countdown case split, the clamped fast progress (reals,
  with JavaScript's `NaN` as `None`), the "fasting today" flag and the
  badge filter.
- `PrayerUtils.dfy`: the five-entry prayer list, the sahari and iftar index
  selection, `getNextPrayer` (a method with the source's loop) and
  `getTimeDiff`.
- `RamadanData.dfy`: the Ramadan 2026 calendar arithmetic over day numbers,
  and the dhikr preset and badge catalogs.
- `LocationModal.dfy`: the case-insensitive location search and the
  selection handler.
- `Seqs.dfy`: `Array.prototype.filter` and the sequence facts the other
  modules use. `Wrappers.dfy` holds the `Option` type.

Modelling choices:

- Dates are day numbers: days since 1970-01-01.
  - The source's `YYYY-MM-DD` keys sort as strings in chronological order,
    so sorting the keys is sorting the numbers.
  - A one-day difference between keys is a difference of 1.
- Instants are integer milliseconds.
- The prayer-time calculator is a function parameter `provider` from a
  location and a day to five instants.
  - The model never assumes that the five instants are in order, except in
    the one lemma that says so (`Home.CountdownAtBoundaries`).
- "Today" is a parameter wherever the source reads the clock.
- The source's `toLowerCase` is a parameter `lower` of type
  `string -> string`.

No transition validates its input. `setLocation` takes any location and
`addTasbihEntry` takes any count (client/src/lib/app-context.tsx:64-88), so
no operation of the model rejects anything.

The fasting log is an array. `toggleFastingDay` removes every copy of a
logged day and appends a day that is absent. The model keeps the sequence
and proves that toggling never introduces a duplicate.

The switch-dhikr handler commits the running count even after the goal-time
commit already recorded it. The model keeps this double commit as written
(`Tasbih.DoubleCommitOnSwitch`).

## Model

| member | source | states |
|---|---|---|
| Seqs.Filter | client/src/components/location-modal.tsx:16-18 | the result is no longer than the input, every kept element is an input element satisfying the predicate, and every satisfying input element is kept |
| Seqs.FilterIsSubsequence | client/src/components/location-modal.tsx:16-18 | a filter result is an order-preserving subsequence of its input |
| Seqs.FilterMembership | client/src/pages/home.tsx:62-66 | an element is in a filter result exactly when it is in the input and satisfies the predicate |
| Seqs.FilterMonotone | client/src/pages/home.tsx:62-66 | filtering with a stronger predicate gives a subsequence of filtering with a weaker one |
| Seqs.FilterSubset | client/src/pages/home.tsx:62-66 | filtering with a stronger predicate keeps no element that the weaker one drops |
| Seqs.FilterAll | client/src/components/location-modal.tsx:16-18 | a predicate true on every element leaves the sequence unchanged |
| Seqs.FilterNoDuplicates | client/src/lib/app-context.tsx:76 | filtering a duplicate-free sequence gives a duplicate-free sequence |
| Seqs.FilterAppend | client/src/lib/app-context.tsx:76 | filtering distributes over concatenation |
| RamadanData.RamadanDay | client/src/lib/ramadan-data.ts:5-13 | definition: the number of days from the start date to the given day, plus one |
| RamadanData.IsRamadan | client/src/lib/ramadan-data.ts:15-18 | definition: the Ramadan day number lies in 1..30 |
| RamadanData.RamadanDate | client/src/lib/ramadan-data.ts:20-24 | definition: the start date moved forward by the day number minus one |
| RamadanData.RamadanConstants | client/src/lib/ramadan-data.ts:1-3 | 18 February 2026 is Ramadan day 1 and 19 March 2026 is day 30; the days just outside that window are not Ramadan; the calendar arithmetic puts 1 January 1970 at day 0 |
| RamadanData.RamadanDayStep | client/src/lib/ramadan-data.ts:5-13 | the Ramadan day number rises by exactly one per calendar day |
| RamadanData.IsRamadanWindow | client/src/lib/ramadan-data.ts:15-18 | a day is in Ramadan exactly when it lies between the start and end dates, inclusive |
| RamadanData.RamadanDateRoundTrip | client/src/lib/ramadan-data.ts:5-24 | getRamadanDay and getRamadanDate are inverse to each other in both directions |
| RamadanData.DhikrPresetsWellFormed | client/src/lib/ramadan-data.ts:64-225 | there are sixteen presets, the first is SubhanAllah with goal 33, every goal is positive and all ids are distinct |
| RamadanData.BadgesWellFormed | client/src/lib/ramadan-data.ts:238-245 | badge ids are distinct, every requirement is positive and no badge is of the prayer type |
| RamadanData.BadgeThresholds | client/src/lib/ramadan-data.ts:238-245 | the streak thresholds are 1, 7, 15 and 30 and the tasbih thresholds 100 and 1000, in catalog order, and there is no prayer threshold |
| PrayerUtils.GetPrayerTimes | client/src/lib/prayer-utils.ts:39-45 | exactly five entries, named Fajr, Dhuhr, Asr, Maghrib and Isha in that order, each holding the calculator's instant of that name, with the moon/sun icons of the source |
| PrayerUtils.GetSahariTime | client/src/lib/prayer-utils.ts:55-58 | sahari is entry 0 of the list, the Fajr entry, and its time is the calculator's Fajr |
| PrayerUtils.GetIftarTime | client/src/lib/prayer-utils.ts:60-63 | iftar is entry 3 of the list, the Maghrib entry, and its time is the calculator's Maghrib |
| PrayerUtils.GetNextPrayer | client/src/lib/prayer-utils.ts:73-81 | a result is the first entry later than now: its index is below 5, it carries that entry's name and time, and no earlier entry is later than now; there is no result exactly when all five times are at or before now |
| PrayerUtils.GetTimeDiff | client/src/lib/prayer-utils.ts:88-94 | total is never negative, is 0 when the target is less than a second ahead, and otherwise is the whole seconds to the target; hours, minutes below 60 and seconds below 60 add back up to total |
| AppContext.WithLocation | client/src/lib/app-context.tsx:64-66 | definition: the state with its location replaced by the given one |
| AppContext.WithLanguage | client/src/lib/app-context.tsx:68-70 | definition: the state with its language replaced by the given one |
| AppContext.OtherThan | client/src/lib/app-context.tsx:76 | definition: the filter callback that keeps every day other than the toggled one |
| AppContext.ToggledLog | client/src/lib/app-context.tsx:74-77 | definition: the log without every copy of the day when it is logged, otherwise the log with the day appended |
| AppContext.WithToggledDay | client/src/lib/app-context.tsx:72-80 | definition: the state with its fasting log replaced by the toggled log |
| AppContext.WithEntry | client/src/lib/app-context.tsx:82-88 | definition: the state with the entry appended to the history and its count added to totalDhikr |
| AppContext.WithBadge | client/src/lib/app-context.tsx:114-119 | definition: the state unchanged when the badge is held, otherwise with the badge id appended |
| AppContext.DefaultStateValid | client/src/lib/app-context.tsx:39-46 | the default state (the constant DefaultState) has the first default location, English, empty log, history and badges, total 0, and its total matches its history |
| AppContext.SettersAreLocal | client/src/lib/app-context.tsx:64-70 | setLocation and setLanguage set their own field; putting the old value back gives the old state; the total invariant is kept |
| AppContext.ToggleFlipsMembership | client/src/lib/app-context.tsx:72-80 | toggling a day flips whether that day is logged and leaves every other day's membership unchanged |
| AppContext.ToggleTwice | client/src/lib/app-context.tsx:74-77 | toggling an absent day twice restores the log exactly; toggling a present day twice moves it to the end; either way the same days are logged |
| AppContext.ToggleKeepsNoDuplicates | client/src/lib/app-context.tsx:74-77 | toggling never introduces a duplicate day |
| AppContext.ToggleParity | client/src/lib/app-context.tsx:72-80 | after any sequence of toggles a day is logged exactly when its original membership differs from whether it was toggled an odd number of times |
| AppContext.EntryKeepsTotal | client/src/lib/app-context.tsx:82-88 | addTasbihEntry keeps the earlier history, appends exactly the entry, adds its count to the history sum and so keeps totalDhikr equal to that sum |
| AppContext.EntriesKeepTotal | client/src/lib/app-context.tsx:82-88 | after any sequence of entries the history is the old one followed by them, the total grows by their sum and the invariant is kept |
| AppContext.EarnBadgeIdempotent | client/src/lib/app-context.tsx:114-119 | earning a badge twice is the same as once, a held badge leaves the state unchanged, the list only grows and holds the badge afterwards, and no other field changes |
| AppContext.InsertSorted | client/src/lib/app-context.tsx:92 | inserting into a sorted sequence gives a sorted sequence holding one more copy of the element |
| AppContext.SortAscending | client/src/lib/app-context.tsx:92 | the sorted copy is in ascending order and is a permutation of the log |
| AppContext.SortedUnique | client/src/lib/app-context.tsx:92 | two ascending permutations of each other are equal, so the sorted copy depends only on the log's contents |
| AppContext.SortSorted | client/src/lib/app-context.tsx:92 | sorting an ascending log returns it unchanged |
| AppContext.InSortedCopy | client/src/lib/app-context.tsx:92 | a day is in the sorted copy exactly when it is in the log |
| AppContext.LatestIsMaximum | client/src/lib/app-context.tsx:92-95 | the latest day, the last of the sorted copy, is a logged day and no logged day is later |
| AppContext.FastingStreak | client/src/lib/app-context.tsx:90-105 | definition: the number of elements at the end of the sorted copy that form a chain of consecutive days |
| AppContext.TrailingRunShape | client/src/lib/app-context.tsx:93-103 | for a non-empty sequence the run length is between 1 and the length, each step inside the run is +1, and the step just before the run is not |
| AppContext.TrailingRunOfChain | client/src/lib/app-context.tsx:93-103 | when every step after position i is +1 and the step into i is not, the run length is the number of elements from i on |
| AppContext.StreakBounds | client/src/lib/app-context.tsx:91-104 | the streak is 0 for an empty log and otherwise between 1 and the log length |
| AppContext.StreakOrderIndependent | client/src/lib/app-context.tsx:90-105 | logs with the same contents in any order have the same streak |
| AppContext.StreakIsRunEndingAtLatest | client/src/lib/app-context.tsx:90-105 | for a duplicate-free log, every day from latest minus streak plus 1 up to the latest day is logged and the day before that run is not |
| AppContext.StreakOfThreeDays | client/src/lib/app-context.tsx:91-104 | three consecutive days give a streak of 3, in sorted or scrambled order |
| AppContext.StreakAcrossGap | client/src/lib/app-context.tsx:91-104 | two days with a gap between them give a streak of 1 |
| AppContext.StreakExamples | client/src/lib/app-context.tsx:91-104 | days 20, 21, 22 (in any of the listed orders) give 3, days 20 and 22 give 1, the empty log gives 0 |
| AppContext.AppStore.constructor | client/src/lib/app-context.tsx:39-46 | the store starts in the default state, which satisfies the total invariant |
| AppContext.AppStore.SetLocation | client/src/lib/app-context.tsx:64-66 | the new state is the old one with the location replaced; the invariant is kept |
| AppContext.AppStore.SetLanguage | client/src/lib/app-context.tsx:68-70 | the new state is the old one with the language replaced; the invariant is kept |
| AppContext.AppStore.ToggleFastingDay | client/src/lib/app-context.tsx:72-80 | the new state is the toggled one; IsFastingDay flips for the toggled day and is unchanged for every other day; a duplicate-free log stays duplicate-free; the invariant is kept |
| AppContext.AppStore.AddTasbihEntry | client/src/lib/app-context.tsx:82-88 | the new state has the entry appended and its count added to the total; the invariant is kept |
| AppContext.AppStore.EarnBadge | client/src/lib/app-context.tsx:114-119 | the new state has the badge appended unless already held; the invariant is kept |
| AppContext.AppStore.IsFastingDay | client/src/lib/app-context.tsx:107-112 | definition: whether the day is in the fasting log; AppStore.ToggleFastingDay states how a toggle changes it |
| AppContext.AppStore.GetFastingStreak | client/src/lib/app-context.tsx:90-105 | the backward loop over the sorted copy returns the run length of the streak definition: 0 for an empty log, otherwise between 1 and the log length |
| Tasbih.CurrentGoal | client/src/pages/tasbih.tsx:19 | definition: the session's goal is the selected dhikr's default goal |
| Tasbih.ApplyCommit | client/src/pages/tasbih.tsx:44-70 | definition: the store unchanged when a handler commits nothing, otherwise the store after `addTasbihEntry` of the committed entry |
| Tasbih.Tap | client/src/pages/tasbih.tsx:22-50 | definition: the count plus one; when that equals the goal and the goal was not reached, the goal is marked reached and an entry of that count under the selected dhikr is committed |
| Tasbih.Reset | client/src/pages/tasbih.tsx:52-62 | definition: count 0 and goal not reached, committing the count under the selected dhikr when it is positive and the goal was not reached |
| Tasbih.SelectDhikr | client/src/pages/tasbih.tsx:64-76 | definition: the new dhikr with count 0 and goal not reached, committing the count under the previous dhikr when it is positive |
| Tasbih.TapRule | client/src/pages/tasbih.tsx:30-48 | a tap adds exactly one to the count, also past the goal, and keeps the dhikr; it commits exactly when the new count equals the goal and the goal was not reached; the entry is the selected dhikr with the goal as count, and the goal is then reached |
| Tasbih.ResetRule | client/src/pages/tasbih.tsx:52-62 | reset ends with count 0 and goal not reached; it commits the current count under the selected dhikr exactly when the count is positive and the goal was not reached, so never after the goal |
| Tasbih.SelectDhikrRule | client/src/pages/tasbih.tsx:64-76 | switching selects the new dhikr with count 0, goal not reached and the new dhikr's goal; it commits the count under the previous dhikr exactly when the count is positive, whether or not the goal was reached |
| Tasbih.HandlersKeepValid | client/src/pages/tasbih.tsx:22-76 | every handler keeps the session invariant: a non-negative count and, for a positive goal, goal reached exactly when the count has reached the goal |
| Tasbih.InitialSessionValid | client/src/pages/tasbih.tsx:12-19 | the first render's session satisfies the invariant and its goal is 33 |
| Tasbih.CommitsArePositive | client/src/pages/tasbih.tsx:22-71 | from a valid session, every entry a handler commits has a positive count |
| Tasbih.TapsAfterGoal | client/src/pages/tasbih.tsx:30-49 | once the goal is reached, any number of further taps commits nothing and only raises the count |
| Tasbih.TapsToGoal | client/src/pages/tasbih.tsx:30-48 | from a valid session below a positive goal, tapping up to the goal commits exactly one entry, the goal count under the selected dhikr, and ends with the goal reached |
| Tasbih.ThirtyThreeTaps | client/src/pages/tasbih.tsx:30-48 | from the initial session, 33 taps commit exactly one SubhanAllah entry of 33, and a 34th tap commits nothing more |
| Tasbih.TapsSplit | client/src/pages/tasbih.tsx:22-50 | m + n taps are m taps followed by n taps, for both the final session and the committed entries |
| Tasbih.DoubleCommitOnSwitch | client/src/pages/tasbih.tsx:64-71 | 33 taps from the initial session followed by a switch commit the same 33-count entry twice |
| Tasbih.TasbihSession.constructor | client/src/pages/tasbih.tsx:12-16 | a new session is the initial session on the given store and satisfies the invariant |
| Tasbih.TasbihSession.HandleTap | client/src/pages/tasbih.tsx:22-50 | the fields become the tap transition's next session and the store receives exactly its commit, if any; the session and store invariants are kept |
| Tasbih.TasbihSession.HandleReset | client/src/pages/tasbih.tsx:52-62 | the fields become the reset transition's next session and the store receives exactly its commit, if any; both invariants are kept |
| Tasbih.TasbihSession.HandleSelectDhikr | client/src/pages/tasbih.tsx:64-76 | the fields become the switch transition's next session and the store receives exactly its commit, if any; both invariants are kept |
| Home.ResolveCountdown | client/src/pages/home.tsx:29-50 | an iftar countdown targets today's Maghrib; a sahari countdown targets today's or tomorrow's Fajr |
| Home.CountdownCases | client/src/pages/home.tsx:29-50 | before Fajr the target is today's Fajr, until sahari; after Maghrib (and not before Fajr) it is tomorrow's Fajr, until sahari; otherwise today's Maghrib, until iftar; the label is iftar exactly when Fajr <= now <= Maghrib |
| Home.CountdownAtBoundaries | client/src/pages/home.tsx:29-47 | with ordered prayer times, at exactly sahari and at exactly iftar the countdown is to iftar |
| Home.CountdownNotPast | client/src/pages/home.tsx:36-50 | before sahari the target is in the future; in the iftar case the target is not in the past; in a sahari case the target is in the future whenever now is before tomorrow's Fajr |
| Home.FastProgress | client/src/pages/home.tsx:53-55 | every numeric result lies in [0, 1]; the result is NaN (None) exactly when iftar equals sahari and now is not after sahari |
| Home.ProgressClamped | client/src/pages/home.tsx:53-55 | when iftar follows sahari the progress is a number in [0, 1], 0 at or before sahari and 1 at or after iftar |
| Home.ProgressDuringFast | client/src/pages/home.tsx:53-55 | between sahari and iftar the progress is the elapsed share of the fast |
| Home.ProgressMonotone | client/src/pages/home.tsx:53-55 | when iftar follows sahari, the progress never decreases as time passes |
| Home.ProgressDegenerate | client/src/pages/home.tsx:53-55 | with iftar equal to sahari the progress is NaN (None) up to sahari and 1 after it; with iftar before sahari it is 0 |
| Home.ProgressAtNoon | client/src/pages/home.tsx:53-55 | a 06:00 to 18:00 fast is half done at 12:00 |
| Home.IsFasting | client/src/pages/home.tsx:58 | definition: today's day is in the fasting log |
| Home.FastingButtonFlips | client/src/pages/home.tsx:58 | the fasting flag is today's membership in the log; after the button toggles today the flag is reversed, and every other day keeps its flag |
| Home.Shown | client/src/pages/home.tsx:63-65 | definition: a streak badge is shown when the streak reaches its requirement, a tasbih badge when the dhikr total does, a prayer badge never |
| Home.ShownFor | client/src/pages/home.tsx:62-66 | definition: `Shown` as the callback passed to `BADGES.filter` |
| Home.UnlockedBadges | client/src/pages/home.tsx:62-66 | at most as many badges as the catalog, each a catalog badge whose counter has reached its requirement |
| Home.UnlockedMembership | client/src/pages/home.tsx:62-66 | a catalog badge is shown exactly when the streak (streak badges) or the dhikr total (tasbih badges) has reached its requirement; a prayer badge never is |
| Home.UnlockedInCatalogOrder | client/src/pages/home.tsx:62-66 | the shown badges keep catalog order and have no repeats |
| Home.UnlockedMonotone | client/src/pages/home.tsx:62-66 | raising the streak or the total never removes a shown badge, and keeps the order |
| Home.UnlockedAfterAWeek | client/src/pages/home.tsx:62-66 | streak 7 with total 0 shows exactly First Fast and Week Warrior |
| LocationModal.Matches | client/src/components/location-modal.tsx:16-17 | definition: the filter callback, true when the lowercased name contains the lowercased search |
| LocationModal.Filtered | client/src/components/location-modal.tsx:16-18 | at most as many locations as the defaults, each a default location whose lowercased name contains the lowercased search |
| LocationModal.Contains | client/src/components/location-modal.tsx:17 | definition: the needle occurs in the string at some position, as `includes` does |
| LocationModal.FilteredMembership | client/src/components/location-modal.tsx:16-18 | a location is listed exactly when it is a default location whose lowercased name contains the lowercased search |
| LocationModal.FilteredInOrder | client/src/components/location-modal.tsx:16-18 | the list is an order-preserving subsequence of the default locations |
| LocationModal.ContainsEmpty | client/src/components/location-modal.tsx:17 | the empty string occurs in every string |
| LocationModal.ContainsTransitive | client/src/components/location-modal.tsx:17 | a substring of a substring is a substring |
| LocationModal.EmptySearchListsAll | client/src/components/location-modal.tsx:16-18 | with an empty search every default location is listed, in order |
| LocationModal.NarrowingSearch | client/src/components/location-modal.tsx:16-18 | when the lowercased longer search contains the lowercased shorter one, its results are an in-order selection of the shorter one's |
| LocationModal.HandleSelect | client/src/components/location-modal.tsx:20-23 | the chosen location is stored unchanged and nothing else in the state changes |

## Left out

- Astronomical prayer-time computation (the `adhan` library, `getSunrise`) is a foreign floating-point library. It is the parameter `provider`, and its five instants are not assumed to be ordered before `Home.CountdownAtBoundaries`.
- The Qibla direction and the compass page use foreign trigonometry and device-orientation events.
- Persistence to `localStorage` (`loadState` reading stored JSON, `saveState`) is I/O. Only the default state is modelled.
- React plumbing (`useCallback`, batched state updates) is not modelled. Each handler is one atomic step.
- The clock ticks, vibration, confetti, the tap animation and the selector's open/closed flag are presentation. The clock is the `now` and `today` parameters.
- `date-fns` formatting (`formatPrayerTime`, `formatPrayerTimeShort`, `format(..., "yyyy-MM-dd")`) is library string rendering. Today's key is the day-number parameter `today`.
- The streak's `new Date(...)` parsing and `Math.round` of the day difference are replaced by exact day numbers.
- The ring offset and percentage values on the pages are floating-point display ratios.
- `getRamadanDay`'s `Math.floor` over milliseconds between local midnights can miscount across a daylight-saving change. The day-number model does not capture that.
- `toLowerCase` is full Unicode case mapping. It is the parameter `lower`, and only `lower("") == ""` is assumed, in `LocationModal.EmptySearchListsAll`.
- `Array.prototype.sort` is modelled as an insertion sort over day numbers. Day-string order and numeric order agree for `YYYY-MM-DD` keys. The lemma `AppContext.SortedUnique` shows that any correct sort gives the same result.
- `earnBadge` is never called from the modelled pages, and the home page recomputes its badge list on each render. No merge of shown badges into `earnedBadges` is modelled, since the code does none.
- Latitude, longitude and prayer times are reals or integers. JavaScript's floating-point numbers are not modelled, except the `NaN` of an empty-length fast in `Home.FastProgress`.
- AppContext.StreakIsRunEndingAtLatest: stated for duplicate-free logs only, the only logs `toggleFastingDay` produces (`AppContext.ToggleKeepsNoDuplicates`). A stored log with a repeated day is not covered. On such a log the streak stops at the repeat, because that step is 0, not 1.
- Home.CountdownNotPast: in the sahari case after iftar, the target is tomorrow's Fajr. That is proved to be in the future only when `now` is before it, because the provider's times for two different days are otherwise unrelated.
- The streak is computed from the log alone and never compared with today. No lemma is needed for this: `FastingStreak` takes only the log.
