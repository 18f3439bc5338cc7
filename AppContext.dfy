/** The persisted application state and its transitions
    (client/src/lib/app-context.tsx).

    The source keeps one `AppState` record in a React state cell and replaces
    it through updater functions. Here the updaters are pure functions from
    state to state, and `AppStore` is the cell: a class with one `state` field
    and one method per transition. Date keys (`YYYY-MM-DD` strings, whose
    string order is their chronological order) are day numbers. */
module AppContext {
  import opened Seqs
  import opened RamadanData
  import opened PrayerUtils

  /** TasbihEntry: one committed counting session. */
  datatype TasbihEntry = TasbihEntry(date: Day, dhikrId: string, count: int)

  datatype Language = En | Bn

  /** The persisted application state: the chosen location and language,
      the fasted days, the tasbih history with its running total, and the
      earned badge ids. */
  datatype AppState = AppState(
    location: Location,
    language: Language,
    fastingLog: seq<Day>,
    tasbihHistory: seq<TasbihEntry>,
    totalDhikr: int,
    earnedBadges: seq<string>)

  /** The state `loadState` returns when nothing usable is stored. */
  const DefaultState: AppState := AppState(DefaultLocations[0], En, [], [], 0, [])

  /** The sum of the counts of a history. */
  function HistoryTotal(history: seq<TasbihEntry>): int {
    if history == [] then 0
    else HistoryTotal(history[..|history| - 1]) + history[|history| - 1].count
  }

  /** The bookkeeping invariant: `totalDhikr` is the sum of the history. */
  predicate TotalMatchesHistory(s: AppState) {
    s.totalDhikr == HistoryTotal(s.tasbihHistory)
  }

  // ---------------------------------------------------------------------------
  // The updaters passed to setState.

  function WithLocation(s: AppState, location: Location): AppState {
    s.(location := location)
  }

  function WithLanguage(s: AppState, language: Language): AppState {
    s.(language := language)
  }

  /** The filter predicate `(x) => x !== d`. */
  function OtherThan(d: Day): Day -> bool {
    x => x != d
  }

  /** The new fastingLog of toggleFastingDay: every copy of `d` removed when
      `d` is logged, `d` appended otherwise. */
  function ToggledLog(log: seq<Day>, d: Day): seq<Day> {
    if d in log then Filter(log, OtherThan(d)) else log + [d]
  }

  function WithToggledDay(s: AppState, d: Day): AppState {
    s.(fastingLog := ToggledLog(s.fastingLog, d))
  }

  function WithEntry(s: AppState, entry: TasbihEntry): AppState {
    s.(tasbihHistory := s.tasbihHistory + [entry], totalDhikr := s.totalDhikr + entry.count)
  }

  function WithBadge(s: AppState, badgeId: string): AppState {
    if badgeId in s.earnedBadges then s else s.(earnedBadges := s.earnedBadges + [badgeId])
  }

  // ---------------------------------------------------------------------------
  // Properties of the updaters.

  /** The default state: first default location, English, nothing logged,
      and a total that matches its empty history. */
  lemma DefaultStateValid()
    ensures DefaultState.location == DefaultLocations[0] && DefaultState.language == En
    ensures DefaultState.fastingLog == [] && DefaultState.tasbihHistory == []
    ensures DefaultState.earnedBadges == [] && DefaultState.totalDhikr == 0
    ensures TotalMatchesHistory(DefaultState)
  {
  }

  /** setLocation and setLanguage change their own field and nothing else:
      putting the old value back gives the old state. */
  lemma SettersAreLocal(s: AppState, location: Location, language: Language)
    ensures WithLocation(s, location).location == location
    ensures WithLocation(s, location).(location := s.location) == s
    ensures WithLanguage(s, language).language == language
    ensures WithLanguage(s, language).(language := s.language) == s
    ensures TotalMatchesHistory(s) ==> TotalMatchesHistory(WithLocation(s, location))
    ensures TotalMatchesHistory(s) ==> TotalMatchesHistory(WithLanguage(s, language))
  {
  }

  /** Toggling `d` flips the membership of `d` and of no other day. */
  lemma ToggleFlipsMembership(log: seq<Day>, d: Day, x: Day)
    ensures x in ToggledLog(log, d) <==> (if x == d then d !in log else x in log)
  {
    var r := ToggledLog(log, d);
    if d in log {
      if x in r {
        var i :| 0 <= i < |r| && r[i] == x;
      }
      if x in log && x != d {
        var i :| 0 <= i < |log| && log[i] == x;
        assert OtherThan(d)(log[i]);
      }
    }
  }

  /** Toggling a day twice: an absent day leaves the log exactly as it was; a
      present day comes back at the end of the log. Either way the same days
      are logged as before. */
  lemma ToggleTwice(log: seq<Day>, d: Day)
    ensures d !in log ==> ToggledLog(ToggledLog(log, d), d) == log
    ensures d in log ==> ToggledLog(ToggledLog(log, d), d) == Filter(log, OtherThan(d)) + [d]
    ensures forall x :: x in ToggledLog(ToggledLog(log, d), d) <==> x in log
  {
    var once := ToggledLog(log, d);
    if d !in log {
      assert d in once;
      FilterAppend(log, [d], OtherThan(d));
      FilterAll(log, OtherThan(d));
      assert Filter([d], OtherThan(d)) == [];
    } else {
      ToggleFlipsMembership(log, d, d);
      assert d !in once;
    }
    forall x ensures x in ToggledLog(once, d) <==> x in log {
      ToggleFlipsMembership(log, d, x);
      ToggleFlipsMembership(once, d, x);
    }
  }

  /** toggleFastingDay never introduces a duplicate day. */
  lemma ToggleKeepsNoDuplicates(log: seq<Day>, d: Day)
    requires NoDuplicates(log)
    ensures NoDuplicates(ToggledLog(log, d))
  {
    if d in log {
      FilterNoDuplicates(log, OtherThan(d));
    } else {
      var r := log + [d];
      forall i, j | 0 <= i < j < |r| ensures r[i] != r[j] {
        if j == |log| {
          assert r[i] == log[i];
        }
      }
    }
  }

  /** The log after toggling each day of `days` in turn. */
  function ToggleAll(log: seq<Day>, days: seq<Day>): seq<Day>
    decreases |days|
  {
    if days == [] then log else ToggleAll(ToggledLog(log, days[0]), days[1..])
  }

  /** After any sequence of toggles a day is logged exactly when it was logged
      before and was toggled an even number of times, or was not logged and was
      toggled an odd number of times. */
  lemma {:induction false} ToggleParity(log: seq<Day>, days: seq<Day>, x: Day)
    ensures x in ToggleAll(log, days) <==> ((x in log) != (Count(days, x) % 2 == 1))
    decreases |days|
  {
    if days != [] {
      var next := ToggledLog(log, days[0]);
      var c := Count(days[1..], x);
      var hit := days[0] == x;
      assert (x in next) == ((x in log) != hit) by {
        ToggleFlipsMembership(log, days[0], x);
      }
      assert (x in ToggleAll(log, days)) == ((x in next) != (c % 2 == 1)) by {
        ToggleParity(next, days[1..], x);
      }
      assert (Count(days, x) % 2 == 1) == (hit != (c % 2 == 1)) by {
        assert Count(days, x) == (if hit then 1 else 0) + c;
        ParityStep(hit, c);
      }
    }
  }

  lemma ParityStep(hit: bool, c: nat)
    ensures (((if hit then 1 else 0) + c) % 2 == 1) == (hit != (c % 2 == 1))
  {
  }

  /** addTasbihEntry appends exactly `entry`, adds its count to the total, and
      so keeps the total equal to the sum of the history. */
  lemma EntryKeepsTotal(s: AppState, entry: TasbihEntry)
    ensures WithEntry(s, entry).tasbihHistory[..|s.tasbihHistory|] == s.tasbihHistory
    ensures WithEntry(s, entry).tasbihHistory[|s.tasbihHistory|] == entry
    ensures HistoryTotal(WithEntry(s, entry).tasbihHistory) == HistoryTotal(s.tasbihHistory) + entry.count
    ensures TotalMatchesHistory(s) ==> TotalMatchesHistory(WithEntry(s, entry))
  {
    var h := s.tasbihHistory + [entry];
    assert h[..|h| - 1] == s.tasbihHistory;
  }

  /** The state after committing each entry of `entries` in turn. */
  function WithEntries(s: AppState, entries: seq<TasbihEntry>): AppState
    decreases |entries|
  {
    if entries == [] then s else WithEntries(WithEntry(s, entries[0]), entries[1..])
  }

  /** After any sequence of commits the history is the old one followed by the
      new entries, and a state whose total matched its history still does. */
  lemma {:induction false} EntriesKeepTotal(s: AppState, entries: seq<TasbihEntry>)
    ensures WithEntries(s, entries).tasbihHistory == s.tasbihHistory + entries
    ensures WithEntries(s, entries).totalDhikr == s.totalDhikr + HistoryTotal(entries)
    ensures TotalMatchesHistory(s) ==> TotalMatchesHistory(WithEntries(s, entries))
    decreases |entries|
  {
    if entries != [] {
      var next := WithEntry(s, entries[0]);
      EntryKeepsTotal(s, entries[0]);
      EntriesKeepTotal(next, entries[1..]);
      assert s.tasbihHistory + entries == next.tasbihHistory + entries[1..];
      assert HistoryTotal(entries) == entries[0].count + HistoryTotal(entries[1..]) by {
        HistoryTotalCons(entries);
      }
    }
  }

  lemma {:induction false} HistoryTotalCons(h: seq<TasbihEntry>)
    requires h != []
    ensures HistoryTotal(h) == h[0].count + HistoryTotal(h[1..])
    decreases |h|
  {
    if |h| > 1 {
      var init := h[..|h| - 1];
      HistoryTotalCons(init);
      assert init[1..] == h[1..][..|h[1..]| - 1];
      assert init[0] == h[0];
    } else {
      assert h[..|h| - 1] == [] && h[1..] == [];
    }
  }

  /** earnBadge is idempotent, leaves a state that already holds the badge
      untouched, and only ever extends `earnedBadges`. */
  lemma EarnBadgeIdempotent(s: AppState, badgeId: string)
    ensures WithBadge(WithBadge(s, badgeId), badgeId) == WithBadge(s, badgeId)
    ensures badgeId in s.earnedBadges ==> WithBadge(s, badgeId) == s
    ensures badgeId in WithBadge(s, badgeId).earnedBadges
    ensures s.earnedBadges <= WithBadge(s, badgeId).earnedBadges
    ensures WithBadge(s, badgeId).(earnedBadges := s.earnedBadges) == s
  {
    assert badgeId in s.earnedBadges + [badgeId];
  }

  // ---------------------------------------------------------------------------
  // getFastingStreak.

  predicate SortedAscending(s: seq<int>) {
    forall i, j :: 0 <= i < j < |s| ==> s[i] <= s[j]
  }

  /** Inserts `x` into a sorted sequence. */
  function InsertSorted(x: int, s: seq<int>): (r: seq<int>)
    requires SortedAscending(s)
    ensures SortedAscending(r)
    ensures multiset(r) == multiset(s) + multiset{x}
  {
    if s == [] || x <= s[0] then
      ConsSorted(x, s);
      [x] + s
    else
      TailSorted(s);
      var rest := InsertSorted(x, s[1..]);
      assert s == [s[0]] + s[1..];
      assert forall k :: 0 <= k < |rest| ==> s[0] <= rest[k] by {
        forall k | 0 <= k < |rest| ensures s[0] <= rest[k] {
          assert rest[k] in multiset(rest);
          if rest[k] != x {
            assert rest[k] in multiset(s[1..]);
            HeadIsLeast(s, rest[k]);
          }
        }
      }
      ConsSorted(s[0], rest);
      [s[0]] + rest
  }

  lemma TailSorted(s: seq<int>)
    requires SortedAscending(s) && s != []
    ensures SortedAscending(s[1..])
  {
    forall i, j | 0 <= i < j < |s[1..]| ensures s[1..][i] <= s[1..][j] {
      assert s[1..][i] == s[i + 1] && s[1..][j] == s[j + 1];
    }
  }

  /** Putting an element no larger than any other in front keeps a sequence sorted. */
  lemma ConsSorted(x: int, s: seq<int>)
    requires SortedAscending(s)
    requires s == [] || x <= s[0]
    ensures SortedAscending([x] + s)
  {
    var r := [x] + s;
    forall i, j | 0 <= i < j < |r| ensures r[i] <= r[j] {
      assert r[j] == s[j - 1];
      if i > 0 {
        assert r[i] == s[i - 1];
      } else if j > 1 {
        assert s[0] <= s[j - 1];
      }
    }
  }

  /** The first element of a sorted sequence is its least. */
  lemma HeadIsLeast(s: seq<int>, x: int)
    requires SortedAscending(s) && x in multiset(s)
    ensures s[0] <= x
  {
    assert x in s;
    var k :| 0 <= k < |s| && s[k] == x;
    if k > 0 {
      assert s[0] <= s[k];
    }
  }

  /** The ascending sorted copy of a log (`[...log].sort()`). */
  function SortAscending(s: seq<int>): (r: seq<int>)
    ensures SortedAscending(r)
    ensures multiset(r) == multiset(s)
  {
    if s == [] then []
    else
      assert s == [s[0]] + s[1..];
      InsertSorted(s[0], SortAscending(s[1..]))
  }

  /** The number of elements at the end of `s` that form a chain of
      consecutive day numbers. */
  function TrailingRun(s: seq<int>): nat {
    if |s| == 0 then 0
    else if |s| == 1 || s[|s| - 1] != s[|s| - 2] + 1 then 1
    else TrailingRun(s[..|s| - 1]) + 1
  }

  /** The value getFastingStreak computes. */
  function FastingStreak(log: seq<Day>): nat {
    TrailingRun(SortAscending(log))
  }

  /** The latest logged day: the last element of the sorted copy. */
  function Latest(log: seq<Day>): Day
    requires log != []
  {
    SortedCopyLength(log);
    SortAscending(log)[|log| - 1]
  }

  /** The latest day is a logged day and no logged day is later. */
  lemma LatestIsMaximum(log: seq<Day>)
    requires log != []
    ensures Latest(log) in log
    ensures forall x :: x in log ==> x <= Latest(log)
  {
    LatestInCopy(log);
    LastIsMaximum(log, SortAscending(log), Latest(log));
  }

  /** The latest day is the last element of the sorted copy. */
  lemma LatestInCopy(log: seq<Day>)
    requires log != []
    ensures SortAscending(log) != []
    ensures Latest(log) == SortAscending(log)[|SortAscending(log)| - 1]
  {
    SortedCopyLength(log);
  }

  /** The last element `m` of a sorted permutation `t` of a log is in the
      log and no element of the log exceeds it. */
  lemma LastIsMaximum(log: seq<Day>, t: seq<int>, m: int)
    requires t != [] && SortedAscending(t) && multiset(t) == multiset(log)
    requires m == t[|t| - 1]
    ensures m in log
    ensures forall x :: x in log ==> x <= m
  {
    assert m in multiset(t);
    forall x | x in log ensures x <= m {
      assert x in multiset(t);
      var i :| 0 <= i < |t| && t[i] == x;
      if i < |t| - 1 {
        assert t[i] <= t[|t| - 1];
      }
    }
  }

  /** Element `k` of `s` is one more than the element before it. */
  predicate StepsUp(s: seq<int>, k: int) {
    0 < k < |s| && s[k] == s[k - 1] + 1
  }

  /** When the elements from `i` to the end form a chain and the chain cannot
      be extended below `i`, the trailing run starts at `i`. */
  lemma {:induction false} TrailingRunOfChain(s: seq<int>, i: nat)
    requires i < |s|
    requires forall k :: i < k < |s| ==> StepsUp(s, k)
    requires i == 0 || !StepsUp(s, i)
    ensures TrailingRun(s) == |s| - i
    decreases |s|
  {
    if i < |s| - 1 {
      var init := s[..|s| - 1];
      forall k | i < k < |init| ensures StepsUp(init, k) {
        assert StepsUp(s, k);
      }
      assert StepsUp(s, |s| - 1);
      if i > 0 {
        assert !StepsUp(init, i);
      }
      TrailingRunOfChain(init, i);
    }
  }

  /** The trailing run of a nonempty sequence is a genuine chain: between one
      and all elements, consecutive within, and not extendable below. */
  lemma {:induction false} TrailingRunShape(s: seq<int>)
    requires s != []
    ensures 1 <= TrailingRun(s) <= |s|
    ensures forall k :: |s| - TrailingRun(s) < k < |s| ==> StepsUp(s, k)
    ensures TrailingRun(s) < |s| ==> !StepsUp(s, |s| - TrailingRun(s))
    decreases |s|
  {
    if |s| > 1 && s[|s| - 1] == s[|s| - 2] + 1 {
      var init := s[..|s| - 1];
      TrailingRunShape(init);
      forall k | |s| - TrailingRun(s) < k < |s| ensures StepsUp(s, k) {
        if k < |s| - 1 {
          assert StepsUp(init, k);
        }
      }
      if TrailingRun(s) < |s| {
        assert !StepsUp(init, |init| - TrailingRun(init));
      }
    }
  }

  /** An empty log has streak 0; any other log has a streak of at least one
      day and at most its length. */
  lemma StreakBounds(log: seq<Day>)
    ensures log == [] ==> FastingStreak(log) == 0
    ensures log != [] ==> 1 <= FastingStreak(log) <= |log|
  {
    var t := SortAscending(log);
    assert |t| == |multiset(t)| == |multiset(log)| == |log|;
    if log != [] {
      TrailingRunShape(t);
    }
  }

  lemma {:induction false} SortedUnique(a: seq<int>, b: seq<int>)
    requires SortedAscending(a) && SortedAscending(b)
    requires multiset(a) == multiset(b)
    ensures a == b
    decreases |a|
  {
    if a == [] {
      assert |b| == |multiset(b)| == 0;
    } else {
      assert |b| == |multiset(b)| == |multiset(a)| == |a|;
      assert a[0] == b[0] by {
        assert a[0] in multiset(a) && b[0] in multiset(b);
        HeadIsLeast(a, b[0]);
        HeadIsLeast(b, a[0]);
      }
      assert multiset(a[1..]) == multiset(b[1..]) by {
        MultisetOfTail(a);
        MultisetOfTail(b);
      }
      TailSorted(a);
      TailSorted(b);
      SortedUnique(a[1..], b[1..]);
      assert a == [a[0]] + a[1..] && b == [b[0]] + b[1..];
    }
  }

  lemma MultisetOfTail(s: seq<int>)
    requires s != []
    ensures multiset(s[1..]) == multiset(s) - multiset{s[0]}
  {
    assert s == [s[0]] + s[1..];
  }

  /** The streak depends only on which days are logged (with their
      multiplicity), not on the order in which they were toggled on. */
  lemma StreakOrderIndependent(log1: seq<Day>, log2: seq<Day>)
    requires multiset(log1) == multiset(log2)
    ensures FastingStreak(log1) == FastingStreak(log2)
  {
    SortedUnique(SortAscending(log1), SortAscending(log2));
  }

  lemma {:induction false} NoDuplicatesMultiplicity(s: seq<int>, x: int)
    requires NoDuplicates(s)
    ensures multiset(s)[x] <= 1
    decreases |s|
  {
    if s != [] {
      assert s == [s[0]] + s[1..];
      assert NoDuplicates(s[1..]) by {
        forall i, j | 0 <= i < j < |s[1..]| ensures s[1..][i] != s[1..][j] {
          assert s[1..][i] == s[i + 1] && s[1..][j] == s[j + 1];
        }
      }
      NoDuplicatesMultiplicity(s[1..], x);
      if s[0] == x {
        assert x !in s[1..] by {
          forall k | 0 <= k < |s[1..]| ensures s[1..][k] != x {
            assert s[1..][k] == s[k + 1];
          }
        }
      }
    }
  }

  /** Two equal elements at different positions count twice in the multiset. */
  lemma TwoCopies(t: seq<int>, i: int, j: int)
    requires 0 <= i < j < |t| && t[i] == t[j]
    ensures multiset(t)[t[i]] >= 2
  {
    assert t == t[..j] + t[j..];
    assert t[i] in t[..j] && t[j] in t[j..];
    assert multiset(t)[t[i]] == multiset(t[..j])[t[i]] + multiset(t[j..])[t[i]];
  }

  /** A permutation of a duplicate-free sequence is duplicate-free. */
  lemma PermutationNoDuplicates(log: seq<Day>, t: seq<int>)
    requires NoDuplicates(log) && multiset(t) == multiset(log)
    ensures NoDuplicates(t)
  {
    forall i, j | 0 <= i < j < |t| ensures t[i] != t[j] {
      if t[i] == t[j] {
        TwoCopies(t, i, j);
        NoDuplicatesMultiplicity(log, t[i]);
        assert false;
      }
    }
  }

  /** The elements of a chain are the top element minus their distance from it. */
  lemma {:induction false} ChainValues(s: seq<int>, i: nat)
    requires i < |s|
    requires forall k :: i < k < |s| ==> StepsUp(s, k)
    ensures forall k :: i <= k < |s| ==> s[k] == s[|s| - 1] - (|s| - 1 - k)
    decreases |s| - i
  {
    if i < |s| - 1 {
      ChainValues(s, i + 1);
      assert StepsUp(s, i + 1);
    }
  }

  /** A sorted copy has the log's length. */
  lemma SortedCopyLength(log: seq<Day>)
    ensures |SortAscending(log)| == |log|
  {
    var t := SortAscending(log);
    assert |t| == |multiset(t)| == |multiset(log)| == |log|;
  }

  /** A sorted copy contains exactly the logged days. */
  lemma InSortedCopy(log: seq<Day>, x: Day)
    ensures x in SortAscending(log) <==> x in log
  {
    assert x in log <==> x in multiset(log);
    assert x in SortAscending(log) <==> x in multiset(SortAscending(log));
  }

  /** The first day of the run the streak counts: the streak is the number
      of days from it to the latest logged day. */
  function StreakStart(log: seq<Day>): Day
    requires log != []
  {
    Latest(log) - FastingStreak(log) + 1
  }

  /** In a sorted sequence without repeats, every value from the start of
      the trailing run up to the last element occurs. */
  lemma RunValuesPresent(t: seq<int>)
    requires t != [] && SortedAscending(t)
    ensures forall x :: t[|t| - 1] - TrailingRun(t) < x <= t[|t| - 1] ==> x in t
  {
    var n, len := |t|, TrailingRun(t);
    TrailingRunShape(t);
    ChainValues(t, n - len);
    forall x | t[n - 1] - len < x <= t[n - 1] ensures x in t {
      var k := n - 1 - (t[n - 1] - x);
      assert t[k] == x;
    }
  }

  /** In a sorted sequence without repeats, the value just below the start
      of the trailing run does not occur. */
  lemma BelowRunAbsent(t: seq<int>)
    requires t != [] && SortedAscending(t) && NoDuplicates(t)
    ensures t[|t| - 1] - TrailingRun(t) !in t
  {
    var n, len := |t|, TrailingRun(t);
    var b := n - len;
    TrailingRunShape(t);
    ChainValues(t, b);
    assert t[b] == t[n - 1] - len + 1;
    forall i | 0 <= i < n ensures t[i] != t[b] - 1 {
      if i >= b {
        assert t[b] <= t[i];
      } else {
        assert t[i] <= t[b - 1] && t[b - 1] != t[b];
        assert !StepsUp(t, b);
      }
    }
  }

  /** For a duplicate-free log, the streak is the length of the run of
      consecutive days ending at the latest logged day: every day from the
      start of the run to the latest day is logged, and the day before the
      run is not. */
  lemma StreakIsRunEndingAtLatest(log: seq<Day>)
    requires log != [] && NoDuplicates(log)
    ensures forall x :: StreakStart(log) <= x <= Latest(log) ==> x in log
    ensures StreakStart(log) - 1 !in log
  {
    RunDaysLogged(log);
    DayBelowRunNotLogged(log);
  }

  /** Every day of the streak's run is logged. */
  lemma RunDaysLogged(log: seq<Day>)
    requires log != []
    ensures forall x :: StreakStart(log) <= x <= Latest(log) ==> x in log
  {
    StreakStartInCopy(log);
    LatestInCopy(log);
    RunInPermutation(log, SortAscending(log), StreakStart(log) - 1, Latest(log));
  }

  /** For a sorted permutation `t` of a log, every value of `t`'s trailing
      run, from above `lo` up to `hi`, is in the log. */
  lemma RunInPermutation(log: seq<Day>, t: seq<int>, lo: int, hi: int)
    requires t != [] && SortedAscending(t) && multiset(t) == multiset(log)
    requires lo == t[|t| - 1] - TrailingRun(t) && hi == t[|t| - 1]
    ensures forall x :: lo < x <= hi ==> x in log
  {
    RunValuesPresent(t);
    forall x | lo < x <= hi ensures x in log {
      assert x in t;
      assert x in multiset(t);
    }
  }

  /** The day just below the streak's run is not logged. */
  lemma DayBelowRunNotLogged(log: seq<Day>)
    requires log != [] && NoDuplicates(log)
    ensures StreakStart(log) - 1 !in log
  {
    StreakStartInCopy(log);
    BelowRunNotInPermutation(log, SortAscending(log), StreakStart(log) - 1);
  }

  /** The streak's first day, read off the sorted copy. */
  lemma StreakStartInCopy(log: seq<Day>)
    requires log != []
    ensures SortAscending(log) != []
    ensures StreakStart(log) - 1 == SortAscending(log)[|SortAscending(log)| - 1] - TrailingRun(SortAscending(log))
  {
    SortedCopyLength(log);
  }

  /** For a sorted permutation `t` of a duplicate-free log, the value just
      below `t`'s trailing run is not in the log. */
  lemma BelowRunNotInPermutation(log: seq<Day>, t: seq<int>, v: int)
    requires t != [] && NoDuplicates(log)
    requires SortedAscending(t) && multiset(t) == multiset(log)
    requires v == t[|t| - 1] - TrailingRun(t)
    ensures v !in log
  {
    PermutationNoDuplicates(log, t);
    BelowRunAbsent(t);
    assert multiset(t)[v] == 0;
  }

  /** Sorting an already sorted log changes nothing. */
  lemma SortSorted(log: seq<Day>)
    requires SortedAscending(log)
    ensures SortAscending(log) == log
  {
    SortedUnique(SortAscending(log), log);
  }

  /** Three consecutive days give a streak of 3, also when they were toggled
      on out of order. */
  lemma StreakOfThreeDays(a: Day)
    ensures FastingStreak([a, a + 1, a + 2]) == 3
    ensures FastingStreak([a + 2, a, a + 1]) == 3
  {
    RunOfThreeDays(a);
    assert multiset([a + 2, a, a + 1]) == multiset([a, a + 1, a + 2]);
    StreakOrderIndependent([a + 2, a, a + 1], [a, a + 1, a + 2]);
  }

  lemma RunOfThreeDays(a: Day)
    ensures FastingStreak([a, a + 1, a + 2]) == 3
  {
    var s := [a, a + 1, a + 2];
    assert SortedAscending(s);
    StreakOfSorted(s);
    TrailingRunOfThree(a);
  }

  lemma TrailingRunOfThree(a: Day)
    ensures TrailingRun([a, a + 1, a + 2]) == 3
  {
    var s := [a, a + 1, a + 2];
    assert s[..2] == [a, a + 1];
    assert [a, a + 1][..1] == [a];
    assert TrailingRun([a, a + 1]) == 2;
  }

  /** The streak of a log that is already sorted is its trailing run. */
  lemma StreakOfSorted(log: seq<Day>)
    requires SortedAscending(log)
    ensures FastingStreak(log) == TrailingRun(log)
  {
    SortSorted(log);
  }

  /** Two days with a gap between them give a streak of 1. */
  lemma StreakAcrossGap(a: Day, b: Day)
    requires a + 1 < b
    ensures FastingStreak([a, b]) == 1
  {
    var s := [a, b];
    assert SortedAscending(s);
    StreakOfSorted(s);
    assert TrailingRun(s) == 1 by {
      assert s[1] != s[0] + 1;
    }
  }

  /** The examples [20, 21, 22] and [20, 22], and the empty log. The days are
      never compared with today, so an old run counts as it is. */
  lemma StreakExamples()
    ensures FastingStreak([20, 21, 22]) == 3
    ensures FastingStreak([22, 20, 21]) == 3
    ensures FastingStreak([20, 22]) == 1
    ensures FastingStreak([]) == 0
  {
    StreakOfThreeDays(20);
    StreakAcrossGap(20, 22);
  }

  // ---------------------------------------------------------------------------
  // The store.

  /** AppProvider's state cell. Every transition replaces `state` wholesale. */
  class AppStore {
    var state: AppState

    /** The bookkeeping invariant of the stored state. */
    ghost predicate Valid()
      reads this
    {
      TotalMatchesHistory(state)
    }

    /** loadState with nothing stored. */
    constructor ()
      ensures state == DefaultState && Valid()
    {
      state := DefaultState;
    }

    method SetLocation(location: Location)
      modifies this
      ensures state == WithLocation(old(state), location)
      ensures old(Valid()) ==> Valid()
    {
      state := WithLocation(state, location);
    }

    method SetLanguage(language: Language)
      modifies this
      ensures state == WithLanguage(old(state), language)
      ensures old(Valid()) ==> Valid()
    {
      state := WithLanguage(state, language);
    }

    method ToggleFastingDay(d: Day)
      modifies this
      ensures state == WithToggledDay(old(state), d)
      ensures IsFastingDay(d) <==> !old(IsFastingDay(d))
      ensures forall x :: x != d ==> (IsFastingDay(x) <==> old(IsFastingDay(x)))
      ensures NoDuplicates(old(state).fastingLog) ==> NoDuplicates(state.fastingLog)
      ensures old(Valid()) ==> Valid()
    {
      ToggleFlipsMembership(state.fastingLog, d, d);
      forall x ensures x in ToggledLog(state.fastingLog, d) <==> (if x == d then d !in state.fastingLog else x in state.fastingLog) {
        ToggleFlipsMembership(state.fastingLog, d, x);
      }
      if NoDuplicates(state.fastingLog) {
        ToggleKeepsNoDuplicates(state.fastingLog, d);
      }
      state := WithToggledDay(state, d);
    }

    method AddTasbihEntry(entry: TasbihEntry)
      modifies this
      ensures state == WithEntry(old(state), entry)
      ensures old(Valid()) ==> Valid()
    {
      EntryKeepsTotal(state, entry);
      state := WithEntry(state, entry);
    }

    method EarnBadge(badgeId: string)
      modifies this
      ensures state == WithBadge(old(state), badgeId)
      ensures old(Valid()) ==> Valid()
    {
      state := WithBadge(state, badgeId);
    }

    /** isFastingDay: whether `d` is a logged day. */
    function IsFastingDay(d: Day): bool
      reads this
    {
      d in state.fastingLog
    }

    /** getFastingStreak: sorts a copy of the log and walks back from the
      latest day while each day is exactly one after its predecessor. */
    method GetFastingStreak() returns (streak: nat)
      ensures streak == FastingStreak(state.fastingLog)
      ensures state.fastingLog == [] ==> streak == 0
      ensures state.fastingLog != [] ==> 1 <= streak <= |state.fastingLog|
    {
      StreakBounds(state.fastingLog);
      if |state.fastingLog| == 0 {
        return 0;
      }
      var sorted := SortAscending(state.fastingLog);
      assert |sorted| == |multiset(sorted)| == |multiset(state.fastingLog)| == |state.fastingLog|;
      streak := 1;
      var i := |sorted| - 1;
      while i > 0
        invariant 0 <= i < |sorted|
        invariant streak == |sorted| - i
        invariant forall k :: i < k < |sorted| ==> StepsUp(sorted, k)
      {
        if sorted[i] - sorted[i - 1] == 1 {
          streak := streak + 1;
        } else {
          TrailingRunOfChain(sorted, i);
          return;
        }
        i := i - 1;
      }
      TrailingRunOfChain(sorted, i);
    }
  }
}
