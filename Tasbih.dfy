/** The tasbih counter page (client/src/pages/tasbih.tsx).

    The page keeps three pieces of session state: the selected dhikr, the
    running count and whether the goal has been reached. Each of its three
    handlers updates them and may commit one entry to the app store. The
    handlers are first given as pure functions from a session state to the
    next one and the entry committed, if any; `TasbihSession` is the page
    itself, a class whose methods update its fields and the shared store and
    are proved to follow those functions. The date of a committed entry
    (`format(new Date(), "yyyy-MM-dd")`) is the parameter `today`. */
module Tasbih {
  import opened Wrappers
  import opened RamadanData
  import opened AppContext

  /** The page's session state. */
  datatype SessionState = SessionState(selectedDhikr: DhikrPreset, count: int, goalReached: bool)

  /** The state on first render: the first preset, nothing counted. */
  const InitialSession: SessionState := SessionState(DhikrPresets[0], 0, false)

  /** The goal of the session: the selected dhikr's default goal. */
  function CurrentGoal(s: SessionState): int {
    s.selectedDhikr.defaultGoal
  }

  /** The session invariant: the count is never negative and, for a
      positive goal, the goal counts as reached exactly when the count has
      reached it. */
  predicate SessionValid(s: SessionState) {
    s.count >= 0 && (CurrentGoal(s) >= 1 ==> (s.goalReached <==> s.count >= CurrentGoal(s)))
  }

  /** A handler's effect: the next session state and the entry it commits. */
  datatype Outcome = Outcome(next: SessionState, commit: Option<TasbihEntry>)

  /** handleTap: one more count; on exactly reaching the goal for the first
      time, the goal is marked reached and an entry of the goal count is
      committed. */
  function Tap(s: SessionState, today: Day): Outcome {
    var newCount := s.count + 1;
    if newCount == CurrentGoal(s) && !s.goalReached then
      Outcome(s.(count := newCount, goalReached := true),
              Some(TasbihEntry(today, s.selectedDhikr.id, newCount)))
    else
      Outcome(s.(count := newCount), None)
  }

  /** handleReset: the count goes back to 0; a started session whose goal was
      not reached is committed first. */
  function Reset(s: SessionState, today: Day): Outcome {
    var commit := if s.count > 0 && !s.goalReached
      then Some(TasbihEntry(today, s.selectedDhikr.id, s.count)) else None;
    Outcome(s.(count := 0, goalReached := false), commit)
  }

  /** handleSelectDhikr: a started session is committed under the previous
      dhikr, whether or not its goal was reached, and counting starts over
      with the new dhikr. */
  function SelectDhikr(s: SessionState, dhikr: DhikrPreset, today: Day): Outcome {
    var commit := if s.count > 0
      then Some(TasbihEntry(today, s.selectedDhikr.id, s.count)) else None;
    Outcome(SessionState(dhikr, 0, false), commit)
  }

  /** The store after a handler: `addTasbihEntry` applied to the committed
      entry, if any. */
  function ApplyCommit(s: AppState, commit: Option<TasbihEntry>): AppState {
    match commit
    case None => s
    case Some(entry) => WithEntry(s, entry)
  }

  // ---------------------------------------------------------------------------
  // Properties of the handlers.

  /** A tap adds exactly one to the count, also past the goal, and keeps the
      selected dhikr. It commits exactly when the new count equals the goal
      and the goal was not yet reached; the committed entry is the selected
      dhikr with the goal as its count, and the goal is then reached. */
  lemma TapRule(s: SessionState, today: Day)
    ensures Tap(s, today).next.count == s.count + 1
    ensures Tap(s, today).next.selectedDhikr == s.selectedDhikr
    ensures Tap(s, today).commit.Some? <==> s.count + 1 == CurrentGoal(s) && !s.goalReached
    ensures Tap(s, today).commit.Some? ==>
      Tap(s, today).commit.value == TasbihEntry(today, s.selectedDhikr.id, CurrentGoal(s)) &&
      Tap(s, today).next.goalReached
    ensures Tap(s, today).commit.None? ==> Tap(s, today).next.goalReached == s.goalReached
  {
  }

  /** A reset always ends at count 0 with the goal not reached. It commits
      the current count exactly when something was counted and the goal was
      not reached, so a reset after the goal commits nothing. */
  lemma ResetRule(s: SessionState, today: Day)
    ensures Reset(s, today).next == SessionState(s.selectedDhikr, 0, false)
    ensures Reset(s, today).commit.Some? <==> s.count > 0 && !s.goalReached
    ensures Reset(s, today).commit.Some? ==>
      Reset(s, today).commit.value == TasbihEntry(today, s.selectedDhikr.id, s.count)
    ensures s.goalReached ==> Reset(s, today).commit.None?
  {
  }

  /** Switching dhikr selects the new one, with count 0, the goal not reached
      and its own default goal as the current goal. Whenever something was
      counted it commits the count under the previous dhikr, even when the
      goal was already reached. */
  lemma SelectDhikrRule(s: SessionState, dhikr: DhikrPreset, today: Day)
    ensures SelectDhikr(s, dhikr, today).next.selectedDhikr == dhikr
    ensures SelectDhikr(s, dhikr, today).next.count == 0
    ensures !SelectDhikr(s, dhikr, today).next.goalReached
    ensures CurrentGoal(SelectDhikr(s, dhikr, today).next) == dhikr.defaultGoal
    ensures SelectDhikr(s, dhikr, today).commit.Some? <==> s.count > 0
    ensures SelectDhikr(s, dhikr, today).commit.Some? ==>
      SelectDhikr(s, dhikr, today).commit.value == TasbihEntry(today, s.selectedDhikr.id, s.count)
  {
  }

  /** Every handler keeps the session invariant. */
  lemma HandlersKeepValid(s: SessionState, dhikr: DhikrPreset, today: Day)
    requires SessionValid(s)
    ensures SessionValid(Tap(s, today).next)
    ensures SessionValid(Reset(s, today).next)
    ensures SessionValid(SelectDhikr(s, dhikr, today).next)
  {
  }

  /** The initial session satisfies the invariant. */
  lemma InitialSessionValid()
    ensures SessionValid(InitialSession)
    ensures CurrentGoal(InitialSession) == 33
  {
  }

  /** Every entry the page commits from a valid session has a positive count. */
  lemma CommitsArePositive(s: SessionState, dhikr: DhikrPreset, today: Day)
    requires SessionValid(s)
    ensures Tap(s, today).commit.Some? ==> Tap(s, today).commit.value.count > 0
    ensures Reset(s, today).commit.Some? ==> Reset(s, today).commit.value.count > 0
    ensures SelectDhikr(s, dhikr, today).commit.Some? ==> SelectDhikr(s, dhikr, today).commit.value.count > 0
  {
  }

  // ---------------------------------------------------------------------------
  // Runs of taps.

  /** The result of several taps: the final session and the entries
      committed on the way, in order. */
  datatype TapRun = TapRun(final: SessionState, entries: seq<TasbihEntry>)

  function Committed(commit: Option<TasbihEntry>): seq<TasbihEntry> {
    match commit
    case None => []
    case Some(entry) => [entry]
  }

  /** `n` taps in a row. */
  function Taps(s: SessionState, n: nat, today: Day): TapRun
    decreases n
  {
    if n == 0 then TapRun(s, [])
    else
      var o := Tap(s, today);
      var rest := Taps(o.next, n - 1, today);
      TapRun(rest.final, Committed(o.commit) + rest.entries)
  }

  /** Once the goal is reached, further taps only count: they commit
      nothing. */
  lemma {:induction false} TapsAfterGoal(s: SessionState, n: nat, today: Day)
    requires s.goalReached
    ensures Taps(s, n, today).entries == []
    ensures Taps(s, n, today).final == s.(count := s.count + n)
    decreases n
  {
    if n > 0 {
      TapsAfterGoal(Tap(s, today).next, n - 1, today);
    }
  }

  /** From a valid session below a positive goal, tapping up to the goal
      commits exactly one entry: the selected dhikr with the goal as its
      count. The goal is then reached. */
  lemma {:induction false} TapsToGoal(s: SessionState, n: nat, today: Day)
    requires SessionValid(s) && CurrentGoal(s) >= 1
    requires s.count + n == CurrentGoal(s) && n >= 1
    ensures Taps(s, n, today).entries == [TasbihEntry(today, s.selectedDhikr.id, CurrentGoal(s))]
    ensures Taps(s, n, today).final == SessionState(s.selectedDhikr, CurrentGoal(s), true)
    decreases n
  {
    var o := Tap(s, today);
    if n == 1 {
      assert o.commit == Some(TasbihEntry(today, s.selectedDhikr.id, CurrentGoal(s)));
      assert Taps(o.next, 0, today) == TapRun(o.next, []);
    } else {
      assert o.commit == None;
      TapsToGoal(o.next, n - 1, today);
    }
  }

  /** Starting fresh with SubhanAllah (goal 33), 33 taps commit exactly one
      entry of 33 and a 34th tap commits nothing. */
  lemma ThirtyThreeTaps(today: Day)
    ensures Taps(InitialSession, 33, today).entries == [TasbihEntry(today, "subhanallah", 33)]
    ensures Taps(InitialSession, 33, today).final.goalReached
    ensures Taps(InitialSession, 34, today).entries == [TasbihEntry(today, "subhanallah", 33)]
  {
    InitialSessionValid();
    TapsToGoal(InitialSession, 33, today);
    TapsSplit(InitialSession, 33, 1, today);
    TapsAfterGoal(Taps(InitialSession, 33, today).final, 1, today);
  }

  /** `m + n` taps are `m` taps followed by `n` taps. */
  lemma {:induction false} TapsSplit(s: SessionState, m: nat, n: nat, today: Day)
    ensures Taps(s, m + n, today).final == Taps(Taps(s, m, today).final, n, today).final
    ensures Taps(s, m + n, today).entries == Taps(s, m, today).entries + Taps(Taps(s, m, today).final, n, today).entries
    decreases m
  {
    if m > 0 {
      var o := Tap(s, today);
      TapsSplit(o.next, m - 1, n, today);
      assert m + n - 1 == (m - 1) + n;
    }
  }

  /** Reaching the goal and then switching dhikr commits the same session
      twice: once at the goal and once on the switch. */
  lemma DoubleCommitOnSwitch(dhikr: DhikrPreset, today: Day)
    ensures var run := Taps(InitialSession, 33, today);
      run.entries + Committed(SelectDhikr(run.final, dhikr, today).commit)
        == [TasbihEntry(today, "subhanallah", 33), TasbihEntry(today, "subhanallah", 33)]
  {
    ThirtyThreeTaps(today);
    InitialSessionValid();
    TapsToGoal(InitialSession, 33, today);
  }

  // ---------------------------------------------------------------------------
  // The page.

  /** TasbihPage: the three state cells and the app store it commits to. */
  class TasbihSession {
    const store: AppStore
    var selectedDhikr: DhikrPreset
    var count: int
    var goalReached: bool

    /** The session fields as a value. */
    function Snapshot(): SessionState
      reads this
    {
      SessionState(selectedDhikr, count, goalReached)
    }

    ghost predicate Valid()
      reads this
    {
      SessionValid(Snapshot())
    }

    /** The first render: the first preset, count 0, goal not reached. */
    constructor (store: AppStore)
      ensures this.store == store
      ensures Snapshot() == InitialSession && Valid()
    {
      this.store := store;
      selectedDhikr := DhikrPresets[0];
      count := 0;
      goalReached := false;
      new;
      InitialSessionValid();
    }

    method HandleTap(today: Day)
      modifies this, store
      ensures Snapshot() == Tap(old(Snapshot()), today).next
      ensures store.state == ApplyCommit(old(store.state), Tap(old(Snapshot()), today).commit)
      ensures old(Valid()) ==> Valid()
      ensures old(store.Valid()) ==> store.Valid()
    {
      ghost var before := Snapshot();
      if Valid() {
        HandlersKeepValid(before, selectedDhikr, today);
      }
      var newCount := count + 1;
      count := newCount;
      if newCount == selectedDhikr.defaultGoal && !goalReached {
        goalReached := true;
        store.AddTasbihEntry(TasbihEntry(today, selectedDhikr.id, newCount));
      }
    }

    method HandleReset(today: Day)
      modifies this, store
      ensures Snapshot() == Reset(old(Snapshot()), today).next
      ensures store.state == ApplyCommit(old(store.state), Reset(old(Snapshot()), today).commit)
      ensures old(Valid()) ==> Valid()
      ensures old(store.Valid()) ==> store.Valid()
    {
      ghost var before := Snapshot();
      if Valid() {
        HandlersKeepValid(before, selectedDhikr, today);
      }
      if count > 0 && !goalReached {
        store.AddTasbihEntry(TasbihEntry(today, selectedDhikr.id, count));
      }
      count := 0;
      goalReached := false;
    }

    method HandleSelectDhikr(dhikr: DhikrPreset, today: Day)
      modifies this, store
      ensures Snapshot() == SelectDhikr(old(Snapshot()), dhikr, today).next
      ensures store.state == ApplyCommit(old(store.state), SelectDhikr(old(Snapshot()), dhikr, today).commit)
      ensures old(Valid()) ==> Valid()
      ensures old(store.Valid()) ==> store.Valid()
    {
      ghost var before := Snapshot();
      if Valid() {
        HandlersKeepValid(before, dhikr, today);
      }
      if count > 0 {
        store.AddTasbihEntry(TasbihEntry(today, selectedDhikr.id, count));
      }
      selectedDhikr := dhikr;
      count := 0;
      goalReached := false;
    }
  }
}
