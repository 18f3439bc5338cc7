/** The derivations of the home page (client/src/pages/home.tsx): which
    countdown is shown, the progress of the day's fast, whether today is
    logged as fasted, and which badges are shown.

    The page recomputes these on every clock tick from `now`; here `now` and
    the local calendar day `today` it falls on are parameters. */
module Home {
  import opened Wrappers
  import opened Seqs
  import opened RamadanData
  import opened PrayerUtils
  import opened AppContext

  // ---------------------------------------------------------------------------
  // The countdown (lines 29-50).

  datatype CountdownLabel = UntilSahari | UntilIftar

  datatype Countdown = Countdown(target: Instant, kind: CountdownLabel)

  /** The countdown target and label: today's sahari before it, tomorrow's
      sahari after today's iftar, and today's iftar in between. */
  function ResolveCountdown(provider: Provider, location: Location, today: Day, now: Instant): (c: Countdown)
    ensures c.kind == UntilIftar ==> c.target == provider(location, today).maghrib
    ensures c.kind == UntilSahari ==>
      c.target == provider(location, today).fajr || c.target == provider(location, today + 1).fajr
  {
    var sahariTime := GetSahariTime(provider, location, today);
    var iftarTime := GetIftarTime(provider, location, today);
    var isAfterIftar := now > iftarTime;
    var isBeforeSahari := now < sahariTime;
    if isBeforeSahari then Countdown(sahariTime, UntilSahari)
    else if isAfterIftar then Countdown(GetSahariTime(provider, location, today + 1), UntilSahari)
    else Countdown(iftarTime, UntilIftar)
  }

  /** The three cases, in terms of the calculator's Fajr and Maghrib times.
      The before-sahari test is made first, so it wins when both hold. */
  lemma CountdownCases(provider: Provider, location: Location, today: Day, now: Instant)
    ensures var t := provider(location, today);
      now < t.fajr ==> ResolveCountdown(provider, location, today, now) == Countdown(t.fajr, UntilSahari)
    ensures var t := provider(location, today);
      t.fajr <= now && now > t.maghrib ==>
        ResolveCountdown(provider, location, today, now) == Countdown(provider(location, today + 1).fajr, UntilSahari)
    ensures var t := provider(location, today);
      t.fajr <= now <= t.maghrib ==> ResolveCountdown(provider, location, today, now) == Countdown(t.maghrib, UntilIftar)
    ensures ResolveCountdown(provider, location, today, now).kind == UntilIftar <==>
      provider(location, today).fajr <= now <= provider(location, today).maghrib
  {
  }

  /** On a day whose times are in order, exactly at sahari and exactly at
      iftar the countdown runs to iftar. */
  lemma CountdownAtBoundaries(provider: Provider, location: Location, today: Day)
    requires Ascending(provider(location, today))
    ensures var t := provider(location, today);
      ResolveCountdown(provider, location, today, t.fajr) == Countdown(t.maghrib, UntilIftar)
    ensures var t := provider(location, today);
      ResolveCountdown(provider, location, today, t.maghrib) == Countdown(t.maghrib, UntilIftar)
  {
  }

  /** The target is never in the past: strictly ahead before sahari, at or
      ahead while fasting, and strictly ahead after iftar as long as `now`
      is before tomorrow's Fajr. */
  lemma CountdownNotPast(provider: Provider, location: Location, today: Day, now: Instant)
    ensures now < provider(location, today).fajr ==> ResolveCountdown(provider, location, today, now).target > now
    ensures ResolveCountdown(provider, location, today, now).kind == UntilIftar ==>
      ResolveCountdown(provider, location, today, now).target >= now
    ensures (ResolveCountdown(provider, location, today, now).kind == UntilSahari &&
             now < provider(location, today + 1).fajr) ==>
      ResolveCountdown(provider, location, today, now).target > now
  {
  }

  // ---------------------------------------------------------------------------
  // The progress bar (lines 53-55).

  function Max(a: real, b: real): real { if a >= b then a else b }
  function Min(a: real, b: real): real { if a <= b then a else b }

  /** The share of the fast elapsed, `Math.min(1, Math.max(0, elapsed / total))`
      with seconds as reals. A division by a zero-length day follows
      JavaScript: a positive elapsed time gives Infinity, clamped to 1, and
      zero elapsed time gives NaN, here None. A negative day length gives a
      negative or negative-zero quotient, clamped to 0. */
  function FastProgress(sahari: Instant, iftar: Instant, now: Instant): (r: Option<real>)
    ensures r.Some? ==> 0.0 <= r.value <= 1.0
    ensures r.None? <==> iftar == sahari && now <= sahari
  {
    var totalDaySeconds := (iftar - sahari) as real / 1000.0;
    var elapsedSeconds := Max(0.0, (now - sahari) as real / 1000.0);
    if totalDaySeconds > 0.0 then Some(Min(1.0, Max(0.0, elapsedSeconds / totalDaySeconds)))
    else if totalDaySeconds < 0.0 then Some(0.0)
    else if elapsedSeconds > 0.0 then Some(1.0)
    else None
  }

  /** On a day where iftar follows sahari the progress is a number in [0, 1],
      0 up to sahari and 1 from iftar on. */
  lemma ProgressClamped(sahari: Instant, iftar: Instant, now: Instant)
    requires sahari < iftar
    ensures FastProgress(sahari, iftar, now).Some?
    ensures 0.0 <= FastProgress(sahari, iftar, now).value <= 1.0
    ensures now <= sahari ==> FastProgress(sahari, iftar, now).value == 0.0
    ensures now >= iftar ==> FastProgress(sahari, iftar, now).value == 1.0
  {
    var total := (iftar - sahari) as real / 1000.0;
    var elapsed := Max(0.0, (now - sahari) as real / 1000.0);
    assert total > 0.0;
    if now >= iftar {
      assert elapsed >= total;
      assert elapsed / total >= 1.0;
    }
    assert elapsed / total >= 0.0;
  }

  /** Between sahari and iftar the progress is the elapsed share of the day. */
  lemma ProgressDuringFast(sahari: Instant, iftar: Instant, now: Instant)
    requires sahari <= now <= iftar && sahari < iftar
    ensures FastProgress(sahari, iftar, now) == Some((now - sahari) as real / (iftar - sahari) as real)
  {
    var total := (iftar - sahari) as real / 1000.0;
    var elapsed := (now - sahari) as real / 1000.0;
    assert elapsed / total == (now - sahari) as real / (iftar - sahari) as real;
    assert (now - sahari) as real / (iftar - sahari) as real <= 1.0;
  }

  /** The progress never goes back while `now` advances within one day. */
  lemma ProgressMonotone(sahari: Instant, iftar: Instant, now1: Instant, now2: Instant)
    requires sahari < iftar && now1 <= now2
    ensures FastProgress(sahari, iftar, now1).Some? && FastProgress(sahari, iftar, now2).Some?
    ensures FastProgress(sahari, iftar, now1).value <= FastProgress(sahari, iftar, now2).value
  {
    var total := (iftar - sahari) as real / 1000.0;
    var e1 := Max(0.0, (now1 - sahari) as real / 1000.0);
    var e2 := Max(0.0, (now2 - sahari) as real / 1000.0);
    assert e1 <= e2;
    assert e1 / total <= e2 / total;
  }

  /** A day of zero length: NaN up to and at sahari, full after it. A day
      with iftar before sahari always shows 0. */
  lemma ProgressDegenerate(sahari: Instant, iftar: Instant, now: Instant)
    ensures iftar == sahari ==> (FastProgress(sahari, iftar, now).None? <==> now <= sahari)
    ensures iftar == sahari && now > sahari ==> FastProgress(sahari, iftar, now) == Some(1.0)
    ensures iftar < sahari ==> FastProgress(sahari, iftar, now) == Some(0.0)
  {
  }

  /** Sahari at 06:00 and iftar at 18:00: at noon half of the fast is over. */
  lemma ProgressAtNoon()
    ensures FastProgress(6 * 3600000, 18 * 3600000, 12 * 3600000) == Some(0.5)
  {
    ProgressDuringFast(6 * 3600000, 18 * 3600000, 12 * 3600000);
  }

  // ---------------------------------------------------------------------------
  // The fasting button (line 58).

  /** isFasting: today's key is in the fasting log. */
  predicate IsFasting(s: AppState, today: Day) {
    today in s.fastingLog
  }

  /** The button toggles today: afterwards the page shows the opposite of
      what it showed before, and every other day keeps its state. */
  lemma FastingButtonFlips(s: AppState, today: Day, other: Day)
    requires other != today
    ensures IsFasting(WithToggledDay(s, today), today) <==> !IsFasting(s, today)
    ensures IsFasting(WithToggledDay(s, today), other) <==> IsFasting(s, other)
  {
    ToggleFlipsMembership(s.fastingLog, today, today);
    ToggleFlipsMembership(s.fastingLog, today, other);
  }

  // ---------------------------------------------------------------------------
  // The badges shown (lines 62-66).

  /** Whether badge `b` is shown for the given streak and dhikr total. */
  predicate Shown(b: Badge, streak: int, totalDhikr: int) {
    match b.kind
    case Streak => streak >= b.requirement
    case Tasbih => totalDhikr >= b.requirement
    case Prayer => false
  }

  /** `Shown` as the callback passed to `filter`. */
  function ShownFor(streak: int, totalDhikr: int): Badge -> bool {
    b => Shown(b, streak, totalDhikr)
  }

  /** The catalog badges whose counter has reached the requirement, in
      catalog order. */
  function UnlockedBadges(streak: int, totalDhikr: int): (r: seq<Badge>)
    ensures |r| <= |Badges|
    ensures forall i :: 0 <= i < |r| ==> r[i] in Badges && Shown(r[i], streak, totalDhikr)
  {
    Filter(Badges, ShownFor(streak, totalDhikr))
  }

  /** A catalog badge is shown exactly when the counter of its type has
      reached its requirement; a prayer badge never is. */
  lemma UnlockedMembership(streak: int, totalDhikr: int, b: Badge)
    requires b in Badges
    ensures b in UnlockedBadges(streak, totalDhikr) <==>
      match b.kind
      case Streak => streak >= b.requirement
      case Tasbih => totalDhikr >= b.requirement
      case Prayer => false
  {
    FilterMembership(Badges, ShownFor(streak, totalDhikr), b);
  }

  /** The shown badges keep catalog order and have no repeats. */
  lemma UnlockedInCatalogOrder(streak: int, totalDhikr: int)
    ensures IsSubsequence(UnlockedBadges(streak, totalDhikr), Badges)
    ensures NoDuplicates(UnlockedBadges(streak, totalDhikr))
  {
    FilterIsSubsequence(Badges, ShownFor(streak, totalDhikr));
    BadgesWellFormed();
    FilterNoDuplicates(Badges, ShownFor(streak, totalDhikr));
  }

  /** Raising the streak or the dhikr total never hides a badge. */
  lemma UnlockedMonotone(streak1: int, total1: int, streak2: int, total2: int)
    requires streak1 <= streak2 && total1 <= total2
    ensures IsSubsequence(UnlockedBadges(streak1, total1), UnlockedBadges(streak2, total2))
    ensures forall b :: b in UnlockedBadges(streak1, total1) ==> b in UnlockedBadges(streak2, total2)
  {
    var p, q := ShownFor(streak1, total1), ShownFor(streak2, total2);
    assert forall b :: p(b) ==> q(b) by {
      forall b | p(b) ensures q(b) {
        assert Shown(b, streak1, total1);
      }
    }
    FilterMonotone(Badges, p, q);
    FilterSubset(Badges, p, q);
  }

  /** A week-long streak and no dhikr show exactly First Fast and Week Warrior. */
  lemma UnlockedAfterAWeek()
    ensures UnlockedBadges(7, 0) == [Badges[0], Badges[1]]
  {
    var p := ShownFor(7, 0);
    assert Badges == Badges[..2] + Badges[2..];
    FilterAppend(Badges[..2], Badges[2..], p);
    WeekShowsFirstTwo();
    WeekHidesTheRest();
  }

  lemma WeekShowsFirstTwo()
    ensures Filter(Badges[..2], ShownFor(7, 0)) == Badges[..2]
  {
    var p := ShownFor(7, 0);
    assert p(Badges[0]) && p(Badges[1]);
    FilterAll(Badges[..2], p);
  }

  lemma WeekHidesTheRest()
    ensures Filter(Badges[2..], ShownFor(7, 0)) == []
  {
    var p := ShownFor(7, 0);
    assert !p(Badges[2]) && !p(Badges[3]) && !p(Badges[4]) && !p(Badges[5]);
    NoneShown(Badges[2..], p);
  }

  lemma {:induction false} NoneShown(s: seq<Badge>, p: Badge -> bool)
    requires forall i :: 0 <= i < |s| ==> !p(s[i])
    ensures Filter(s, p) == []
  {
    if s != [] {
      NoneShown(s[1..], p);
    }
  }
}
