/** The Ramadan 2026 calendar arithmetic and the static catalogs of dhikr
    presets and badges (client/src/lib/ramadan-data.ts).

    A calendar day is a day number: the count of local calendar days since
    1970-01-01. The source works on `Date` objects truncated to local midnight;
    on day numbers its three functions become plain integer arithmetic. */
module RamadanData {
  import opened Seqs

  /** A local calendar day, as the number of days since 1970-01-01. */
  type Day = int

  /** The day number of the Gregorian date `year`-`month`-`day`, with `month`
      counted from 1 (the source's `new Date(y, m, d)` counts months from 0). */
  function DaysFromCivil(year: int, month: int, day: int): Day
    requires 1 <= month <= 12 && 1 <= day <= 31
  {
    var y := if month <= 2 then year - 1 else year;
    var era := y / 400;
    var yearOfEra := y - era * 400;
    var shiftedMonth := if month > 2 then month - 3 else month + 9;
    var dayOfYear := (153 * shiftedMonth + 2) / 5 + day - 1;
    var dayOfEra := yearOfEra * 365 + yearOfEra / 4 - yearOfEra / 100 + dayOfYear;
    era * 146097 + dayOfEra - 719468
  }

  /** RAMADAN_2026_START: 18 February 2026. */
  const RamadanStart: Day := DaysFromCivil(2026, 2, 18)
  /** RAMADAN_2026_END: 19 March 2026. */
  const RamadanEnd: Day := DaysFromCivil(2026, 3, 19)
  /** The number of days of Ramadan 2026. */
  const RamadanTotalDays: int := 30

  /** getRamadanDay: the 1-based position of `d` counted from the first day of Ramadan. */
  function RamadanDay(d: Day): int {
    d - RamadanStart + 1
  }

  /** isRamadan: `d` falls on one of the thirty days of the month. */
  predicate IsRamadan(d: Day) {
    1 <= RamadanDay(d) <= RamadanTotalDays
  }

  /** getRamadanDate: the calendar day of Ramadan day `n`. */
  function RamadanDate(n: int): Day {
    RamadanStart + n - 1
  }

  /** The three constants agree with each other and with the Gregorian calendar. */
  lemma RamadanConstants()
    ensures RamadanStart == 20502 && RamadanEnd == 20531
    ensures DaysFromCivil(1970, 1, 1) == 0
    ensures RamadanDay(RamadanStart) == 1
    ensures RamadanDay(RamadanEnd) == RamadanTotalDays
    ensures IsRamadan(RamadanStart) && IsRamadan(RamadanEnd)
    ensures !IsRamadan(RamadanStart - 1) && !IsRamadan(RamadanEnd + 1)
  {
  }

  /** The Ramadan day rises by exactly one per calendar day. */
  lemma RamadanDayStep(d: Day)
    ensures RamadanDay(d + 1) == RamadanDay(d) + 1
  {
  }

  /** isRamadan holds exactly on the days from the start to the end constant. */
  lemma IsRamadanWindow(d: Day)
    ensures IsRamadan(d) <==> RamadanStart <= d <= RamadanEnd
  {
  }

  /** getRamadanDate and getRamadanDay are inverse to each other. */
  lemma RamadanDateRoundTrip(n: int, d: Day)
    ensures RamadanDay(RamadanDate(n)) == n
    ensures RamadanDate(RamadanDay(d)) == d
  {
  }

  // ---------------------------------------------------------------------------
  // Dhikr presets (DHIKR_PRESETS). The Arabic text, transliteration, meanings
  // and Bengali names are display strings and are not part of the model.

  datatype DhikrPreset = DhikrPreset(id: string, name: string, defaultGoal: int)

  const DhikrPresets: seq<DhikrPreset> := [
    DhikrPreset("subhanallah", "SubhanAllah", 33),
    DhikrPreset("alhamdulillah", "Alhamdulillah", 33),
    DhikrPreset("allahuakbar", "Allahu Akbar", 33),
    DhikrPreset("allah", "Allah", 99),
    DhikrPreset("astaghfirullah", "Astaghfirullah", 100),
    DhikrPreset("lailahaillallah", "La ilaha illallah", 100),
    DhikrPreset("subhanallahi_wabihamdihi", "SubhanAllahi wa bihamdihi", 100),
    DhikrPreset("subhanallahil_azeem", "SubhanAllahil Azeem", 33),
    DhikrPreset("lahawla", "La hawla wala quwwata", 33),
    DhikrPreset("hasbunallah", "HasbunAllahu wa ni'mal wakeel", 33),
    DhikrPreset("bismillah", "Bismillah", 33),
    DhikrPreset("salawat", "Salawat on Prophet \U{FDFA}", 100),
    DhikrPreset("ya_rabbi", "Ya Rabbi", 33),
    DhikrPreset("tasbeeh_complete", "Complete Tasbeeh", 33),
    DhikrPreset("rabbana", "Rabbana atina", 33),
    DhikrPreset("ya_hayyu", "Ya Hayyu Ya Qayyum", 33)
  ]

  /** Every preset has a positive goal and the ids are pairwise distinct. */
  lemma DhikrPresetsWellFormed()
    ensures |DhikrPresets| == 16
    ensures DhikrPresets[0] == DhikrPreset("subhanallah", "SubhanAllah", 33)
    ensures forall i :: 0 <= i < |DhikrPresets| ==> DhikrPresets[i].defaultGoal > 0
    ensures forall i, j :: 0 <= i < j < |DhikrPresets| ==> DhikrPresets[i].id != DhikrPresets[j].id
  {
  }

  // ---------------------------------------------------------------------------
  // Badges (BADGES). Descriptions, icons and Bengali names are display strings.

  datatype BadgeType = Streak | Tasbih | Prayer

  datatype Badge = Badge(id: string, name: string, requirement: int, kind: BadgeType)

  const Badges: seq<Badge> := [
    Badge("first_fast", "First Fast", 1, Streak),
    Badge("week_warrior", "Week Warrior", 7, Streak),
    Badge("halfway", "Halfway Hero", 15, Streak),
    Badge("ramadan_complete", "Ramadan Champion", 30, Streak),
    Badge("tasbih_100", "Tasbih Starter", 100, Tasbih),
    Badge("tasbih_1000", "Dhikr Master", 1000, Tasbih)
  ]

  /** Badge ids are distinct, every requirement is positive and no badge is
      of the "prayer" type. */
  lemma BadgesWellFormed()
    ensures forall i, j :: 0 <= i < j < |Badges| ==> Badges[i].id != Badges[j].id
    ensures forall i :: 0 <= i < |Badges| ==> Badges[i].requirement > 0
    ensures forall i :: 0 <= i < |Badges| ==> Badges[i].kind != Prayer
  {
  }

  /** The requirements of the badges of one type, in catalog order. */
  function Requirements(badges: seq<Badge>, kind: BadgeType): seq<int> {
    if badges == [] then []
    else (if badges[0].kind == kind then [badges[0].requirement] else []) + Requirements(badges[1..], kind)
  }

  /** The streak thresholds are 1, 7, 15 and 30 and the tasbih thresholds 100
      and 1000, each in ascending order. */
  lemma BadgeThresholds()
    ensures Requirements(Badges, Streak) == [1, 7, 15, 30]
    ensures Requirements(Badges, Tasbih) == [100, 1000]
    ensures Requirements(Badges, Prayer) == []
  {
  }
}
