/** The prayer-time helpers (client/src/lib/prayer-utils.ts): the list of
    selectable locations, the five-entry view of a day's prayer times, the
    sahari and iftar selections, the next-prayer search and the countdown
    decomposition.

    The astronomical calculation itself is done by an external library; here
    it is a parameter, `provider`, that maps a location and a calendar day to
    the five instants of that day. */
module PrayerUtils {
  import opened Wrappers
  import opened RamadanData

  /** A point in time, in milliseconds (`Date.getTime()`). */
  type Instant = int

  /** A selectable location: a display name and its coordinates. */
  datatype Location = Location(name: string, latitude: real, longitude: real)

  /** The fifteen locations offered for selection; the first is the default. */
  const DefaultLocations: seq<Location> := [
    Location("Chandpur, Bangladesh", 23.2332, 90.6712),
    Location("Dhaka, Bangladesh", 23.8103, 90.4125),
    Location("London, UK", 51.5074, -0.1278),
    Location("New York, USA", 40.7128, -74.006),
    Location("Dubai, UAE", 25.2048, 55.2708),
    Location("Istanbul, Turkey", 41.0082, 28.9784),
    Location("Mecca, Saudi Arabia", 21.4225, 39.8262),
    Location("Chittagong, Bangladesh", 22.3569, 91.7832),
    Location("Sylhet, Bangladesh", 24.8949, 91.8687),
    Location("Rajshahi, Bangladesh", 24.3745, 88.6042),
    Location("Kuala Lumpur, Malaysia", 3.139, 101.6869),
    Location("Jakarta, Indonesia", -6.2088, 106.8456),
    Location("Cairo, Egypt", 30.0444, 31.2357),
    Location("Medina, Saudi Arabia", 24.4539, 39.6142),
    Location("Toronto, Canada", 43.6532, -79.3832)
  ]

  datatype Icon = Sun | Moon

  /** One row of the prayer list: a prayer's name, its instant and its icon. */
  datatype PrayerTimeData = PrayerTimeData(name: string, time: Instant, icon: Icon)

  /** The five instants the calculator reports for one day. */
  datatype DailyTimes = DailyTimes(fajr: Instant, dhuhr: Instant, asr: Instant, maghrib: Instant, isha: Instant)

  /** The external prayer-time calculator, for a location and a local calendar day. */
  type Provider = (Location, Day) -> DailyTimes

  /** The calculator's times come in the order of the day. The model never
      relies on this unless a lemma says so. */
  predicate Ascending(t: DailyTimes) {
    t.fajr < t.dhuhr < t.asr < t.maghrib < t.isha
  }

  const PrayerNames: seq<string> := ["Fajr", "Dhuhr", "Asr", "Maghrib", "Isha"]

  /** getPrayerTimes: always five entries, named Fajr, Dhuhr, Asr, Maghrib and
      Isha in that order, each carrying the calculator's instant of that name. */
  function GetPrayerTimes(provider: Provider, location: Location, day: Day): (r: seq<PrayerTimeData>)
    ensures |r| == 5
    ensures forall i :: 0 <= i < 5 ==> r[i].name == PrayerNames[i]
    ensures var t := provider(location, day);
      r[0].time == t.fajr && r[1].time == t.dhuhr && r[2].time == t.asr &&
      r[3].time == t.maghrib && r[4].time == t.isha
    ensures r[0].icon == Moon && r[1].icon == Sun && r[2].icon == Sun && r[3].icon == Moon && r[4].icon == Moon
  {
    var t := provider(location, day);
    [ PrayerTimeData("Fajr", t.fajr, Moon),
      PrayerTimeData("Dhuhr", t.dhuhr, Sun),
      PrayerTimeData("Asr", t.asr, Sun),
      PrayerTimeData("Maghrib", t.maghrib, Moon),
      PrayerTimeData("Isha", t.isha, Moon) ]
  }

  /** getSahariTime: the Fajr entry, position 0 of the day's list. */
  function GetSahariTime(provider: Provider, location: Location, day: Day): (t: Instant)
    ensures GetPrayerTimes(provider, location, day)[0].name == "Fajr"
    ensures t == provider(location, day).fajr
  {
    GetPrayerTimes(provider, location, day)[0].time
  }

  /** getIftarTime: the Maghrib entry, position 3 of the day's list. */
  function GetIftarTime(provider: Provider, location: Location, day: Day): (t: Instant)
    ensures GetPrayerTimes(provider, location, day)[3].name == "Maghrib"
    ensures t == provider(location, day).maghrib
  {
    GetPrayerTimes(provider, location, day)[3].time
  }

  /** The result of getNextPrayer when it finds one. */
  datatype NextPrayer = NextPrayer(name: string, time: Instant, index: nat)

  /** getNextPrayer: the first of the day's five prayers that is strictly later
      than `now`, or None when all five are at or before `now`. `day` is the
      local calendar day of `now`. */
  method GetNextPrayer(provider: Provider, location: Location, day: Day, now: Instant)
    returns (r: Option<NextPrayer>)
    ensures var prayers := GetPrayerTimes(provider, location, day);
      r.Some? ==>
        && r.value.index < 5
        && r.value.name == prayers[r.value.index].name
        && r.value.time == prayers[r.value.index].time
        && r.value.time > now
        && forall j :: 0 <= j < r.value.index ==> prayers[j].time <= now
    ensures var prayers := GetPrayerTimes(provider, location, day);
      r.None? <==> forall j :: 0 <= j < 5 ==> prayers[j].time <= now
  {
    var prayers := GetPrayerTimes(provider, location, day);
    for i := 0 to |prayers|
      invariant forall j :: 0 <= j < i ==> prayers[j].time <= now
    {
      if prayers[i].time > now {
        return Some(NextPrayer(prayers[i].name, prayers[i].time, i));
      }
    }
    return None;
  }

  /** The result of getTimeDiff. */
  datatype TimeDiff = TimeDiff(hours: int, minutes: int, seconds: int, total: int)

  /** getTimeDiff: the whole seconds from `now` to `target` (never negative),
      split into hours, minutes and seconds. */
  function GetTimeDiff(target: Instant, now: Instant): (d: TimeDiff)
    ensures d.total >= 0
    ensures target - now < 1000 ==> d.total == 0
    ensures target - now >= 0 ==> d.total * 1000 <= target - now < d.total * 1000 + 1000
    ensures d.hours >= 0 && 0 <= d.minutes < 60 && 0 <= d.seconds < 60
    ensures d.hours * 3600 + d.minutes * 60 + d.seconds == d.total
  {
    // Math.floor of a quotient by a positive divisor is Dafny's `/` on int.
    var diffSeconds := (target - now) / 1000;
    var total := if diffSeconds < 0 then 0 else diffSeconds;
    TimeDiff(total / 3600, (total % 3600) / 60, total % 60, total)
  }
}
