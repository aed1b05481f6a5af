/**
 * The day resolver (`getDaysSinceStart`): the whole-day difference between
 * today's calendar date and the launch date 2025-04-24, both taken as UTC
 * midnights, clamped to the campaign's day indices 0..364.
 *
 * `DaysSinceStart` is the resolver with the launch date's own components.
 * `DaysSinceStartAsWritten` follows app.js exactly: it reads the launch
 * instant back through the local-time getters, so the launch date shifts to
 * 2025-04-23 for every time zone west of UTC (see README, Findings).
 */
module DayResolver {
  import opened Calendar

  /** `START_DATE`: April 24, 2025 (JavaScript month 3). */
  const StartDate: CivilDate := CivilDate(2025, 3, 24)
  const LastDayIndex: int := 364

  /** `Math.max(0, Math.min(364, dayDiff))`. */
  function ClampDay(dayDiff: int): (r: int)
    ensures 0 <= r <= LastDayIndex
    ensures dayDiff <= 0 ==> r == 0
    ensures dayDiff >= LastDayIndex ==> r == LastDayIndex
    ensures 0 <= dayDiff <= LastDayIndex ==> r == dayDiff
  {
    var upper := if LastDayIndex < dayDiff then LastDayIndex else dayDiff;
    if 0 < upper then upper else 0
  }

  /**
   * `Math.floor(timeDiff / (1000 * 60 * 60 * 24))`. Both time values are
   * multiples of a day here, so the JavaScript division is exact.
   */
  function WholeDays(timeDiff: int): (days: int)
    ensures timeDiff % MsPerDay == 0 ==> days * MsPerDay == timeDiff
  {
    timeDiff / MsPerDay
  }

  /** The day index for the calendar date `today`, launch date read as 2025-04-24. */
  function DaysSinceStart(today: CivilDate): (r: int)
    ensures 0 <= r <= LastDayIndex
  {
    var todayUtc := DateUtc(today.year, today.month, today.day);
    var startUtc := DateUtc(StartDate.year, StartDate.month, StartDate.day);
    ClampDay(WholeDays(todayUtc - startUtc))
  }

  /** The local day number of the instant `ms` at `offsetMinutes` east of UTC. */
  function LocalDay(ms: int, offsetMinutes: int): int {
    (ms + offsetMinutes * MsPerMinute) / MsPerDay
  }

  /**
   * `getDaysSinceStart` as app.js writes it: `START_DATE` is the instant
   * 2025-04-24T00:00Z, and its year, month and date are read with the
   * local-time getters before `Date.UTC` turns them back into a UTC midnight.
   * `Date.UTC(getFullYear(t), getMonth(t), getDate(t))` is the UTC midnight
   * of the local day of `t`, so that value is `LocalDay(t, offset) * MsPerDay`.
   */
  function DaysSinceStartAsWritten(today: CivilDate, offsetMinutes: int): (r: int)
    ensures 0 <= r <= LastDayIndex
  {
    var startInstant := DateUtc(StartDate.year, StartDate.month, StartDate.day);
    var todayUtc := DateUtc(today.year, today.month, today.day);
    var startUtc := LocalDay(startInstant, offsetMinutes) * MsPerDay;
    ClampDay(WholeDays(todayUtc - startUtc))
  }

  lemma WholeDaysOfDayNumbers(a: int, b: int)
    ensures WholeDays(a * MsPerDay - b * MsPerDay) == a - b
  {
    assert a * MsPerDay - b * MsPerDay == (a - b) * MsPerDay;
  }

  /** The resolver is the clamped difference of the two day numbers. */
  lemma DaysSinceStartIsClampedDifference(today: CivilDate)
    requires ValidDate(today)
    ensures DaysSinceStart(today) == ClampDay(DayNumber(today) - DayNumber(StartDate))
  {
    UtcDayOfValidDate(today);
    UtcDayOfValidDate(StartDate);
    WholeDaysOfDayNumbers(DayNumber(today), DayNumber(StartDate));
  }

  /** Any date on or before the launch date is day 0. */
  lemma OnOrBeforeStartIsDayZero(today: CivilDate)
    requires ValidDate(today)
    requires !DateBefore(StartDate, today)
    ensures DaysSinceStart(today) == 0
  {
    DayNumberOrder(StartDate, today);
    DaysSinceStartIsClampedDifference(today);
  }

  /** The date `k` days after launch, for `k` in 0..364, is day `k`. */
  lemma CountsWholeDays(k: nat)
    requires k <= LastDayIndex
    ensures DaysSinceStart(AddDays(StartDate, k)) == k
  {
    DayNumberAddDays(StartDate, k);
    DaysSinceStartIsClampedDifference(AddDays(StartDate, k));
  }

  /** Any date 364 or more days after launch is day 364. */
  lemma LateDatesAreLastDay(today: CivilDate)
    requires ValidDate(today)
    requires !DateBefore(today, AddDays(StartDate, LastDayIndex))
    ensures DaysSinceStart(today) == LastDayIndex
  {
    var last := AddDays(StartDate, LastDayIndex);
    DayNumberAddDays(StartDate, LastDayIndex);
    DayNumberOrder(today, last);
    DaysSinceStartIsClampedDifference(today);
  }

  /** Ten days after launch, 2025-05-04, is day 10 (May is JavaScript month 4). */
  lemma TenDaysAfterStart()
    ensures AddDays(StartDate, 10) == CivilDate(2025, 4, 4)
    ensures DaysSinceStart(CivilDate(2025, 4, 4)) == 10
  {
    CountsWholeDays(10);
  }

  /** At UTC or east of it, the code as written agrees with the launch date. */
  lemma AsWrittenAgreesEastOfUtc(today: CivilDate, offsetMinutes: int)
    requires 0 <= offsetMinutes < 1440
    ensures DaysSinceStartAsWritten(today, offsetMinutes) == DaysSinceStart(today)
  {
    var s := UtcDay(StartDate.year, StartDate.month, StartDate.day);
    assert LocalDay(s * MsPerDay, offsetMinutes) == s;
  }

  /** West of UTC, the code as written counts one day more than elapsed. */
  lemma AsWrittenAheadWestOfUtc(today: CivilDate, offsetMinutes: int)
    requires ValidDate(today)
    requires -1440 < offsetMinutes < 0
    ensures DaysSinceStartAsWritten(today, offsetMinutes)
         == ClampDay(DayNumber(today) - DayNumber(StartDate) + 1)
  {
    UtcDayOfValidDate(today);
    UtcDayOfValidDate(StartDate);
    var s := DayNumber(StartDate);
    assert LocalDay(s * MsPerDay, offsetMinutes) == s - 1;
    WholeDaysOfDayNumbers(DayNumber(today), s - 1);
  }

  /** In Brasília time (UTC-3) the launch date itself comes out as day 1, not day 0. */
  lemma AsWrittenLaunchDayInBrazil()
    ensures DaysSinceStartAsWritten(StartDate, -180) == 1
    ensures DaysSinceStart(StartDate) == 0
  {
    AsWrittenAheadWestOfUtc(StartDate, -180);
    DaysSinceStartIsClampedDifference(StartDate);
  }
}
