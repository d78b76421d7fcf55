/**
 * Calendar arithmetic on day numbers.  A date is the number of days since
 * 1970-01-01 (proleptic Gregorian calendar), so that dates compare and
 * subtract as integers; a timestamp is a number of seconds since
 * 1970-01-01 00:00.  The student's age needs the year, month and day of a
 * date, which `Civil` recovers.
 */
module Calendar {

  type Day = int
  type Seconds = int

  const SecondsPerDay: int := 86400
  const SecondsPerHour: int := 3600

  /** A calendar date as year, month (1-12) and day of month (1-31). */
  datatype Ymd = Ymd(year: int, month: int, day: int)

  /** Python's tuple comparison `(m1, d1) < (m2, d2)`. */
  predicate MonthDayBefore(m1: int, d1: int, m2: int, d2: int) {
    m1 < m2 || (m1 == m2 && d1 < d2)
  }

  /** Chronological order of two calendar dates (lexicographic on year, month, day). */
  predicate YmdBefore(a: Ymd, b: Ymd) {
    a.year < b.year || (a.year == b.year && MonthDayBefore(a.month, a.day, b.month, b.day))
  }

  // Both conversions count in eras of 400 years (146097 days) whose years
  // start on 1 March, so that the leap day ends the year.

  /** The year within its era (0..399) of day `doe` of the era. */
  function YearOfEra(doe: int): int {
    (doe - doe / 1460 + doe / 36524 - doe / 146096) / 365
  }

  /** The day of the era on which year `yoe` of the era starts. */
  function StartOfYearOfEra(yoe: int): int {
    365 * yoe + yoe / 4 - yoe / 100
  }

  /** The month counted from March (0..11) of day `doy` of a March-based year. */
  function MarchMonth(doy: int): int {
    (5 * doy + 2) / 153
  }

  /** The day of a March-based year on which March-based month `mp` starts. */
  function StartOfMarchMonth(mp: int): int {
    (153 * mp + 2) / 5
  }

  /** The calendar month (1..12) of March-based month `mp`. */
  function MonthOfMarchMonth(mp: int): int {
    if mp < 10 then mp + 3 else mp - 9
  }

  /** The March-based month of calendar month `m`. */
  function MarchMonthOf(m: int): int {
    if m > 2 then m - 3 else m + 9
  }

  /** The year, month and day of day number `n` (the civil-from-days conversion). */
  function Civil(n: Day): Ymd {
    var era := (n + 719468) / 146097;
    var doe := n + 719468 - era * 146097;
    var yoe := YearOfEra(doe);
    var doy := doe - StartOfYearOfEra(yoe);
    var mp := MarchMonth(doy);
    var m := MonthOfMarchMonth(mp);
    Ymd(yoe + era * 400 + (if m <= 2 then 1 else 0), m, doy - StartOfMarchMonth(mp) + 1)
  }

  /** The day number of a calendar date (the days-from-civil conversion). */
  function DaysFromCivil(date: Ymd): Day {
    var y := date.year - (if date.month <= 2 then 1 else 0);
    var era := y / 400;
    era * 146097 + StartOfYearOfEra(y - era * 400) + StartOfMarchMonth(MarchMonthOf(date.month)) + date.day - 1 - 719468
  }

  /**
   * Within century `c` of an era, four-year cycle `k` and day `t` of that
   * cycle: the year of the era is 100·c + 4·k plus the years before `t`
   * (the leap day stays in the cycle's last year), and the day of the year
   * lies in 0..365.
   */
  lemma DayOfYearInCycle(doe: int, c: int, k: int, t: int)
    requires 0 <= c < 4 && 0 <= k <= 24 && 0 <= t < 1461 && 1461 * k + t < 36524
    requires doe == 36524 * c + 1461 * k + t
    ensures var yoe := (doe - doe / 1460 + c) / 365;
            0 <= yoe < 400 && 0 <= doe - (365 * yoe + yoe / 4 - yoe / 100) <= 365
  {
    var s := 24 * c + k + t;
    var j := if t == 1460 then 3 else t / 365;
    assert doe == 1460 * (25 * c + k) + s;
    assert doe / 1460 == 25 * c + k + s / 1460;
    assert s / 1460 == 1 ==> t >= 1364;
    assert (t - s / 1460) / 365 == j;
    var yoe := (doe - doe / 1460 + c) / 365;
    assert doe - doe / 1460 + c == 365 * (100 * c + 4 * k) + (t - s / 1460);
    assert yoe == 100 * c + 4 * k + j;
    assert yoe / 4 == 25 * c + k;
    assert yoe / 100 == c;
  }

  /** The year of the era lies in 0..399 and the day of the year in 0..365. */
  lemma DayOfYearInRange(doe: int)
    requires 0 <= doe < 146097
    ensures 0 <= YearOfEra(doe) < 400 && 0 <= doe - StartOfYearOfEra(YearOfEra(doe)) <= 365
  {
    if doe == 146096 {
      assert doe / 1460 == 100 && doe / 36524 == 4 && doe / 146096 == 1;
      assert (doe - 100 + 4 - 1) / 365 == 399;
    } else {
      var c := doe / 36524;
      var r := doe - 36524 * c;
      assert doe / 146096 == 0 && c < 4 && 0 <= r < 36524;
      DayOfYearInCycle(doe, c, r / 1461, r % 1461);
    }
  }

  /** March-based month and day of a day of the year, and back. */
  lemma MonthRoundTrip(doy: int)
    requires 0 <= doy <= 365
    ensures MarchMonthOf(MonthOfMarchMonth(MarchMonth(doy))) == MarchMonth(doy)
    ensures 1 <= MonthOfMarchMonth(MarchMonth(doy)) <= 12
    ensures 0 <= doy - StartOfMarchMonth(MarchMonth(doy)) <= 30
  {
    assert MarchMonth(doy) <= 11;
  }

  /**
   * Every day number is recovered from its calendar date, and the date
   * has a month in 1..12 and a day of month in 1..31.
   */
  lemma CivilRoundTrip(n: Day)
    ensures DaysFromCivil(Civil(n)) == n
    ensures 1 <= Civil(n).month <= 12 && 1 <= Civil(n).day <= 31
  {
    var era := (n + 719468) / 146097;
    var doe := n + 719468 - era * 146097;
    DayOfYearInRange(doe);
    var yoe := YearOfEra(doe);
    var doy := doe - StartOfYearOfEra(yoe);
    MonthRoundTrip(doy);
    var mp := MarchMonth(doy);
    var m := MonthOfMarchMonth(mp);
    var date := Civil(n);
    assert date == Ymd(yoe + era * 400 + (if m <= 2 then 1 else 0), m, doy - StartOfMarchMonth(mp) + 1);
    DaysFromCivilInEra(date, era, yoe);
  }

  /** The day number of a date whose March-based year is year `yoe` of era `era`. */
  lemma DaysFromCivilInEra(date: Ymd, era: int, yoe: int)
    requires 0 <= yoe < 400
    requires date.year - (if date.month <= 2 then 1 else 0) == yoe + era * 400
    ensures DaysFromCivil(date) == era * 146097 + StartOfYearOfEra(yoe)
                                   + StartOfMarchMonth(MarchMonthOf(date.month)) + date.day - 1 - 719468
  {
    var y := yoe + era * 400;
    assert y / 400 == era;
  }

  /** Two different day numbers have different calendar dates. */
  lemma CivilInjective(n: Day, m: Day)
    requires n != m
    ensures Civil(n) != Civil(m)
  {
    CivilRoundTrip(n);
    CivilRoundTrip(m);
  }

  /** Midnight at the start of day `n`, as a timestamp. */
  function StartOfDay(n: Day): Seconds {
    n * SecondsPerDay
  }

  /**
   * Completed years between a birthday and a reference date:
   * the difference of the years, less one when the reference date's
   * (month, day) comes before the birthday's.
   */
  function YearsBetween(birth: Ymd, today: Ymd): (age: int)
    ensures YmdBefore(birth, today) || birth == today ==> age >= 0
  {
    today.year - birth.year
      - (if MonthDayBefore(today.month, today.day, birth.month, birth.day) then 1 else 0)
  }

  /**
   * The age is the number of anniversaries reached: the `age`-th
   * anniversary of the birth date is not after `today`, the next one is.
   */
  lemma YearsBetweenCountsAnniversaries(birth: Ymd, today: Ymd)
    ensures var age := YearsBetween(birth, today);
            !YmdBefore(today, Ymd(birth.year + age, birth.month, birth.day))
            && YmdBefore(today, Ymd(birth.year + age + 1, birth.month, birth.day))
  {
  }

  /** Age in years at `today` of someone born on `birth` (both day numbers). */
  function Age(birth: Day, today: Day): int {
    YearsBetween(Civil(birth), Civil(today))
  }

  /** Day 0 is 1970-01-01. */
  lemma CivilEpoch()
    ensures Civil(0) == Ymd(1970, 1, 1)
  {
    assert 719468 / 146097 == 4;
    assert 719468 - 4 * 146097 == 135080;
    assert 135080 / 1460 == 92 && 135080 / 36524 == 3 && 135080 / 146096 == 0;
    assert 134991 / 365 == 369;
    assert 369 / 4 == 92 && 369 / 100 == 3;
    assert (5 * 306 + 2) / 153 == 10;
    assert (153 * 10 + 2) / 5 == 306;
  }
}
