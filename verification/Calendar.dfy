/** The part of Go's `time` package that the history store relies on: civil
    dates in UTC, their order as instants, and `AddDate`. A month is numbered
    12 * year + (month - 1), so consecutive months are consecutive integers and
    the number doubles as the name of a monthly log file. */
module Calendar {

  const EPOCH_MONTH := 12 * 1970 // January 1970
  const DAY_SECONDS := 86400
  const SECOND := 1_000_000_000 // nanoseconds

  predicate IsLeap(year: int) {
    year % 4 == 0 && (year % 100 != 0 || year % 400 == 0)
  }

  function Year(month: int): int { month / 12 }

  function DaysIn(month: int): (d: int)
    ensures 28 <= d <= 31
  {
    match month % 12
    case 1 => if IsLeap(Year(month)) then 29 else 28
    case 3 | 5 | 8 | 10 => 30
    case _ => 31
  }

  /** The number of days from 1970-01-01 to the first day of a month. */
  function FirstDay(month: int): int
    decreases if month >= EPOCH_MONTH then month - EPOCH_MONTH else EPOCH_MONTH - month
  {
    if month == EPOCH_MONTH then 0
    else if month > EPOCH_MONTH then FirstDay(month - 1) + DaysIn(month - 1)
    else FirstDay(month + 1) - DaysIn(month)
  }

  /** The Unix time of the first second of a month. */
  function MonthStart(month: int): int {
    FirstDay(month) * DAY_SECONDS
  }

  /** Months follow one another without gaps. */
  lemma NextMonth(month: int)
    ensures MonthStart(month + 1) == MonthStart(month) + DaysIn(month) * DAY_SECONDS
  {
    assert FirstDay(month + 1) == FirstDay(month) + DaysIn(month);
  }

  /** The days of a common year before each of its months. */
  function DaysBefore(place: int): int
    requires 0 <= place <= 12
  {
    [0, 31, 59, 90, 120, 151, 181, 212, 243, 273, 304, 334, 365][place]
  }

  /** The leap years before a year, counted from year 1. */
  function LeapsBefore(year: int): int {
    (year - 1) / 4 - (year - 1) / 100 + (year - 1) / 400
  }

  /** The first day of a month in closed form: 365 days a year, one more in each leap
      year, and 1970-01-01 as day 0. */
  function Gregorian(year: int, place: int): int
    requires 0 <= place < 12
  {
    365 * (year - 1970) + LeapsBefore(year) - LeapsBefore(1970) + DaysBefore(place)
    + if place >= 2 && year % 4 == 0 && (year % 100 != 0 || year % 400 == 0) then 1 else 0
  }

  lemma GregorianStep(month: int)
    ensures Gregorian(Year(month + 1), (month + 1) % 12) == Gregorian(Year(month), month % 12) + DaysIn(month)
  {
    var year, place := Year(month), month % 12;
    assert month == 12 * year + place;
    if place == 11 {
      assert Year(month + 1) == year + 1 && (month + 1) % 12 == 0;
      LeapStep(year);
      hide LeapsBefore;
    } else {
      assert Year(month + 1) == year && (month + 1) % 12 == place + 1;
      hide LeapsBefore;
      WithinStep(year, place);
    }
  }

  lemma WithinStep(year: int, place: int)
    requires 0 <= place < 11
    ensures Gregorian(year, place + 1) == Gregorian(year, place) + DaysIn(12 * year + place)
  {
    hide LeapsBefore;
    assert (12 * year + place) % 12 == place && Year(12 * year + place) == year;
  }

  lemma LeapStep(year: int)
    ensures LeapsBefore(year + 1) == LeapsBefore(year) + if IsLeap(year) then 1 else 0
  {
    QuotientStep(year, 4);
    QuotientStep(year, 100);
    QuotientStep(year, 400);
    if year % 400 == 0 { Hundreds(year, year / 400); }
    if year % 100 == 0 { Fours(year, year / 100); }
  }

  lemma Hundreds(year: int, q: int)
    requires year == 400 * q
    ensures year % 100 == 0
  {
    assert year == 100 * (4 * q);
  }

  lemma Fours(year: int, q: int)
    requires year == 100 * q
    ensures year % 4 == 0
  {
    assert year == 4 * (25 * q);
  }

  lemma QuotientStep(n: int, d: int)
    requires d in {4, 100, 400}
    ensures n / d == (n - 1) / d + if n % d == 0 then 1 else 0
  {
  }

  lemma {:induction false} FirstDayIsGregorian(month: int)
    ensures FirstDay(month) == Gregorian(Year(month), month % 12)
    decreases if month >= EPOCH_MONTH then month - EPOCH_MONTH else EPOCH_MONTH - month
  {
    hide Gregorian, DaysIn;
    if month > EPOCH_MONTH {
      FirstDayIsGregorian(month - 1);
      GregorianStep(month - 1);
    } else if month < EPOCH_MONTH {
      FirstDayIsGregorian(month + 1);
      GregorianStep(month);
    } else {
      GregorianEpoch();
    }
  }

  lemma GregorianEpoch()
    ensures Gregorian(Year(EPOCH_MONTH), EPOCH_MONTH % 12) == 0
  {
  }

  lemma {:induction false} WithinAYear(year: int, a: int, b: int)
    requires 0 <= a <= b <= 12
    ensures MonthStart(12 * year + b) - MonthStart(12 * year + a) >= DAY_SECONDS * (DaysBefore(b) - DaysBefore(a))
    decreases b - a
  {
    hide FirstDay, MonthStart;
    if a < b {
      WithinAYear(year, a, b - 1);
      NextMonth(12 * year + b - 1);
      assert (12 * year + b - 1) % 12 == b - 1;
      assert DaysIn(12 * year + b - 1) >= DaysBefore(b) - DaysBefore(b - 1);
    }
  }

  /** A year is 365 days or more, from any month. */
  lemma YearIsLong(month: int)
    ensures MonthStart(month - 12) + 365 * DAY_SECONDS <= MonthStart(month)
  {
    var year, place := Year(month), month % 12;
    WithinAYear(year - 1, place, 12);
    WithinAYear(year, 0, place);
    hide FirstDay, MonthStart;
    assert 12 * (year - 1) + 12 == 12 * year && 12 * (year - 1) + place == month - 12;
  }

  lemma {:induction false} MonthsIncrease(a: int, b: int)
    requires a < b
    ensures MonthStart(a) + 28 * DAY_SECONDS <= MonthStart(b)
    decreases b - a
  {
    NextMonth(b - 1);
    if a < b - 1 {
      MonthsIncrease(a, b - 1);
    }
  }

  /** Whether a Unix time lies in the given month. */
  predicate InMonth(ts: int, month: int) {
    MonthStart(month) <= ts < MonthStart(month + 1)
  }

  lemma MonthIsUnique(ts: int, a: int, b: int)
    requires InMonth(ts, a) && InMonth(ts, b)
    ensures a == b
  {
    if a + 1 <= b {
      if a + 1 < b { MonthsIncrease(a + 1, b); }
    } else if b + 1 <= a {
      if b + 1 < a { MonthsIncrease(b + 1, a); }
    }
  }

  /** The month a Unix time lies in. */
  function MonthOf(ts: int): (month: int)
    ensures InMonth(ts, month)
  {
    if ts >= MonthStart(EPOCH_MONTH) then MonthFrom(ts, EPOCH_MONTH) else MonthBefore(ts, EPOCH_MONTH)
  }

  function MonthFrom(ts: int, month: int): (r: int)
    requires MonthStart(month) <= ts
    ensures InMonth(ts, r)
    decreases ts - MonthStart(month)
  {
    NextMonth(month);
    if ts < MonthStart(month + 1) then month else MonthFrom(ts, month + 1)
  }

  function MonthBefore(ts: int, month: int): (r: int)
    requires ts < MonthStart(month)
    ensures InMonth(ts, r)
    decreases MonthStart(month) - ts
  {
    NextMonth(month - 1);
    if MonthStart(month - 1) <= ts then month - 1 else MonthBefore(ts, month - 1)
  }

  // ---------------------------------------------------------------------
  // Civil times
  // ---------------------------------------------------------------------

  /** A UTC civil time; `nanos` counts from midnight. */
  datatype Time = Time(month: int, day: int, nanos: int) {
    ghost predicate Valid() {
      1 <= day <= DaysIn(month) && 0 <= nanos < DAY_SECONDS * SECOND
    }

    /** Nanoseconds since the Unix epoch. */
    function Instant(): int {
      (MonthStart(month) + (day - 1) * DAY_SECONDS) * SECOND + nanos
    }

    /** Go's AddDate(0, n, 0): the day of month is kept, and a day the target
        month does not have spills into the month after it. */
    function AddMonths(n: int): (t: Time)
      requires Valid()
      ensures t.Valid()
    {
      if day <= DaysIn(month + n) then Time(month + n, day, nanos)
      else Time(month + n + 1, day - DaysIn(month + n), nanos)
    }

    /** Go's Add for less than a day of seconds. */
    function AddSeconds(n: nat): (t: Time)
      requires Valid() && n < DAY_SECONDS
      ensures t.Valid() && t.Instant() == Instant() + n * SECOND
    {
      NextMonth(month);
      var sum := nanos + n * SECOND;
      if sum < DAY_SECONDS * SECOND then Time(month, day, sum)
      else if day < DaysIn(month) then Time(month, day + 1, sum - DAY_SECONDS * SECOND)
      else Time(month + 1, 1, sum - DAY_SECONDS * SECOND)
    }

    /** Go's AddDate(n, 0, 0). */
    function AddYears(n: int): (t: Time)
      requires Valid()
      ensures t.Valid()
    {
      AddMonths(12 * n)
    }
  }

  /** An instant lies between the first second of its month and the next. */
  lemma InstantInMonth(t: Time)
    requires t.Valid()
    ensures MonthStart(t.month) * SECOND <= t.Instant() < MonthStart(t.month + 1) * SECOND
  {
    NextMonth(t.month);
  }

  /** Whatever day spills over: AddDate counts the days and the time of day from the
      first of the target month. */
  lemma AddMonthsIsExact(t: Time, n: int)
    requires t.Valid()
    ensures t.AddMonths(n).Instant() - MonthStart(t.month + n) * SECOND == t.Instant() - MonthStart(t.month) * SECOND
  {
    NextMonth(t.month + n);
  }

  /** Later months are later instants. */
  lemma LaterMonth(t: Time, u: Time)
    requires t.Valid() && u.Valid() && t.month < u.month
    ensures t.Instant() < u.Instant()
  {
    InstantInMonth(t);
    InstantInMonth(u);
    if t.month + 1 < u.month { MonthsIncrease(t.month + 1, u.month); }
  }

  /** Go's time.Unix(ts, 0).UTC(). */
  function FromUnix(ts: int): (t: Time)
    ensures t.Valid() && t.Instant() == ts * SECOND && t.month == MonthOf(ts)
    ensures t.nanos % SECOND == 0
  {
    var month := MonthOf(ts);
    var offset := ts - MonthStart(month);
    NextMonth(month);
    var day := offset / DAY_SECONDS;
    Time(month, day + 1, offset % DAY_SECONDS * SECOND)
  }

  /** Equal instants are equal civil times, so FromUnix is the only inverse. */
  lemma InstantIsInjective(t: Time, u: Time)
    requires t.Valid() && u.Valid() && t.Instant() == u.Instant()
    ensures t == u
  {
    if t.month < u.month {
      LaterMonth(t, u);
    } else if u.month < t.month {
      LaterMonth(u, t);
    }
  }
}
