/** The part of Python's `datetime` library the reminder code stands on:
    naive wall-clock date-times in the proleptic Gregorian calendar with
    years 1 to 9999, their day ordinals, and adding whole days or one hour,
    which raises `OverflowError` (here `None`) past the last representable
    day. */
module Calendar {
  import opened Wrappers

  const MinYear: int := 1
  const MaxYear: int := 9999
  const MicrosPerSecond: int := 1000000
  const MicrosPerHour: int := 3600 * MicrosPerSecond
  const MicrosPerDay: int := 24 * MicrosPerHour

  /** Microseconds since 0001-01-01T00:00:00 UTC: an aware instant. */
  type Instant = int

  predicate IsLeap(year: int) {
    year % 4 == 0 && (year % 100 != 0 || year % 400 == 0)
  }

  /** The month-length table of the Gregorian calendar. */
  function MonthLength(year: int, month: int): (r: int)
    requires 1 <= month <= 12
    ensures 28 <= r <= 31
  {
    if month == 2 then (if IsLeap(year) then 29 else 28)
    else if month == 4 || month == 6 || month == 9 || month == 11 then 30
    else 31
  }

  function YearLength(year: int): int {
    if IsLeap(year) then 366 else 365
  }

  datatype DateTime = DateTime(year: int, month: int, day: int, hour: int,
                               minute: int, second: int, microsecond: int)
  {
    /** The range checks of the `datetime` constructor. */
    predicate Valid() {
      && MinYear <= year <= MaxYear
      && 1 <= month <= 12
      && 1 <= day <= MonthLength(year, month)
      && 0 <= hour < 24 && 0 <= minute < 60 && 0 <= second < 60
      && 0 <= microsecond < MicrosPerSecond
    }

    /** Same hour, minute, second and microsecond. */
    predicate SameTimeOfDay(other: DateTime) {
      hour == other.hour && minute == other.minute
      && second == other.second && microsecond == other.microsecond
    }
  }

  /** A date-time the `datetime` library can represent. */
  type Civil = d: DateTime | d.Valid() witness DateTime(1, 1, 1, 0, 0, 0, 0)

  /** Days in the years before `year`, counting from year 1. */
  function DaysBeforeYear(year: int): (r: nat)
    decreases year
  {
    if year <= MinYear then 0 else DaysBeforeYear(year - 1) + YearLength(year - 1)
  }

  /** Days in the months of `year` before `month`. */
  function DaysBeforeMonth(year: int, month: int): (r: nat)
    requires 1 <= month <= 13
    decreases month
  {
    if month == 1 then 0 else DaysBeforeMonth(year, month - 1) + MonthLength(year, month - 1)
  }

  lemma YearIsTwelveMonths(year: int)
    ensures DaysBeforeMonth(year, 13) == YearLength(year)
  {
    assert DaysBeforeMonth(year, 2) == 31;
    assert DaysBeforeMonth(year, 3) == 31 + MonthLength(year, 2);
    assert DaysBeforeMonth(year, 7) == DaysBeforeMonth(year, 3) + 122;
    assert DaysBeforeMonth(year, 13) == DaysBeforeMonth(year, 7) + 184;
  }

  /** Python's `date.toordinal()`: 0001-01-01 is day 1. */
  function Ordinal(d: Civil): int {
    DaysBeforeYear(d.year) + DaysBeforeMonth(d.year, d.month) + d.day
  }

  /** The wall-clock reading as microseconds, on the same scale as `Instant`. */
  function WallMicros(d: Civil): int {
    (Ordinal(d) - 1) * MicrosPerDay + d.hour * MicrosPerHour
    + (d.minute * 60 + d.second) * MicrosPerSecond + d.microsecond
  }

  predicate IsLastDay(d: DateTime) {
    d.year == MaxYear && d.month == 12 && d.day == 31
  }

  predicate IsFirstDay(d: DateTime) {
    d.year == MinYear && d.month == 1 && d.day == 1
  }

  /** `d + timedelta(days=1)`. */
  function NextDay(d: Civil): (r: Option<Civil>)
    ensures r.None? <==> IsLastDay(d)
    ensures r.Some? ==> Ordinal(r.value) == Ordinal(d) + 1 && r.value.SameTimeOfDay(d)
  {
    if d.day < MonthLength(d.year, d.month) then
      Some(d.(day := d.day + 1))
    else if d.month < 12 then
      Some(d.(month := d.month + 1, day := 1))
    else if d.year < MaxYear then
      YearIsTwelveMonths(d.year);
      Some(d.(year := d.year + 1, month := 1, day := 1))
    else
      None
  }

  /** `d - timedelta(days=1)`. */
  function PrevDay(d: Civil): (r: Option<Civil>)
    ensures r.None? <==> IsFirstDay(d)
    ensures r.Some? ==> Ordinal(r.value) + 1 == Ordinal(d) && r.value.SameTimeOfDay(d)
  {
    if d.day > 1 then Some(d.(day := d.day - 1))
    else if d.month > 1 then Some(EndOfPrevMonth(d))
    else if d.year > MinYear then Some(EndOfPrevYear(d))
    else None
  }

  /** The last day of the month before `d`'s, which starts a later month. */
  function EndOfPrevMonth(d: Civil): (e: Civil)
    requires d.day == 1 && d.month > 1
    ensures e.year == d.year && e.month == d.month - 1 && e.day == MonthLength(d.year, d.month - 1)
    ensures Ordinal(e) + 1 == Ordinal(d) && e.SameTimeOfDay(d)
  {
    d.(month := d.month - 1, day := MonthLength(d.year, d.month - 1))
  }

  /** December 31 of the year before `d`'s, which starts on January 1. */
  function EndOfPrevYear(d: Civil): (e: Civil)
    requires d.day == 1 && d.month == 1 && d.year > MinYear
    ensures e.year == d.year - 1 && e.month == 12 && e.day == 31
    ensures Ordinal(e) + 1 == Ordinal(d) && e.SameTimeOfDay(d)
  {
    var e := d.(year := d.year - 1, month := 12, day := 31);
    assert e.Valid();
    YearIsTwelveMonths(d.year - 1);
    e
  }

  /** `d + timedelta(days=n)`. */
  function AddDays(d: Civil, n: nat): (r: Option<Civil>)
    decreases n
  {
    if n == 0 then Some(d)
    else match NextDay(d)
      case None => None
      case Some(e) => AddDays(e, n - 1)
  }

  /** `d + timedelta(hours=1)`. */
  function AddHour(d: Civil): (r: Option<Civil>)
  {
    if d.hour < 23 then Some(d.(hour := d.hour + 1))
    else NextDay(d.(hour := 0))
  }

  /** Adding `n` days moves the ordinal by exactly `n` and keeps the time of day. */
  lemma {:induction false} AddDaysAdvancesOrdinal(d: Civil, n: nat)
    ensures AddDays(d, n).Some? ==>
      Ordinal(AddDays(d, n).value) == Ordinal(d) + n && AddDays(d, n).value.SameTimeOfDay(d)
    decreases n
  {
    if n > 0 && AddDays(d, n).Some? {
      var e := NextDay(d).value;
      AddDaysAdvancesOrdinal(e, n - 1);
    }
  }

  /** Adding `n` days fails only when the result would pass 9999-12-31. */
  lemma {:induction false} AddDaysFailsOnlyPastLastDay(d: Civil, n: nat)
    requires AddDays(d, n).None?
    ensures n > 0
    ensures exists k: nat :: k < n && IsLastDayAfter(d, k)
    decreases n
  {
    if NextDay(d).None? {
      assert IsLastDayAfter(d, 0);
    } else {
      var e := NextDay(d).value;
      AddDaysFailsOnlyPastLastDay(e, n - 1);
      var k: nat :| k < n - 1 && IsLastDayAfter(e, k);
      assert AddDays(d, k + 1) == AddDays(e, k);
      assert IsLastDayAfter(d, k + 1);
    }
  }

  /** Once 9999-12-31 is reached within the first `n - 1` days, adding `n` days fails. */
  lemma {:induction false} PastLastDayFails(d: Civil, n: nat, k: nat)
    requires k < n && IsLastDayAfter(d, k)
    ensures AddDays(d, n).None?
    decreases k
  {
    if k > 0 {
      var e := NextDay(d).value;
      assert AddDays(d, k) == AddDays(e, k - 1);
      PastLastDayFails(e, n - 1, k - 1);
    }
  }

  /** Adding `n` days fails exactly when 9999-12-31 comes within the first `n - 1` days. */
  lemma AddDaysFailsIffPastLastDay(d: Civil, n: nat)
    ensures AddDays(d, n).None? <==> exists k: nat :: k < n && IsLastDayAfter(d, k)
  {
    if AddDays(d, n).None? {
      AddDaysFailsOnlyPastLastDay(d, n);
    }
    if k: nat :| k < n && IsLastDayAfter(d, k) {
      PastLastDayFails(d, n, k);
    }
  }

  /** `k` days after `d` is the last representable day. */
  predicate IsLastDayAfter(d: Civil, k: nat) {
    AddDays(d, k).Some? && IsLastDay(AddDays(d, k).value)
  }

  /** Adding one hour moves the wall clock forward by exactly one hour. */
  lemma AddHourAdvancesOneHour(d: Civil)
    ensures AddHour(d).Some? ==> WallMicros(AddHour(d).value) == WallMicros(d) + MicrosPerHour
  {
  }

  /** Adding one hour fails only in the last hour of 9999-12-31. */
  lemma AddHourFailsOnlyInLastHour(d: Civil)
    ensures AddHour(d).None? <==> IsLastDay(d) && d.hour == 23
  {
  }
}
