/** The scheduling arithmetic of app/reminders.py: reading an ISO local time,
    converting a local time to UTC, calendar-month arithmetic with the day
    clamped to the end of the target month, and the next occurrence of a
    recurring reminder.

    The IANA timezone database is not modelled: a `Zones` value stands for
    it, answering whether a zone name exists and converting between UTC
    instants and a zone's wall clock. */
module Reminders {
  import opened Wrappers
  import opened Calendar

  /** What `datetime.fromisoformat` produced: a wall-clock reading, aware
      when the text carried a UTC offset (in microseconds). */
  datatype Stamp = Stamp(wall: Civil, utcOffset: Option<int>)

  /** The timezone database. `known(name)` is whether `ZoneInfo(name)`
      succeeds; `toLocal` is `instant.astimezone(zone)`; `toUtc` is
      `wall.replace(tzinfo=zone).astimezone(timezone.utc)`. The conversions
      answer `None` where the `datetime` library overflows. */
  datatype Zones = Zones(
    known: string -> bool,
    toLocal: (string, Instant) -> Option<Civil>,
    toUtc: (string, Civil) -> Option<Instant>)

  datatype ScheduleError =
    | UnknownTimezone   // ZoneInfo raised: no such zone
    | OutOfRange        // the datetime library raised ValueError or OverflowError

  /** One past the last microsecond of 9999-12-31: `date.max.toordinal()` is 3652059. */
  const InstantLimit: int := 3652059 * MicrosPerDay

  // ---------------------------------------------------------------------
  // parse_datetime_local and to_utc
  // ---------------------------------------------------------------------

  /** `parse_datetime_local`: empty text gives `None`; otherwise the parser's
      verdict, with a rejected text also `None`; nothing raises. */
  function ParseDatetimeLocal(value: string, fromIsoFormat: string -> Option<Stamp>): (r: Option<Stamp>)
    ensures value == "" ==> r.None?
    ensures r.Some? ==> value != "" && fromIsoFormat(value) == r
    ensures value != "" && fromIsoFormat(value).None? ==> r.None?
    ensures value != "" ==> r == fromIsoFormat(value)
  {
    if value == "" then None else fromIsoFormat(value)
  }

  /** `to_utc`: the zone is looked up first, even for an aware input; a naive
      input is read as wall-clock time in that zone, an aware one keeps its
      own offset. */
  function ToUtc(zones: Zones, local: Stamp, tzName: string): (r: Result<Instant, ScheduleError>)
    ensures !zones.known(tzName) ==> r == Err(UnknownTimezone)
    ensures zones.known(tzName) && local.utcOffset.None? ==>
      (r.Ok? <==> zones.toUtc(tzName, local.wall).Some?)
      && (r.Ok? ==> Some(r.value) == zones.toUtc(tzName, local.wall))
    ensures zones.known(tzName) && local.utcOffset.Some? ==>
      (r.Ok? <==> 0 <= WallMicros(local.wall) - local.utcOffset.value < InstantLimit)
      && (r.Err? ==> r.error == OutOfRange)
    ensures zones.known(tzName) && local.utcOffset.Some? && r.Ok? ==>
      r.value + local.utcOffset.value == WallMicros(local.wall)
  {
    if !zones.known(tzName) then Err(UnknownTimezone)
    else match local.utcOffset
      case None =>
        (match zones.toUtc(tzName, local.wall)
         case None => Err(OutOfRange)
         case Some(t) => Ok(t))
      case Some(offset) =>
        var t := WallMicros(local.wall) - offset;
        if 0 <= t < InstantLimit then Ok(t) else Err(OutOfRange)
  }

  /** An aware input converts to the same instant whichever known zone is named. */
  lemma AwareStampIgnoresZone(zones: Zones, local: Stamp, a: string, b: string)
    requires local.utcOffset.Some?
    requires zones.known(a) && zones.known(b)
    ensures ToUtc(zones, local, a) == ToUtc(zones, local, b)
  {
  }

  // ---------------------------------------------------------------------
  // _days_in_month and add_months
  // ---------------------------------------------------------------------

  /** `_days_in_month` as written: the day-of-month of the day before the
      first of the next month, where building `datetime(year + 1, 1, 1)` for a
      December raises once `year + 1` passes 9999. */
  function DaysInMonthAsWritten(year: int, month: int): (r: Option<int>)
    ensures 1 <= month <= 12 ==>
      (r.Some? <==> MinYear <= year <= MaxYear && !(year == MaxYear && month == 12))
    ensures 1 <= month <= 12 && r.Some? ==> r.value == MonthLength(year, month)
  {
    var first := if month == 12 then DateTime(year + 1, 1, 1, 0, 0, 0, 0)
                 else DateTime(year, month + 1, 1, 0, 0, 0, 0);
    if !first.Valid() then None
    else match PrevDay(first)
      case None => None
      case Some(last) => Some(last.day)
  }

  /** `_days_in_month` as evidently intended: the length of the month in the
      Gregorian calendar, including December 9999. */
  function DaysInMonth(year: int, month: int): (r: int)
    requires 1 <= month <= 12
    ensures 28 <= r <= 31
    ensures month == 2 ==> (r == 29 <==> IsLeap(year)) && (r == 28 <==> !IsLeap(year))
    ensures month in {4, 6, 9, 11} ==> r == 30
    ensures month in {1, 3, 5, 7, 8, 10, 12} ==> r == 31
    ensures DaysInMonthAsWritten(year, month).Some? ==> DaysInMonthAsWritten(year, month).value == r
  {
    MonthLength(year, month)
  }

  /** Months elapsed since January of year 0: `year * 12 + (month - 1)`. */
  function MonthIndex(d: DateTime): int {
    d.year * 12 + d.month - 1
  }

  function Min(a: int, b: int): int {
    if a <= b then a else b
  }

  /** The year `add_months` computes: Python's `//` by 12 floors, as Dafny's
      `/` does for a positive divisor. */
  function TargetYear(d: DateTime, months: int): int {
    d.year + (d.month - 1 + months) / 12
  }

  function TargetMonth(d: DateTime, months: int): int {
    (d.month - 1 + months) % 12 + 1
  }

  /** `add_months` as written, using `_days_in_month` as written. */
  function AddMonthsAsWritten(d: Civil, months: int): (r: Option<Civil>)
    ensures r.Some? ==> r == AddMonths(d, months)
    ensures r.None? <==>
      AddMonths(d, months).None? || (TargetYear(d, months) == MaxYear && TargetMonth(d, months) == 12)
  {
    var year := TargetYear(d, months);
    var month := TargetMonth(d, months);
    match DaysInMonthAsWritten(year, month)
    case None => None
    case Some(length) =>
      var moved := d.(year := year, month := month, day := Min(d.day, length));
      if moved.Valid() then Some(moved) else None
  }

  /** `add_months` with the corrected `_days_in_month`: the same time of day
      `months` calendar months later, the day clamped to the target month's
      length; `None` when the target year leaves 1..9999 (`replace` raises). */
  function AddMonths(d: Civil, months: int): (r: Option<Civil>)
    ensures r.Some? <==> MinYear * 12 <= MonthIndex(d) + months < (MaxYear + 1) * 12
    ensures r.Some? ==> MonthIndex(r.value) == MonthIndex(d) + months
    ensures r.Some? ==> r.value.day == Min(d.day, DaysInMonth(r.value.year, r.value.month))
    ensures r.Some? ==> r.value.SameTimeOfDay(d)
  {
    var year := TargetYear(d, months);
    var month := TargetMonth(d, months);
    if MinYear <= year <= MaxYear then
      Some(d.(year := year, month := month, day := Min(d.day, DaysInMonth(year, month))))
    else
      None
  }

  /** The two versions differ exactly when the target is December 9999. */
  lemma AddMonthsAsWrittenAgrees(d: Civil, months: int)
    ensures TargetYear(d, months) == MaxYear && TargetMonth(d, months) == 12 ==>
      AddMonthsAsWritten(d, months).None? && AddMonths(d, months).Some?
    ensures !(TargetYear(d, months) == MaxYear && TargetMonth(d, months) == 12) ==>
      AddMonthsAsWritten(d, months) == AddMonths(d, months)
  {
  }

  /** The input that shows the discrepancy: 9999-11-15 plus one month. */
  lemma AddMonthsAsWrittenFailsIntoLastDecember()
    ensures AddMonthsAsWritten(DateTime(9999, 11, 15, 8, 0, 0, 0), 1).None?
    ensures AddMonths(DateTime(9999, 11, 15, 8, 0, 0, 0), 1) == Some(DateTime(9999, 12, 15, 8, 0, 0, 0))
    ensures DaysInMonthAsWritten(9999, 12).None? && DaysInMonth(9999, 12) == 31
  {
    var d := DateTime(9999, 11, 15, 8, 0, 0, 0);
    assert d.Valid();
    assert TargetYear(d, 1) == 9999 && TargetMonth(d, 1) == 12;
    AddMonthsAsWrittenAgrees(d, 1);
    assert DaysInMonth(9999, 12) == 31;
    assert Min(15, 31) == 15;
  }

  /** Month arithmetic clamps to the end of the month: January 31 plus one
      month is the last day of February, in leap and common years. */
  lemma EndOfJanuaryPlusOneMonth()
    ensures AddMonths(DateTime(2023, 1, 31, 12, 0, 0, 0), 1) == Some(DateTime(2023, 2, 28, 12, 0, 0, 0))
    ensures AddMonths(DateTime(2024, 1, 31, 12, 0, 0, 0), 1) == Some(DateTime(2024, 2, 29, 12, 0, 0, 0))
  {
    var d: Civil := DateTime(2023, 1, 31, 12, 0, 0, 0);
    var e: Civil := DateTime(2024, 1, 31, 12, 0, 0, 0);
    assert TargetYear(d, 1) == 2023 && TargetMonth(d, 1) == 2;
    assert TargetYear(e, 1) == 2024 && TargetMonth(e, 1) == 2;
    assert !IsLeap(2023) && IsLeap(2024);
  }

  /** February 29 plus twelve months is February 28 of the next year. */
  lemma LeapDayPlusOneYear()
    ensures AddMonths(DateTime(2024, 2, 29, 9, 30, 0, 0), 12) == Some(DateTime(2025, 2, 28, 9, 30, 0, 0))
  {
    var d := DateTime(2024, 2, 29, 9, 30, 0, 0);
    assert TargetYear(d, 12) == 2025 && TargetMonth(d, 12) == 2;
    assert !IsLeap(2025);
  }

  // ---------------------------------------------------------------------
  // compute_next_schedule
  // ---------------------------------------------------------------------

  /** The repeat values `compute_next_schedule` advances. */
  predicate IsRecurrence(repeat: string) {
    repeat in {"hourly", "daily", "weekly", "monthly", "yearly"}
  }

  /** What "the next occurrence in local wall-clock time" means for each
      repeat value, stated on ordinals and month indices. */
  ghost predicate IsNextOccurrence(local: Civil, repeat: string, next: Civil) {
    if repeat == "hourly" then
      WallMicros(next) == WallMicros(local) + MicrosPerHour
    else if repeat == "daily" then
      Ordinal(next) == Ordinal(local) + 1 && next.SameTimeOfDay(local)
    else if repeat == "weekly" then
      Ordinal(next) == Ordinal(local) + 7 && next.SameTimeOfDay(local)
    else if repeat == "monthly" || repeat == "yearly" then
      && MonthIndex(next) == MonthIndex(local) + (if repeat == "monthly" then 1 else 12)
      && next.day == Min(local.day, DaysInMonth(next.year, next.month))
      && next.SameTimeOfDay(local)
    else
      false
  }

  /** One recurrence step on the local wall clock: `+ timedelta(hours=1)`,
      `(days=1)`, `(weeks=1)`, or `add_months` by 1 or 12 as written, so a
      step whose target falls in December 9999 fails. */
  function StepLocal(local: Civil, repeat: string): (r: Option<Civil>)
    requires IsRecurrence(repeat)
    ensures r.Some? ==> IsNextOccurrence(local, repeat, r.value)
    ensures repeat == "hourly" ==> (r.None? <==> IsLastDay(local) && local.hour == 23)
    ensures repeat == "daily" ==> (r.None? <==> IsLastDay(local))
    ensures repeat == "weekly" ==> (r.None? <==> exists k: nat :: k < 7 && IsLastDayAfter(local, k))
    ensures repeat == "monthly" ==> (r.None? <==> local.year == MaxYear && local.month >= 11)
    ensures repeat == "yearly" ==>
      (r.None? <==> local.year == MaxYear || (local.year == MaxYear - 1 && local.month == 12))
  {
    if repeat == "hourly" then
      var r := AddHour(local);
      AddHourAdvancesOneHour(local);
      AddHourFailsOnlyInLastHour(local);
      r
    else if repeat == "daily" then
      var r := AddDays(local, 1);
      AddDaysAdvancesOrdinal(local, 1);
      r
    else if repeat == "weekly" then
      var r := AddDays(local, 7);
      AddDaysAdvancesOrdinal(local, 7);
      AddDaysFailsIffPastLastDay(local, 7);
      r
    else if repeat == "monthly" then AddMonthsAsWritten(local, 1)
    else AddMonthsAsWritten(local, 12)
  }

  /** `compute_next_schedule`: `"none"` gives no next time before any zone
      lookup; otherwise the zone must exist, the instant is read on the
      zone's wall clock, advanced by one step, and converted back to UTC; an
      unrecognised repeat value gives no next time. */
  function ComputeNextSchedule(zones: Zones, at: Instant, repeat: string, tzName: string)
    : (r: Result<Option<Instant>, ScheduleError>)
    ensures repeat == "none" ==> r == Ok(None)
    ensures repeat != "none" && !zones.known(tzName) ==> r == Err(UnknownTimezone)
    ensures (&& repeat != "none" && zones.known(tzName) && zones.toLocal(tzName, at).Some?
             && !IsRecurrence(repeat)) ==> r == Ok(None)
    ensures r.Ok? && r.value.Some? ==>
      && IsRecurrence(repeat) && zones.known(tzName) && zones.toLocal(tzName, at).Some?
      && exists next: Civil :: IsNextOccurrence(zones.toLocal(tzName, at).value, repeat, next)
                               && zones.toUtc(tzName, next) == Some(r.value.value)
    ensures repeat != "none" && zones.known(tzName) && zones.toLocal(tzName, at).None? ==>
      r == Err(OutOfRange)
    ensures zones.known(tzName) && zones.toLocal(tzName, at).Some? && IsRecurrence(repeat) ==>
      var next := StepLocal(zones.toLocal(tzName, at).value, repeat);
      && (next.None? ==> r == Err(OutOfRange))
      && (next.Some? && zones.toUtc(tzName, next.value).None? ==> r == Err(OutOfRange))
      && (next.Some? && zones.toUtc(tzName, next.value).Some? ==>
            r == Ok(Some(zones.toUtc(tzName, next.value).value)))
  {
    if repeat == "none" then Ok(None)
    else if !zones.known(tzName) then Err(UnknownTimezone)
    else match zones.toLocal(tzName, at)
      case None => Err(OutOfRange)
      case Some(local) =>
        if !IsRecurrence(repeat) then Ok(None)
        else match StepLocal(local, repeat)
          case None => Err(OutOfRange)
          case Some(next) =>
            match zones.toUtc(tzName, next)
            case None => Err(OutOfRange)
            case Some(t) => Ok(Some(t))
  }

  /** A monthly reminder read as January 31, 12:00 local time next fires on
      the last day of February at 12:00 local time. */
  lemma MonthlyFromEndOfJanuary(zones: Zones, at: Instant, tzName: string)
    requires zones.known(tzName)
    requires zones.toLocal(tzName, at) == Some(DateTime(2023, 1, 31, 12, 0, 0, 0))
    requires zones.toUtc(tzName, DateTime(2023, 2, 28, 12, 0, 0, 0)).Some?
    ensures ComputeNextSchedule(zones, at, "monthly", tzName)
            == Ok(zones.toUtc(tzName, DateTime(2023, 2, 28, 12, 0, 0, 0)))
  {
    EndOfJanuaryMonthlyStep(zones.toLocal(tzName, at).value);
  }

  lemma EndOfJanuaryMonthlyStep(local: Civil)
    requires local == DateTime(2023, 1, 31, 12, 0, 0, 0)
    ensures StepLocal(local, "monthly") == Some(DateTime(2023, 2, 28, 12, 0, 0, 0))
  {
    var next := StepLocal(local, "monthly").value;
    assert MonthIndex(next) == MonthIndex(local) + 1;
    assert next.year == 2023 && next.month == 2;
    assert DaysInMonth(2023, 2) == 28;
  }

  /** A monthly reminder read as 9999-11-15 08:00 local time cannot be
      rescheduled, although 9999-12-15 exists: `_days_in_month(9999, 12)`
      raises, and so does `compute_next_schedule`. */
  lemma MonthlyIntoLastDecemberFails(zones: Zones, at: Instant, tzName: string)
    requires zones.known(tzName)
    requires zones.toLocal(tzName, at) == Some(DateTime(9999, 11, 15, 8, 0, 0, 0))
    ensures ComputeNextSchedule(zones, at, "monthly", tzName) == Err(OutOfRange)
    ensures ComputeNextSchedule(zones, at, "yearly", tzName) == Err(OutOfRange)
  {
  }
}
