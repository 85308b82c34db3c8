/**
 The time systems and how they convert: every conversion goes through UTC. Leap seconds are the
 constants of the source.
 */
module TimeSystems {
  import opened Calendar

  datatype System = Utc | Tai | Gps | Glo | Gst | Bdt

  /** LeapSeconds::count() */
  const LEAP_SECONDS := 37

  function UtcToGps(utc: Timestamp): Timestamp {
    var t := Add(utc, 18);
    var t := Add(t, -(5 * DAY));
    var t := Add(t, -(2 * DAY));
    Add(t, -(10 * YEAR))
  }

  function UtcToGst(utc: Timestamp): Timestamp {
    var t := Add(utc, 13 + (LEAP_SECONDS - 32));
    var t := Add(t, -(233 * DAY));
    var t := Add(t, -(7 * DAY));
    Add(t, -(29 * YEAR))
  }

  function UtcToBdt(utc: Timestamp): Timestamp {
    var t := Add(utc, LEAP_SECONDS - 33);
    var t := Add(t, -(9 * DAY));
    Add(t, -(36 * YEAR))
  }

  function UtcToGlo(utc: Timestamp): Timestamp {
    var t := Add(utc, 3 * HOUR);
    var t := Add(t, -(6 * DAY));
    Add(t, -(26 * YEAR))
  }

  function UtcToTai(utc: Timestamp): Timestamp { Add(utc, -LEAP_SECONDS) }

  function FromUtc(s: System, t: Timestamp): Timestamp {
    match s
    case Utc => t
    case Tai => UtcToTai(t)
    case Gps => UtcToGps(t)
    case Glo => UtcToGlo(t)
    case Gst => UtcToGst(t)
    case Bdt => UtcToBdt(t)
  }

  /** Back to UTC: apply the forward conversion, measure how far it moved, and move as far back. */
  function ToUtc(s: System, t: Timestamp): Timestamp {
    match s
    case Utc => t
    case Tai => Add(t, LEAP_SECONDS)
    case _ => Plus(t, Minus(t, FromUtc(s, t)))
  }

  function Convert(from: System, to: System, t: Timestamp): Timestamp {
    FromUtc(to, ToUtc(from, t))
  }

  // ------------------------------------------------- shifts and their groupoid

  /** What a system reads at the UTC epoch. */
  function Offset(s: System): int {
    FromUtc(s, Timestamp(0, 0.0)).seconds
  }

  lemma ConversionsAreShifts(s: System, t: Timestamp)
    requires t.Normal()
    ensures FromUtc(s, t) == Add(t, Offset(s)) && ToUtc(s, t) == Add(t, -Offset(s))
  {
    var diff := Minus(t, FromUtc(s, t));
    NormalUnique(diff, Timestamp(-Offset(s), 0.0));
    NormalUnique(Plus(t, diff), Add(t, -Offset(s)));
  }

  lemma ConvertIsShift(a: System, b: System, t: Timestamp)
    requires t.Normal()
    ensures Convert(a, b, t) == Add(t, Offset(b) - Offset(a))
  {
    ConversionsAreShifts(a, t);
    ConversionsAreShifts(b, Add(t, -Offset(a)));
  }

  /** Conversions compose: the path does not matter, and every one is undone by its reverse. */
  lemma PathIndependent(a: System, b: System, c: System, t: Timestamp)
    requires t.Normal()
    ensures Convert(b, c, Convert(a, b, t)) == Convert(a, c, t)
    ensures Convert(b, a, Convert(a, b, t)) == t
  {
    ConvertIsShift(a, b, t);
    ConvertIsShift(b, c, Convert(a, b, t));
    ConvertIsShift(b, a, Convert(a, b, t));
    ConvertIsShift(a, c, t);
  }

  // ---------------------------------------------------------------- epochs

  lemma YearStart(year: int, q: nat, j: nat)
    requires j < 4 && year == 1970 + 4 * q + j
    ensures DaysBeforeYear(START_YEAR, year) == 1461 * q + 365 * j + (if j == 3 then 1 else 0)
    ensures LeapYear(year) <==> j == 2
  {
    YearsInPeriod(q, j);
    LeapInPeriod(q, j);
  }

  /** The day, leap-day and year constants place each epoch on its calendar date: what remains at the
      epoch's midnight UTC is only the leap-second or zone difference. */
  lemma EpochsOnTheCalendar()
    ensures FromUtc(Gps, FromDate(TimePoint(1980, 1, 6, 0, 0, 0.0))) == Timestamp(18, 0.0)
    ensures FromUtc(Gst, FromDate(TimePoint(1999, 8, 22, 0, 0, 0.0))) == Timestamp(18, 0.0)
    ensures FromUtc(Bdt, FromDate(TimePoint(2006, 1, 1, 0, 0, 0.0))) == Timestamp(4, 0.0)
    ensures FromUtc(Glo, FromDate(TimePoint(1996, 1, 1, 0, 0, 0.0))) == Timestamp(3 * HOUR, 0.0)
  {
    YearStart(1980, 2, 2);
    YearStart(1999, 7, 1);
    YearStart(2006, 9, 0);
    YearStart(1996, 6, 2);
  }

  /**
   UTC to TAI subtracts the 37 s by which TAI is ahead, for every instant. So the TAI it gives is 74 s behind the
   right one, against UTC as against GPS, which TAI leads by 19 s.
   */
  lemma TaiIsBehind(t: Timestamp)
    requires t.Normal()
    ensures Convert(Utc, Tai, t) == Add(t, -37) == Add(Add(t, 37), -74)
    ensures Convert(Utc, Tai, t) != Add(t, 37)
    ensures Convert(Gps, Tai, t) == Add(Add(t, GPS_EPOCH_DAY * DAY + 19), -74)
  {
    ConvertIsShift(Utc, Tai, t);
    ConvertIsShift(Gps, Tai, t);
  }

  /** The day of the GPS epoch, counted from the epoch of TAI and UTC. */
  const GPS_EPOCH_DAY := 3657

  lemma GpsEpochDay()
    ensures FromDate(TimePoint(1980, 1, 6, 0, 0, 0.0)) == Timestamp(GPS_EPOCH_DAY * DAY, 0.0)
  {
    YearStart(1980, 2, 2);
  }

  // ------------------------------------------------------------------ weeks

  function Week(t: Timestamp): int { TruncDiv(t.seconds, WEEK) }

  function TimeOfWeek(t: Timestamp): Timestamp { Minus(t, Timestamp(Week(t) * WEEK, 0.0)) }

  /** Galileo time is GPS time less 1024 weeks, BeiDou time GPS time less 1356 weeks and 14 seconds. */
  lemma GpsToOthers(t: Timestamp)
    requires t.Normal()
    ensures Convert(Gps, Gst, t) == Add(t, -(1024 * WEEK))
    ensures Convert(Gps, Bdt, t) == Add(t, -(1356 * WEEK + 14))
  {
    ConvertIsShift(Gps, Gst, t);
    ConvertIsShift(Gps, Bdt, t);
  }

  /** Shifting by whole weeks shifts the week number and keeps the time of week, unless the shift
      crosses zero inside a week, where division toward zero counts one week less. */
  lemma WeekShift(t: Timestamp, n: nat)
    requires t.Normal() && n > 0
    ensures var s := Add(t, -(n * WEEK));
            (Week(s) == Week(t) - n && TimeOfWeek(s) == TimeOfWeek(t))
            <==> t.seconds >= n * WEEK || t.seconds <= 0 || t.seconds % WEEK == 0
  {
    var s := Add(t, -(n * WEEK));
    var q, r := t.seconds / WEEK, t.seconds % WEEK;
    assert t.seconds == q * WEEK + r;
    assert s.seconds == (q - n) * WEEK + r;
    assert s.seconds / WEEK == q - n && s.seconds % WEEK == r;
    TruncOfFloor(t.seconds);
    TruncOfFloor(s.seconds);
    if Week(s) == Week(t) - n {
      NormalUnique(TimeOfWeek(s), TimeOfWeek(t));
    }
  }

  lemma TruncOfFloor(a: int)
    ensures TruncDiv(a, WEEK) == if a >= 0 || a % WEEK == 0 then a / WEEK else a / WEEK + 1
  {
  }

  /** GPS and Galileo share the time of week, with the week numbers 1024 apart, exactly outside the
      inner weeks between the two epochs. */
  lemma GalileoWeeks(t: Timestamp)
    requires t.Normal()
    ensures var g := Convert(Gps, Gst, t);
            (Week(g) == Week(t) - 1024 && TimeOfWeek(g) == TimeOfWeek(t))
            <==> t.seconds >= 1024 * WEEK || t.seconds <= 0 || t.seconds % WEEK == 0
  {
    GpsToOthers(t);
    WeekShift(t, 1024);
  }

  // ---------------------------------------------------- the GPS calendar

  const GPS_START_YEAR := 1980

  function FromWeekTow(week: int, tow: int, fractions: real): Timestamp {
    Normalized(WEEK * week + tow, fractions)
  }

  function Clamped(month: int): int { if month <= 0 then 1 else if month > 12 then 12 else month }

  function GpsDays(year: int, month: int, day: int): int {
    DayNumber(GPS_START_YEAR, if year < GPS_START_YEAR then GPS_START_YEAR else year, Clamped(month), day)
  }

  method DaysFromYmd(year: int, month: int, day: int) returns (days: int)
    ensures days == GpsDays(year, month, day)
  {
    var y, m := year, month;
    if y < GPS_START_YEAR {
      y := GPS_START_YEAR;
    }
    if m <= 0 {
      m := 1;
    } else if m > 12 {
      m := 12;
    }
    days := DaysLoop(GPS_START_YEAR, y, m, day);
  }

  /** Week and time of week make up the instant, and from the epoch on the time of week lies within a week. */
  lemma WeekRoundTrip(t: Timestamp)
    requires t.Normal()
    ensures FromWeekTow(Week(t), TimeOfWeek(t).seconds, TimeOfWeek(t).fraction) == t
    ensures t.seconds >= 0 ==> Week(t) >= 0 && 0 <= TimeOfWeek(t).seconds < 604800
    ensures t.seconds <= 0 ==> Week(t) <= 0 && -604800 < TimeOfWeek(t).seconds <= 0
  {
    NormalUnique(TimeOfWeek(t), Timestamp(t.seconds - Week(t) * WEEK, t.fraction));
    NormalUnique(FromWeekTow(Week(t), TimeOfWeek(t).seconds, TimeOfWeek(t).fraction), t);
  }

  /** Years before 1980 count as 1980, months before the first and after the last as these. */
  lemma GpsDaysClamped(year: int, month: int, day: int)
    ensures year < 1980 ==> GpsDays(year, month, day) == GpsDays(1980, month, day)
    ensures month < 1 ==> GpsDays(year, month, day) == GpsDays(year, 1, day)
    ensures month > 12 ==> GpsDays(year, month, day) == GpsDays(year, 12, day)
    ensures year >= 1980 && 1 <= month <= 12 ==> GpsDays(year, month, day) == DayNumber(START_YEAR, year, month, day) - 3652
  {
    if year >= 1980 {
      StartYearsAgree(year);
    }
  }

  function FromYmdhms(d: TimePoint): Timestamp {
    var whole := Trunc(d.seconds);
    var days := GpsDays(d.year, d.month, d.day) - 5;
    var tow := TruncMod(days, 7) * DAY + (d.hour * HOUR + d.minutes * MINUTE + whole);
    FromWeekTow(TruncDiv(days, 7), tow, d.seconds - whole as real)
  }

  lemma {:induction false} StartYearsAgree(year: int)
    requires year >= GPS_START_YEAR
    ensures DaysBeforeYear(START_YEAR, year) == DaysBeforeYear(GPS_START_YEAR, year) + 3652
    decreases year
  {
    if year == GPS_START_YEAR {
      YearStart(1980, 2, 2);
    } else {
      StartYearsAgree(year - 1);
    }
  }

  /** Both ways from a date to GPS time agree, up to the leap seconds, from 1980 on. */
  lemma GpsCalendarAgrees(d: TimePoint)
    requires d.year >= GPS_START_YEAR && 1 <= d.month <= 12
    ensures Convert(Utc, Gps, FromDate(d)) == Add(FromYmdhms(d), 18)
  {
    StartYearsAgree(d.year);
    var days := GpsDays(d.year, d.month, d.day) - 5;
    assert 7 * TruncDiv(days, 7) + TruncMod(days, 7) == days;
    assert DayNumber(START_YEAR, d.year, d.month, d.day) == days + 5 + 3652;
  }

  // --------------------------------------------------------------- GLONASS

  const FOUR_YEAR_PERIOD := 1461

  /** The day with the place of `day` in its four-year period, in the period of the reference. */
  function PeriodDay(day: int, reference: Timestamp): int {
    FOUR_YEAR_PERIOD * TruncDiv(TruncDiv(reference.seconds, DAY), FOUR_YEAR_PERIOD) + day % FOUR_YEAR_PERIOD
  }

  /** From the GLONASS epoch on it keeps both the place of the day and the period of the reference. */
  lemma PeriodDayPlace(day: int, reference: Timestamp)
    requires reference.seconds >= 0
    ensures PeriodDay(day, reference) % FOUR_YEAR_PERIOD == day % FOUR_YEAR_PERIOD
    ensures PeriodDay(day, reference) / FOUR_YEAR_PERIOD == reference.seconds / DAY / FOUR_YEAR_PERIOD
  {
    PeriodDivision(reference.seconds / DAY / FOUR_YEAR_PERIOD, day % FOUR_YEAR_PERIOD);
  }

  /** Before it, the period begins at the next multiple toward the epoch. */
  lemma PeriodDayBefore(day: int, reference: Timestamp)
    requires reference.seconds < 0
    ensures var start := PeriodDay(day, reference) - day % FOUR_YEAR_PERIOD;
            start % 1461 == 0 && TruncDiv(reference.seconds, DAY) <= start < TruncDiv(reference.seconds, DAY) + 1461 && start <= 0
  {
    var days := TruncDiv(reference.seconds, DAY);
    assert days <= 0;
    PeriodDivision(TruncDiv(days, FOUR_YEAR_PERIOD), 0);
  }

  /** `from_period_day_tod`: whatever period `day` names, the time of day on that day of the reference's period. */
  method GloFromPeriodDay(day: int, tod: real, reference: Timestamp) returns (t: Timestamp)
    ensures t.Normal() && t.Full() == (PeriodDay(day, reference) * DAY) as real + tod
  {
    var d := day;
    while d < 0
      invariant d % FOUR_YEAR_PERIOD == day % FOUR_YEAR_PERIOD
    {
      d := d + FOUR_YEAR_PERIOD;
    }
    while d >= FOUR_YEAR_PERIOD
      invariant d >= 0 && d % FOUR_YEAR_PERIOD == day % FOUR_YEAR_PERIOD
    {
      d := d - FOUR_YEAR_PERIOD;
    }
    var days := TruncDiv(reference.seconds, DAY);
    var dayInPeriod := TruncMod(days, FOUR_YEAR_PERIOD);
    var absolute := days - dayInPeriod + d;
    assert absolute == PeriodDay(day, reference);
    t := Normalize(absolute * DAY, tod);
  }
}
