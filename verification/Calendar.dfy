/**
 Timestamps and the UTC calendar: the day number of a date and back. A timestamp is exact here:
 whole seconds plus a real fraction.
 */
module Calendar {

  const MINUTE := 60
  const HOUR := 3600
  const DAY := 86400
  const WEEK := 604800
  const YEAR := 365 * DAY

  /** Integer division and remainder as the source language defines them: toward zero. */
  function TruncDiv(a: int, b: int): int
    requires b > 0
  {
    if a >= 0 then a / b else -(-a / b)
  }

  function TruncMod(a: int, b: int): int
    requires b > 0
  {
    a - b * TruncDiv(a, b)
  }

  /** Conversion of a floating value to an integer: toward zero. */
  function Trunc(x: real): int {
    if x >= 0.0 then x.Floor else -(-x).Floor
  }

  // -------------------------------------------------------------- timestamps

  datatype Timestamp = Timestamp(seconds: int, fraction: real) {
    predicate Normal() { 0.0 <= fraction < 1.0 }
    function Full(): real { seconds as real + fraction }
  }

  /** The normal timestamp of the same instant. */
  function Normalized(seconds: int, fraction: real): (t: Timestamp)
    ensures t.Normal() && t.Full() == seconds as real + fraction
  {
    Timestamp(seconds + fraction.Floor, fraction - fraction.Floor as real)
  }

  /** An instant has one normal timestamp. */
  lemma NormalUnique(a: Timestamp, b: Timestamp)
    requires a.Normal() && b.Normal() && a.Full() == b.Full()
    ensures a == b
  {
    assert (a.seconds - b.seconds) as real == b.fraction - a.fraction;
  }

  /** `Timestamp::normalize` with its two carry loops. */
  method Normalize(seconds: int, fraction: real) returns (t: Timestamp)
    ensures t == Normalized(seconds, fraction)
  {
    var s, f := seconds, fraction;
    while f < 0.0
      invariant s as real + f == seconds as real + fraction
      decreases if f < 0.0 then 1 else 0
    {
      var underflow := Trunc(-f) + 1;
      s := s - underflow;
      f := f + underflow as real;
    }
    while f >= 1.0
      invariant s as real + f == seconds as real + fraction && f >= 0.0
      decreases if f >= 1.0 then 1 else 0
    {
      var overflow := Trunc(f);
      s := s + overflow;
      f := f - overflow as real;
    }
    t := Timestamp(s, f);
    NormalUnique(t, Normalized(seconds, fraction));
  }

  function Plus(a: Timestamp, b: Timestamp): Timestamp {
    Normalized(a.seconds + b.seconds, a.fraction + b.fraction)
  }

  function Minus(a: Timestamp, b: Timestamp): Timestamp {
    Normalized(a.seconds - b.seconds, a.fraction - b.fraction)
  }

  function Add(t: Timestamp, seconds: int): Timestamp { t.(seconds := t.seconds + seconds) }

  // ------------------------------------------------------------------- dates

  /** The day of the year each month starts with, counted from 1. */
  const DAY_OF_YEAR := [1, 32, 60, 91, 121, 152, 182, 213, 244, 274, 305, 335]

  const COMMON := [31, 28, 31, 30, 31, 30, 31, 31, 30, 31, 30, 31]
  const LEAP := [31, 29, 31, 30, 31, 30, 31, 31, 30, 31, 30, 31]

  const START_YEAR := 1970
  const DAYS_PER_4YEAR := 1461

  datatype TimePoint = TimePoint(year: int, month: int, day: int, hour: int, minutes: int, seconds: real)

  /** The leap rule of the source: every fourth year. */
  predicate LeapYear(year: int) { year % 4 == 0 }

  /** Days of the years start, ..., year - 1. */
  function DaysBeforeYear(start: int, year: int): int
    decreases year - start
  {
    if year <= start then 0 else DaysBeforeYear(start, year - 1) + (if LeapYear(year - 1) then 366 else 365)
  }

  function DayNumber(start: int, year: int, month: int, day: int): int
    requires 1 <= month <= 12
  {
    DaysBeforeYear(start, year) + DAY_OF_YEAR[month - 1] - 1 + day - 1 + (if LeapYear(year) && month >= 3 then 1 else 0)
  }

  /** Entry m of the 48-month table: years 1970, 1971, 1972 (leap), 1973. */
  function MonthDays(m: nat): int
    requires m < 48
  {
    if m / 12 == 2 then LEAP[m % 12] else COMMON[m % 12]
  }

  /** The day of the four-year period that month k (from 0) of year j starts with, counted from 0. */
  function MonthStartInYear(j: nat, k: nat): int
    requires k < 12
  {
    365 * j + (if j >= 3 then 1 else 0) + DAY_OF_YEAR[k] - 1 + (if j == 2 && k >= 2 then 1 else 0)
  }

  /** The same by the index of the month in the period. */
  function MonthStart(m: nat): int { MonthStartInYear(m / 12, m % 12) }

  lemma MonthStep(m: nat)
    requires m < 48
    ensures MonthStart(m) + MonthDays(m) == MonthStart(m + 1)
    ensures 28 <= MonthDays(m) <= 31
  {
    var j, k := m / 12, m % 12;
    assert m == 12 * j + k && 0 <= j < 4;
    if k < 11 {
      assert (m + 1) / 12 == j && (m + 1) % 12 == k + 1;
      assert k == 0 || k == 1 || k == 2 || k == 3 || k == 4 || k == 5 || k == 6 || k == 7 || k == 8 || k == 9 || k == 10;
    } else {
      assert m + 1 == 12 * (j + 1) && (m + 1) / 12 == j + 1 && (m + 1) % 12 == 0;
    }
  }

  /** The month loop of `date_from_utc`, from month m on. */
  function FindMonth(day: int, m: nat): (r: (nat, int))
    requires m <= 48
    ensures 0 <= day && MonthStart(m) + day < DAYS_PER_4YEAR ==>
      r.0 < 48 && 0 <= r.1 < MonthDays(r.0) && MonthStart(r.0) + r.1 == MonthStart(m) + day
    decreases if day < 0 then 0 else day
  {
    if m == 48 || day < MonthDays(m) then (m, day)
    else
      MonthStep(m);
      FindMonth(day - MonthDays(m), m + 1)
  }

  datatype Date = Date(year: int, month: int, day: int)

  /** The date of a day number: whole four-year periods, then the months of the last one. */
  function DateOfDay(days: int): Date {
    var (m, day) := FindMonth(TruncMod(days, DAYS_PER_4YEAR), 0);
    Date(START_YEAR + 4 * TruncDiv(days, DAYS_PER_4YEAR) + m / 12, m % 12 + 1, day + 1)
  }

  // ----------------------------------------------- date to timestamp and back

  function FromDate(d: TimePoint): Timestamp
    requires 1 <= d.month <= 12
  {
    var days := DayNumber(START_YEAR, d.year, d.month, d.day);
    var whole := Trunc(d.seconds);
    Normalized(days * DAY + d.hour * HOUR + d.minutes * MINUTE + whole, d.seconds - whole as real)
  }

  /** A date with the hour, minute and seconds of a second of the day. */
  function WithTimeOfDay(date: Date, tod: int, fraction: real): TimePoint {
    var hour := TruncDiv(tod, HOUR);
    var toh := tod - hour * HOUR;
    var minutes := TruncDiv(toh, MINUTE);
    TimePoint(date.year, date.month, date.day, hour, minutes, (toh - minutes * MINUTE) as real + fraction)
  }

  function ToDate(t: Timestamp): TimePoint {
    var days := TruncDiv(t.seconds, DAY);
    WithTimeOfDay(DateOfDay(days), t.seconds - days * DAY, t.fraction)
  }

  method UtcFromDate(d: TimePoint) returns (t: Timestamp)
    requires 1970 <= d.year < 2099 && 1 <= d.month <= 12 && 1 <= d.day <= 31
    ensures t == FromDate(d)
  {
    var days := DaysLoop(START_YEAR, d.year, d.month, d.day);
    var timestamp := days * DAY + d.hour * HOUR + d.minutes * MINUTE;
    var whole := Trunc(d.seconds);
    t := Normalize(timestamp + whole, d.seconds - whole as real);
  }

  /** The year-summing loop, shared by the UTC and the GPS calendar with different start years. */
  method DaysLoop(start: int, year: int, month: int, day: int) returns (days: int)
    requires 1 <= month <= 12
    ensures days == DayNumber(start, year, month, day)
  {
    days := 0;
    var i := start;
    while i < year
      invariant start <= i && (start <= year ==> i <= year) && (year <= start ==> i == start)
      invariant days == DaysBeforeYear(start, i)
    {
      if i % 4 == 0 {
        days := days + 366;
      } else {
        days := days + 365;
      }
      i := i + 1;
    }
    assert DaysBeforeYear(start, year) == days;
    days := days + DAY_OF_YEAR[month - 1] - 1;
    days := days + day;
    days := days - 1;
    days := days + (if year % 4 == 0 && month >= 3 then 1 else 0);
  }

  /** The month loop: subtract month lengths until the day falls within one. */
  method SearchMonth(first: int) returns (month: nat, day: int)
    ensures (month, day) == FindMonth(first, 0)
  {
    month, day := 0, first;
    while month < 48
      invariant month <= 48 && FindMonth(day, month) == FindMonth(first, 0)
    {
      if day < MonthDays(month) {
        break;
      }
      day := day - MonthDays(month);
      month := month + 1;
    }
  }

  method DateFromUtc(time: Timestamp) returns (d: TimePoint)
    requires time.Normal()
    ensures d == ToDate(time)
  {
    var days := TruncDiv(time.seconds, DAY);
    var month, day := SearchMonth(TruncMod(days, DAYS_PER_4YEAR));
    var year := START_YEAR;
    year := year + 4 * TruncDiv(days, DAYS_PER_4YEAR);
    year := year + month / 12;
    var tod := time.seconds - days * DAY;
    var hour := TruncDiv(tod, HOUR);
    var toh := tod - hour * HOUR;
    var minutes := TruncDiv(toh, MINUTE);
    var tom := toh - minutes * MINUTE;
    d := TimePoint(year, month % 12 + 1, day + 1, hour, minutes, tom as real + time.fraction);
  }

  // ------------------------------------------------------------- round trips

  /** A date that exists by the source's leap rule. */
  predicate LegalDate(d: Date) {
    && START_YEAR <= d.year && 1 <= d.month <= 12
    && 1 <= d.day <= (if LeapYear(d.year) then LEAP[d.month - 1] else COMMON[d.month - 1])
  }

  predicate Legal(d: TimePoint) {
    LegalDate(Date(d.year, d.month, d.day)) && 0 <= d.hour < 24 && 0 <= d.minutes < 60 && 0.0 <= d.seconds < 60.0
  }

  lemma LeapInPeriod(q: nat, j: nat)
    requires j < 4
    ensures LeapYear(1970 + 4 * q + j) <==> j == 2
  {
  }

  /** Years count 1461 days a period and 365 a year, with the leap day before the fourth. */
  lemma {:induction false} YearsInPeriod(q: nat, j: nat)
    requires j < 4
    ensures DaysBeforeYear(START_YEAR, 1970 + 4 * q + j) == 1461 * q + 365 * j + (if j == 3 then 1 else 0)
    decreases q, j
  {
    if j > 0 {
      LeapInPeriod(q, j - 1);
      YearsInPeriod(q, j - 1);
    } else if q > 0 {
      LeapInPeriod(q - 1, 3);
      YearsInPeriod(q - 1, 3);
    }
  }

  lemma {:induction false} StepsIncrease(starts: seq<int>, lengths: seq<int>, a: nat, b: nat)
    requires a < b < |starts| == |lengths| + 1
    requires forall m :: 0 <= m < |lengths| ==> lengths[m] >= 0 && starts[m] + lengths[m] == starts[m + 1]
    ensures starts[a] + lengths[a] <= starts[b]
    decreases b
  {
    if a + 1 < b {
      StepsIncrease(starts, lengths, a, b - 1);
      assert starts[b - 1] + lengths[b - 1] == starts[b - 1 + 1];
    }
  }

  lemma MonthStartsIncrease(a: nat, b: nat)
    requires a < b <= 48
    ensures MonthStart(a) + MonthDays(a) <= MonthStart(b)
  {
    var starts := seq(49, m requires 0 <= m < 49 => MonthStart(m));
    var lengths := seq(48, m requires 0 <= m < 48 => MonthDays(m));
    forall m | 0 <= m < 48 ensures lengths[m] >= 0 && starts[m] + lengths[m] == starts[m + 1] {
      MonthStep(m);
    }
    StepsIncrease(starts, lengths, a, b);
  }

  function MonthLength(j: nat, k: nat): int
    requires k < 12
  {
    if j == 2 then LEAP[k] else COMMON[k]
  }

  lemma MonthIndex(j: nat, k: nat)
    requires j < 4 && k < 12
    ensures (12 * j + k) / 12 == j && (12 * j + k) % 12 == k
    ensures MonthDays(12 * j + k) == MonthLength(j, k)
  {
  }

  /** Every non-negative day number gives a legal date that counts back to it. */
  lemma DayRoundTrip(days: int)
    requires days >= 0
    ensures var d := DateOfDay(days);
            LegalDate(d) && DayNumber(START_YEAR, d.year, d.month, d.day) == days
  {
    var (m, r) := FindMonth(days % 1461, 0);
    assert TruncMod(days, DAYS_PER_4YEAR) == days % 1461;
    YearsInPeriod(days / 1461, m / 12);
    LeapInPeriod(days / 1461, m / 12);
  }

  lemma SameMonth(k: nat, r: int, m: nat, s: int)
    requires k < 48 && 0 <= r < MonthDays(k) && m < 48 && 0 <= s < MonthDays(m)
    requires MonthStart(k) + r == MonthStart(m) + s
    ensures k == m && r == s
  {
    if m < k { MonthStartsIncrease(m, k); }
    if k < m { MonthStartsIncrease(k, m); }
  }

  /** The month found for a day of the period is the only one that contains it. */
  lemma MonthUnique(k: nat, r: int)
    requires k < 48 && 0 <= r < MonthDays(k)
    ensures 0 <= MonthStart(k) + r < DAYS_PER_4YEAR && FindMonth(MonthStart(k) + r, 0) == (k, r)
  {
    assert 0 <= MonthStart(k);
    assert MonthStart(k) + MonthDays(k) <= DAYS_PER_4YEAR by { MonthStartsIncrease(k, 48); }
    var (m, s) := FindMonth(MonthStart(k) + r, 0);
    SameMonth(k, r, m, s);
  }

  lemma FoundDate(days: int, q: nat, x: nat, m: nat, j: int, k: int, r: int)
    requires x < 1461 && days == 1461 * q + x && FindMonth(x, 0) == (m, r)
    requires m / 12 == j && m % 12 == k
    ensures days >= 0 && DateOfDay(days) == Date(START_YEAR + 4 * q + j, k + 1, r + 1)
  {
    PeriodDivision(q, x);
    assert TruncDiv(days, DAYS_PER_4YEAR) == q;
    assert TruncMod(days, DAYS_PER_4YEAR) == x;
  }

  lemma DateOfDayIs(days: int, q: nat, j: nat, k: nat, r: int)
    requires j < 4 && k < 12 && 0 <= r < MonthLength(j, k)
    requires days == 1461 * q + MonthStartInYear(j, k) + r
    ensures days >= 0 && DateOfDay(days) == Date(START_YEAR + 4 * q + j, k + 1, r + 1)
  {
    MonthIndex(j, k);
    MonthUnique(12 * j + k, r);
    FoundDate(days, q, MonthStartInYear(j, k) + r, 12 * j + k, j, k, r);
  }

  /** Every legal date is the one found for its own day number. */
  lemma DateRoundTrip(d: Date)
    requires LegalDate(d)
    ensures DayNumber(START_YEAR, d.year, d.month, d.day) >= 0
    ensures DateOfDay(DayNumber(START_YEAR, d.year, d.month, d.day)) == d
  {
    var q, j := (d.year - 1970) / 4, (d.year - 1970) % 4;
    YearsInPeriod(q, j);
    LeapInPeriod(q, j);
    DateOfDayIs(DayNumber(START_YEAR, d.year, d.month, d.day), q, j, d.month - 1, d.day - 1);
  }

  lemma PeriodDivision(q: int, r: int)
    requires 0 <= r < 1461
    ensures (1461 * q + r) / 1461 == q
  {
  }

  // ------------------------------------------------- round trips of timestamps

  /** Splitting seconds into days, hours, minutes and back, also for negative ones. */
  lemma TimeOfDayParts(t: Timestamp)
    requires t.Normal()
    ensures var d := ToDate(t);
            var days := TruncDiv(t.seconds, DAY);
            && (days * DAY + d.hour * HOUR + d.minutes * MINUTE) as real + d.seconds == t.Full()
            && (t.seconds >= 0 ==> days >= 0 && 0 <= d.hour < 24 && 0 <= d.minutes < 60 && 0.0 <= d.seconds < 60.0)
  {
  }

  const END_YEAR := 2099

  /** What `utc_from_date` asserts of its date. */
  predicate Accepted(d: TimePoint) {
    START_YEAR <= d.year < END_YEAR && 1 <= d.month <= 12 && 1 <= d.day <= 31
  }

  /** The days from 1 January 1970 to 1 January 2099. */
  const END_DAY := 47117

  lemma EndDayCounts()
    ensures DaysBeforeYear(START_YEAR, END_YEAR) == END_DAY
  {
    YearsInPeriod(32, 1);
  }

  lemma {:induction false} YearsIncrease(a: int, b: int)
    requires START_YEAR <= a <= b
    ensures DaysBeforeYear(START_YEAR, a) <= DaysBeforeYear(START_YEAR, b)
    decreases b
  {
    if a < b {
      YearsIncrease(a, b - 1);
    }
  }

  /** A legal date lies between the first days of its year and of the next. */
  lemma DayInYear(d: Date)
    requires LegalDate(d)
    ensures DaysBeforeYear(START_YEAR, d.year) <= DayNumber(START_YEAR, d.year, d.month, d.day)
            < DaysBeforeYear(START_YEAR, d.year + 1)
  {
  }

  /** A legal date is before 2099 exactly when its day number is below that of the first day of 2099. */
  lemma BeforeEnd(d: Date)
    requires LegalDate(d)
    ensures d.year < END_YEAR <==> DayNumber(START_YEAR, d.year, d.month, d.day) < END_DAY
  {
    DayInYear(d);
    EndDayCounts();
    if d.year < END_YEAR {
      YearsIncrease(d.year + 1, END_YEAR);
    } else {
      YearsIncrease(END_YEAR, d.year);
    }
  }

  /**
   Timestamp to date and back. The date is legal exactly for non-negative timestamps; it is accepted
   back exactly from one day before the epoch to the end of 2098, and whenever it is accepted, or legal in a later
   year, it names the timestamp.
   */
  lemma TimestampRoundTrip(t: Timestamp)
    requires t.Normal()
    ensures var d := ToDate(t);
            && (Legal(d) <==> t.seconds >= 0)
            && (Accepted(d) <==> -DAY < t.seconds < END_DAY * DAY)
            && (Accepted(d) || Legal(d) ==> FromDate(d) == t)
  {
    var days := TruncDiv(t.seconds, DAY);
    TimeOfDayParts(t);
    if days >= 0 {
      DayRoundTrip(days);
      BeforeEnd(DateOfDay(days));
      FromDateOfParts(t, DateOfDay(days), days);
    } else {
      BeforeEpoch(days);
    }
  }

  /** A date that counts back to the day of a timestamp names the timestamp. */
  lemma FromDateOfParts(t: Timestamp, date: Date, days: int)
    requires t.Normal() && t.seconds > -DAY && days == TruncDiv(t.seconds, DAY) && 1 <= date.month <= 12
    requires DayNumber(START_YEAR, date.year, date.month, date.day) == days
    ensures FromDate(WithTimeOfDay(date, t.seconds - days * DAY, t.fraction)) == t
  {
    NormalUnique(FromDate(WithTimeOfDay(date, t.seconds - days * DAY, t.fraction)), t);
  }

  /** A day before the epoch is given no acceptable date. */
  lemma BeforeEpoch(days: int)
    requires days < 0
    ensures var d := DateOfDay(days); d.day < 1 || d.year < START_YEAR
  {
    var r := TruncMod(days, DAYS_PER_4YEAR);
    assert r <= 0 && FindMonth(r, 0) == (0, r);
  }

  lemma TimeParts(date: Date, hour: int, minutes: int, whole: int, fraction: real)
    requires 0 <= hour < 24 && 0 <= minutes < 60 && 0 <= whole < 60
    ensures WithTimeOfDay(date, hour * HOUR + minutes * MINUTE + whole, fraction)
         == TimePoint(date.year, date.month, date.day, hour, minutes, whole as real + fraction)
  {
  }

  lemma DayOfSeconds(days: nat, tod: nat)
    requires tod < DAY
    ensures TruncDiv(days * DAY + tod, DAY) == days
  {
  }

  lemma WholeSeconds(seconds: real)
    requires 0.0 <= seconds < 60.0
    ensures 0 <= Trunc(seconds) < 60 && 0.0 <= seconds - Trunc(seconds) as real < 1.0
  {
  }

  lemma ToDateIs(t: Timestamp, days: nat, tod: nat)
    requires tod < DAY && t.seconds == days * DAY + tod
    ensures ToDate(t) == WithTimeOfDay(DateOfDay(days), tod, t.fraction)
  {
    var d := TruncDiv(t.seconds, DAY);
    assert d == days by {
      DayOfSeconds(days, tod);
    }
  }

  /** Date to timestamp and back, for every legal date and time of day. */
  lemma TimePointRoundTrip(d: TimePoint)
    requires Legal(d)
    ensures FromDate(d).Normal() && ToDate(FromDate(d)) == d
  {
    var date, whole := Date(d.year, d.month, d.day), Trunc(d.seconds);
    var days, tod := DayNumber(START_YEAR, d.year, d.month, d.day), d.hour * HOUR + d.minutes * MINUTE + whole;
    DateRoundTrip(date);
    WholeSeconds(d.seconds);
    ToDateIs(FromDate(d), days, tod);
    TimeParts(date, d.hour, d.minutes, whole, d.seconds - whole as real);
  }

  // ---------------------------------------------------- the Gregorian calendar

  predicate Gregorian(year: int) { year % 4 == 0 && (year % 100 != 0 || year % 400 == 0) }

  function GregorianBeforeYear(year: int): int
    decreases year - START_YEAR
  {
    if year <= START_YEAR then 0 else GregorianBeforeYear(year - 1) + (if Gregorian(year - 1) then 366 else 365)
  }

  /** Thirty days have April, June, September and November. */
  function GregorianMonth(year: int, month: int): int {
    if month == 2 then (if Gregorian(year) then 29 else 28)
    else if month == 4 || month == 6 || month == 9 || month == 11 then 30
    else 31
  }

  function GregorianBeforeMonth(year: int, month: int): int
    decreases month
  {
    if month <= 1 then 0 else GregorianBeforeMonth(year, month - 1) + GregorianMonth(year, month - 1)
  }

  function GregorianDayNumber(year: int, month: int, day: int): int {
    GregorianBeforeYear(year) + GregorianBeforeMonth(year, month) + day - 1
  }

  lemma {:induction false} MonthsAgree(year: int, month: int)
    requires 1 <= month <= 12
    ensures GregorianBeforeMonth(year, month) == DAY_OF_YEAR[month - 1] - 1 + (if Gregorian(year) && month >= 3 then 1 else 0)
    decreases month
  {
    if month > 1 {
      MonthsAgree(year, month - 1);
    }
  }

  lemma {:induction false} YearsAgree(year: int)
    requires year >= START_YEAR
    ensures year <= 2100 ==> DaysBeforeYear(START_YEAR, year) == GregorianBeforeYear(year)
    ensures year > 2100 ==> DaysBeforeYear(START_YEAR, year) > GregorianBeforeYear(year)
    decreases year
  {
    if year > START_YEAR {
      YearsAgree(year - 1);
      CenturyRule(year - 1);
    }
  }

  lemma CenturyRule(year: int)
    requires year >= START_YEAR
    ensures Gregorian(year) ==> LeapYear(year)
    ensures year < 2100 ==> (Gregorian(year) <==> LeapYear(year))
    ensures !Gregorian(2100) && LeapYear(2100)
  {
    if year < 2100 && year % 100 == 0 {
      assert year == 2000;
    }
  }

  /** The day numbers are the Gregorian ones exactly up to the end of February 2100; in particular in
      every year the source accepts. */
  lemma GregorianAgreement(year: int, month: int, day: int)
    requires year >= START_YEAR && 1 <= month <= 12
    ensures DayNumber(START_YEAR, year, month, day) == GregorianDayNumber(year, month, day)
       <==> year < 2100 || (year == 2100 && month <= 2)
  {
    YearsAgree(year);
    CenturyRule(year);
    MonthsAgree(year, month);
  }
}
