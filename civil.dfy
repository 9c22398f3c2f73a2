/** Python's naive `datetime` on the proleptic Gregorian calendar: dates, the day before and
    after, a day ordinal, instants at microsecond resolution, the `strftime` formats the
    system writes and the `strptime` formats it reads. */
module Civil {
  import opened Wrappers
  import opened Text

  const SECOND: nat := 1_000_000
  const MINUTE: nat := 60_000_000
  const HOUR: nat := 3_600_000_000
  const DAY: nat := 86_400_000_000

  datatype Date = Date(year: int, month: int, day: int)

  predicate IsLeap(y: int) { y % 4 == 0 && (y % 100 != 0 || y % 400 == 0) }

  function DaysInMonth(y: int, m: int): (n: int)
    ensures 28 <= n <= 31
    ensures m == 2 ==> (n == 29 <==> IsLeap(y))
  {
    if m == 2 then (if IsLeap(y) then 29 else 28)
    else if m == 4 || m == 6 || m == 9 || m == 11 then 30
    else 31
  }

  /** `datetime.MINYEAR` is 1; years beyond `MAXYEAR` are not bounded here. */
  predicate ValidDate(d: Date) {
    d.year >= 1 && 1 <= d.month <= 12 && 1 <= d.day <= DaysInMonth(d.year, d.month)
  }

  const MinDate := Date(1, 1, 1)

  /** `d + timedelta(days=1)`. */
  function NextDay(d: Date): (r: Date)
    requires ValidDate(d)
    ensures ValidDate(r) && d.year <= r.year <= d.year + 1
  {
    if d.day < DaysInMonth(d.year, d.month) then Date(d.year, d.month, d.day + 1)
    else if d.month < 12 then Date(d.year, d.month + 1, 1)
    else Date(d.year + 1, 1, 1)
  }

  /** `d - timedelta(days=1)`; Python raises OverflowError on the first representable day. */
  function PrevDay(d: Date): (r: Date)
    requires ValidDate(d) && d != MinDate
    ensures ValidDate(r) && d.year - 1 <= r.year <= d.year
  {
    if d.day > 1 then Date(d.year, d.month, d.day - 1)
    else if d.month > 1 then Date(d.year, d.month - 1, DaysInMonth(d.year, d.month - 1))
    else Date(d.year - 1, 12, 31)
  }

  lemma PrevNextDay(d: Date)
    requires ValidDate(d)
    ensures NextDay(d) != MinDate && PrevDay(NextDay(d)) == d
  {
  }

  lemma NextPrevDay(d: Date)
    requires ValidDate(d) && d != MinDate
    ensures NextDay(PrevDay(d)) == d
  {
  }

  function YearDays(y: int): (n: int)
    ensures n == 365 || n == 366
  {
    if IsLeap(y) then 366 else 365
  }

  /** Days in the years before `y`: 0001-01-01 starts day 1 of the ordinal count. */
  function DaysBeforeYear(y: int): (n: int)
    requires y >= 1
    ensures n >= 365 * (y - 1)
  {
    if y == 1 then 0 else DaysBeforeYear(y - 1) + YearDays(y - 1)
  }

  /** Days in the months of year `y` before month `m` (Python's `_days_before_month`). */
  function DaysBeforeMonth(y: int, m: int): (n: int)
    requires 1 <= m <= 12
    ensures 0 <= n
    ensures m > 1 ==> n >= 31
  {
    var table := [0, 31, 59, 90, 120, 151, 181, 212, 243, 273, 304, 334];
    table[m - 1] + (if m > 2 && IsLeap(y) then 1 else 0)
  }

  /** Python's `date.toordinal()`: 0001-01-01 is day 1. */
  function Ordinal(d: Date): int
    requires ValidDate(d)
  {
    DaysBeforeYear(d.year) + DaysBeforeMonth(d.year, d.month) + d.day
  }

  /** The months of a year follow one another and fill it. */
  lemma MonthLengths(y: int, m: int)
    requires 1 <= m <= 12
    ensures m < 12 ==> DaysBeforeMonth(y, m + 1) == DaysBeforeMonth(y, m) + DaysInMonth(y, m)
    ensures m == 12 ==> DaysBeforeMonth(y, m) + DaysInMonth(y, m) == YearDays(y)
  {
  }

  /** The ordinal counts days: the next day is one more. */
  lemma OrdinalNextDay(d: Date)
    requires ValidDate(d)
    ensures Ordinal(NextDay(d)) == Ordinal(d) + 1
  {
    MonthLengths(d.year, d.month);
  }

  lemma OrdinalPrevDay(d: Date)
    requires ValidDate(d) && d != MinDate
    ensures Ordinal(PrevDay(d)) == Ordinal(d) - 1
  {
    NextPrevDay(d);
    OrdinalNextDay(PrevDay(d));
  }

  lemma OrdinalPositive(d: Date)
    requires ValidDate(d)
    ensures Ordinal(d) >= 1
    ensures Ordinal(d) == 1 <==> d == MinDate
  {
  }

  /** Every day of a year precedes the first day of the next year. */
  lemma OrdinalBeforeYearEnd(d: Date)
    requires ValidDate(d)
    ensures Ordinal(d) <= DaysBeforeYear(d.year + 1)
  {
    MonthsMonotone(d.year, d.month, 12);
    MonthLengths(d.year, 12);
  }

  lemma MonthsMonotone(y: int, m1: int, m2: int)
    requires 1 <= m1 <= m2 <= 12
    ensures DaysBeforeMonth(y, m1) + (if m1 < m2 then DaysInMonth(y, m1) else 0) <= DaysBeforeMonth(y, m2)
  {
  }

  lemma {:induction false} YearsMonotone(y1: int, y2: int)
    requires 1 <= y1 <= y2
    ensures DaysBeforeYear(y1) <= DaysBeforeYear(y2)
    decreases y2 - y1
  {
    if y1 < y2 {
      YearsMonotone(y1, y2 - 1);
    }
  }

  /** Distinct dates have distinct ordinals. */
  lemma OrdinalInjective(a: Date, b: Date)
    requires ValidDate(a) && ValidDate(b) && Ordinal(a) == Ordinal(b)
    ensures a == b
  {
    if a.year < b.year {
      OrdinalBeforeYearEnd(a);
      YearsMonotone(a.year + 1, b.year);
    } else if b.year < a.year {
      OrdinalBeforeYearEnd(b);
      YearsMonotone(b.year + 1, a.year);
    } else if a.month < b.month {
      MonthsMonotone(a.year, a.month, b.month);
    } else if b.month < a.month {
      MonthsMonotone(a.year, b.month, a.month);
    }
  }

  /** A naive `datetime`: a date and the microseconds since its midnight. */
  datatype DateTime = DateTime(date: Date, micros: int)

  predicate Valid(t: DateTime) { ValidDate(t.date) && 0 <= t.micros < DAY }

  /** Microseconds since 0001-01-01 00:00:00, the total order of instants. */
  function Micros(t: DateTime): (m: int)
    requires Valid(t)
    ensures m >= 0
  {
    OrdinalPositive(t.date);
    (Ordinal(t.date) - 1) * DAY + t.micros
  }

  lemma MicrosNonNeg(t: DateTime)
    requires Valid(t)
    ensures Micros(t) >= 0
  {
    OrdinalPositive(t.date);
  }

  function Hour(t: DateTime): nat requires Valid(t) { t.micros / HOUR }

  function Minute(t: DateTime): nat requires Valid(t) { (t.micros % HOUR) / MINUTE }

  function Second(t: DateTime): nat requires Valid(t) { (t.micros % MINUTE) / SECOND }

  lemma FieldBounds(t: DateTime)
    requires Valid(t)
    ensures Hour(t) < 24 && Minute(t) < 60 && Second(t) < 60
  {
  }

  /** `t.replace(second=0, microsecond=0)`. */
  function FloorMinute(t: DateTime): (r: DateTime)
    requires Valid(t)
    ensures Valid(r) && r.date == t.date && r.micros % MINUTE == 0
    ensures Micros(r) <= Micros(t) < Micros(r) + MINUTE
    ensures Hour(r) == Hour(t) && Minute(r) == Minute(t) && Second(r) == 0
  {
    DateTime(t.date, t.micros - t.micros % MINUTE)
  }

  const FIVE_MINUTES: nat := 300_000_000

  /** `t.replace(minute=(t.minute // 5) * 5, second=0, microsecond=0)`. */
  function FloorFiveMinutes(t: DateTime): (r: DateTime)
    requires Valid(t)
    ensures Valid(r) && r.date == t.date && r.micros == t.micros - t.micros % FIVE_MINUTES
    ensures Micros(r) <= Micros(t) < Micros(r) + FIVE_MINUTES
    ensures Hour(r) == Hour(t) && Minute(r) == (Minute(t) / 5) * 5 && Second(r) == 0
  {
    var u := Hour(t) * HOUR + ((Minute(t) / 5) * 5) * MINUTE;
    assert u == t.micros - t.micros % FIVE_MINUTES;
    DateTime(t.date, u)
  }

  /** `t + timedelta(microseconds=k)` for a step of at most a day. */
  function Plus(t: DateTime, k: nat): (r: DateTime)
    requires Valid(t) && k <= DAY
    ensures Valid(r) && Micros(r) == Micros(t) + k
  {
    if t.micros + k < DAY then DateTime(t.date, t.micros + k)
    else
      OrdinalNextDay(t.date);
      DateTime(NextDay(t.date), t.micros + k - DAY)
  }

  /** `t - timedelta(microseconds=k)` for a step of at most a day; defined only when the
      result is representable (Python raises OverflowError otherwise). */
  function Minus(t: DateTime, k: nat): (r: DateTime)
    requires Valid(t) && k <= DAY && Micros(t) >= k
    ensures Valid(r) && Micros(r) == Micros(t) - k
  {
    if t.micros >= k then DateTime(t.date, t.micros - k)
    else
      OrdinalPositive(t.date);
      OrdinalPrevDay(t.date);
      DateTime(PrevDay(t.date), t.micros + DAY - k)
  }

  /** Distinct instants have distinct microsecond counts. */
  lemma MicrosInjective(a: DateTime, b: DateTime)
    requires Valid(a) && Valid(b) && Micros(a) == Micros(b)
    ensures a == b
  {
    OrdinalInjective(a.date, b.date);
  }

  /** The date `n` days after 0001-01-01 (Python's `date.fromordinal(n + 1)`). */
  function DateOfDays(n: nat): (d: Date)
    ensures ValidDate(d) && Ordinal(d) == n + 1
  {
    YearFrom(1, n)
  }

  /** The date `r` days into year `y` or a later year. */
  function YearFrom(y: int, r: nat): (d: Date)
    requires y >= 1
    ensures ValidDate(d) && Ordinal(d) == DaysBeforeYear(y) + r + 1
    decreases r
  {
    if r < YearDays(y) then MonthFrom(y, 1, r)
    else YearFrom(y + 1, r - YearDays(y))
  }

  /** The date `r` days into month `m` of year `y` or a later month of that year. */
  function MonthFrom(y: int, m: int, r: nat): (d: Date)
    requires y >= 1 && 1 <= m <= 12 && DaysBeforeMonth(y, m) + r < YearDays(y)
    ensures ValidDate(d) && Ordinal(d) == DaysBeforeYear(y) + DaysBeforeMonth(y, m) + r + 1
    decreases 12 - m
  {
    MonthLengths(y, m);
    if r < DaysInMonth(y, m) then Date(y, m, r + 1)
    else MonthFrom(y, m + 1, r - DaysInMonth(y, m))
  }

  /** The instant `u` microseconds after 0001-01-01 00:00:00; the inverse of `Micros`. */
  function FromMicros(u: nat): (t: DateTime)
    ensures Valid(t) && Micros(t) == u
  {
    DateTime(DateOfDays(u / DAY), u % DAY)
  }

  lemma FromMicrosMicros(t: DateTime)
    requires Valid(t)
    ensures Micros(t) >= 0 && FromMicros(Micros(t)) == t
  {
    MicrosNonNeg(t);
    MicrosInjective(FromMicros(Micros(t)), t);
  }

  /** The time of day of a microsecond count keeps the count's remainder by the minute and by
      five minutes, both of which divide a day. */
  lemma DayAligned(u: nat)
    ensures FromMicros(u).micros % MINUTE == u % MINUTE
    ensures FromMicros(u).micros % FIVE_MINUTES == u % FIVE_MINUTES
  {
    assert FromMicros(u).micros == u % DAY;
    MinuteOfDayMicros(u);
    FiveMinutesOfDay(u);
  }

  lemma MinuteOfDayMicros(u: nat)
    ensures (u % DAY) % MINUTE == u % MINUTE
  {
    var q, w := u / DAY, u % DAY;
    assert u == (q * 1440 + w / MINUTE) * MINUTE + w % MINUTE;
  }

  lemma FiveMinutesOfDay(u: nat)
    ensures (u % DAY) % FIVE_MINUTES == u % FIVE_MINUTES
  {
    var q, w := u / DAY, u % DAY;
    assert u == (q * 288 + w / FIVE_MINUTES) * FIVE_MINUTES + w % FIVE_MINUTES;
  }

  // ---------------------------------------------------------------------------------------
  // ISO 8601 weeks

  /** Python's `date.weekday()`: 0 for Monday to 6 for Sunday (0001-01-01 was a Monday). */
  function Weekday(d: Date): (w: int)
    requires ValidDate(d)
    ensures 0 <= w < 7
  {
    (Ordinal(d) + 6) % 7
  }

  /** The Thursday of the Monday-to-Sunday week of `d`. ISO 8601 gives a week the year of its
      Thursday and numbers the weeks of that year from the one holding its first Thursday. */
  function WeekThursday(d: Date): (t: Date)
    requires ValidDate(d)
    ensures ValidDate(t) && Ordinal(t) == Ordinal(d) - Weekday(d) + 3
  {
    OrdinalPositive(d);
    MondayPositive(Ordinal(d));
    DateOfDays(Ordinal(d) - Weekday(d) + 2)
  }

  /** A week's Monday is never before day 1. */
  lemma MondayPositive(o: int)
    requires o >= 1
    ensures o - (o + 6) % 7 >= 1
  {
    var q, w := (o + 6) / 7, (o + 6) % 7;
    assert o + 6 == 7 * q + w;
  }

  /** The day of the year of `d`, from 1. */
  function DayOfYear(d: Date): (n: int)
    requires ValidDate(d)
    ensures 1 <= n <= YearDays(d.year)
  {
    OrdinalBeforeYearEnd(d);
    Ordinal(d) - DaysBeforeYear(d.year)
  }

  /** `date.isocalendar()[1]`: the ISO 8601 week number, computed from the week's Thursday. */
  function IsoWeek(d: Date): (w: int)
    requires ValidDate(d)
    ensures 1 <= w <= 53
  {
    (DayOfYear(WeekThursday(d)) - 1) / 7 + 1
  }

  /** Week 1 of a year is the week holding its 4 January, as ISO 8601 defines it. */
  lemma IsoWeekOfJanuaryFourth(y: int)
    requires y >= 1
    ensures IsoWeek(Date(y, 1, 4)) == 1
  {
    var d := Date(y, 1, 4);
    var t := WeekThursday(d);
    var k := Ordinal(t) - DaysBeforeYear(y);
    assert 1 <= k <= 7;
    assert Ordinal(Date(y, 1, k)) == Ordinal(t);
    OrdinalInjective(Date(y, 1, k), t);
  }

  /** Days of one Monday-to-Sunday week share their week number. */
  lemma IsoWeekSameWeek(d: Date, e: Date)
    requires ValidDate(d) && ValidDate(e)
    requires Ordinal(d) - Weekday(d) == Ordinal(e) - Weekday(e)
    ensures IsoWeek(d) == IsoWeek(e)
  {
    OrdinalInjective(WeekThursday(d), WeekThursday(e));
  }

  /** The week after a week has the next number, or number 1 when a new ISO year begins. */
  lemma IsoWeekNext(d: Date, e: Date)
    requires ValidDate(d) && ValidDate(e)
    requires Ordinal(e) - Weekday(e) == Ordinal(d) - Weekday(d) + 7
    ensures IsoWeek(e) == IsoWeek(d) + 1 || IsoWeek(e) == 1
  {
    var td, te := WeekThursday(d), WeekThursday(e);
    WeekLater(td, te);
    WeekStep(DayOfYear(td), DayOfYear(te));
  }

  /** A day seven days later lies seven days further into the same year, or in its first week
      of a later year. */
  lemma WeekLater(td: Date, te: Date)
    requires ValidDate(td) && ValidDate(te) && Ordinal(te) == Ordinal(td) + 7
    ensures DayOfYear(te) == DayOfYear(td) + 7 || DayOfYear(te) <= 7
  {
    if te.year < td.year {
      OrdinalBeforeYearEnd(te);
      YearsMonotone(te.year + 1, td.year);
      assert false;
    } else if te.year > td.year {
      OrdinalBeforeYearEnd(td);
      YearsMonotone(td.year + 1, te.year);
    }
  }

  lemma WeekStep(a: int, b: int)
    requires a >= 1 && 1 <= b && (b == a + 7 || b <= 7)
    ensures (b - 1) / 7 + 1 == (a - 1) / 7 + 2 || (b - 1) / 7 + 1 == 1
  {
  }

  // ---------------------------------------------------------------------------------------
  // strftime

  /** `%Y`: the year as four digits (zero-padded below 1000). */
  function Year4(y: int): (s: string)
    requires y >= 0
    ensures AllDigits(s) && ParseNat(s) == y
    ensures y <= 9999 ==> |s| == 4
  {
    ZFillDigits(NatToString(y), 4);
    ParseNatToString(y);
    FourDigitYear(y);
    ZFill(NatToString(y), 4)
  }

  lemma FourDigitYear(y: nat)
    ensures y <= 9999 ==> |NatToString(y)| <= 4
  {
    if y <= 9999 {
      assert Pow10(4) == 10000;
      NatToStringBound(y, 4);
    }
  }

  /** `d.strftime("%Y%m%d")`. */
  function Date8(d: Date): (s: string)
    requires ValidDate(d)
    ensures AllDigits(s)
    ensures d.year <= 9999 ==> |s| == 8
  {
    Year4(d.year) + Pad2(d.month) + Pad2(d.day)
  }

  /** `d.strftime("%Y-%m-%d")`. */
  function DateDashed(d: Date): string
    requires ValidDate(d)
  {
    Year4(d.year) + "-" + Pad2(d.month) + "-" + Pad2(d.day)
  }

  /** `t.strftime("%H%M")`. */
  function HHMM(t: DateTime): (s: string)
    requires Valid(t)
    ensures |s| == 4 && AllDigits(s)
  {
    Pad2(Hour(t)) + Pad2(Minute(t))
  }

  /** `t.strftime("%H%M%S")`. */
  function HHMMSS(t: DateTime): (s: string)
    requires Valid(t)
    ensures |s| == 6 && AllDigits(s)
  {
    Pad2(Hour(t)) + Pad2(Minute(t)) + Pad2(Second(t))
  }

  /** `t.strftime("%Y%m%d_%H%M%S")`. */
  function Stamp(t: DateTime): string
    requires Valid(t)
  {
    Date8(t.date) + "_" + HHMMSS(t)
  }

  /** Dates compare by ordinal exactly as they compare year, then month, then day. */
  predicate DateFieldsLess(a: Date, b: Date) {
    a.year < b.year || (a.year == b.year && (a.month < b.month || (a.month == b.month && a.day < b.day)))
  }

  lemma DateOrder(a: Date, b: Date)
    requires ValidDate(a) && ValidDate(b)
    ensures Ordinal(a) < Ordinal(b) <==> DateFieldsLess(a, b)
  {
    if a.year < b.year {
      OrdinalBeforeYearEnd(a);
      YearsMonotone(a.year + 1, b.year);
    } else if b.year < a.year {
      OrdinalBeforeYearEnd(b);
      YearsMonotone(b.year + 1, a.year);
    } else if a.month < b.month {
      MonthsMonotone(a.year, a.month, b.month);
    } else if b.month < a.month {
      MonthsMonotone(a.year, b.month, a.month);
    }
  }

  /** Instants compare by day ordinal, then by time of day. */
  lemma MicrosOrder(a: DateTime, b: DateTime)
    requires Valid(a) && Valid(b)
    ensures Micros(a) < Micros(b) <==>
      Ordinal(a.date) < Ordinal(b.date) || (Ordinal(a.date) == Ordinal(b.date) && a.micros < b.micros)
  {
  }

  /** Eight-digit dates compare as text exactly as the dates compare. */
  lemma Date8Order(a: Date, b: Date)
    requires ValidDate(a) && ValidDate(b) && a.year <= 9999 && b.year <= 9999
    ensures StrLess(Date8(a), Date8(b)) <==> Ordinal(a) < Ordinal(b)
  {
    DateOrder(a, b);
    var ya, yb := Year4(a.year), Year4(b.year);
    var ra, rb := Pad2(a.month) + Pad2(a.day), Pad2(b.month) + Pad2(b.day);
    assert Date8(a) == ya + ra && Date8(b) == yb + rb;
    StrLessConcat(ya, ra, yb, rb);
    StrLessDigits(ya, yb);
    DigitsEqual(ya, yb);
    PadPairOrder(a.month, a.day, b.month, b.day);
  }

  /** Two two-digit fields written one after the other compare as the pairs of numbers do. */
  lemma PadPairOrder(x1: nat, y1: nat, x2: nat, y2: nat)
    requires x1 < 100 && y1 < 100 && x2 < 100 && y2 < 100
    ensures StrLess(Pad2(x1) + Pad2(y1), Pad2(x2) + Pad2(y2)) <==> x1 < x2 || (x1 == x2 && y1 < y2)
  {
    StrLessConcat(Pad2(x1), Pad2(y1), Pad2(x2), Pad2(y2));
    StrLessDigits(Pad2(x1), Pad2(x2));
    DigitsEqual(Pad2(x1), Pad2(x2));
    StrLessDigits(Pad2(y1), Pad2(y2));
  }

  lemma MinuteOfDay(t: DateTime)
    requires Valid(t)
    ensures t.micros / MINUTE == Hour(t) * 60 + Minute(t)
  {
    var h, r := t.micros / HOUR, t.micros % HOUR;
    var m, r2 := r / MINUTE, r % MINUTE;
    assert t.micros == (h * 60 + m) * MINUTE + r2;
  }

  /** `HHMM` texts compare exactly as the minutes of the day they name. */
  lemma HHMMOrder(a: DateTime, b: DateTime)
    requires Valid(a) && Valid(b)
    ensures StrLess(HHMM(a), HHMM(b)) <==> a.micros / MINUTE < b.micros / MINUTE
    ensures HHMM(a) == HHMM(b) <==> a.micros / MINUTE == b.micros / MINUTE
  {
    FieldBounds(a);
    FieldBounds(b);
    MinuteOfDay(a);
    MinuteOfDay(b);
    StrLessConcat(Pad2(Hour(a)), Pad2(Minute(a)), Pad2(Hour(b)), Pad2(Minute(b)));
    StrLessDigits(Pad2(Hour(a)), Pad2(Hour(b)));
    DigitsEqual(Pad2(Hour(a)), Pad2(Hour(b)));
    StrLessDigits(Pad2(Minute(a)), Pad2(Minute(b)));
    DigitsEqual(Pad2(Minute(a)), Pad2(Minute(b)));
    if HHMM(a) == HHMM(b) {
      assert HHMM(a)[..2] == Pad2(Hour(a)) && HHMM(b)[..2] == Pad2(Hour(b));
      assert HHMM(a)[2..] == Pad2(Minute(a)) && HHMM(b)[2..] == Pad2(Minute(b));
    }
  }

  // ---------------------------------------------------------------------------------------
  // strptime

  /** `datetime.strptime(s, "%Y%m%d")` on a string of exactly eight digits. `strptime`'s
      month and day patterns could match one digit, but on eight digits only the two-digit
      reading consumes the whole text, so the fields are fixed-width; the year must then be at
      least 1 and month and day must form a real date, or it raises ValueError. */
  function ParseDate8(s: string): (r: Option<Date>)
    requires |s| == 8 && AllDigits(s)
    ensures r.Some? ==> ValidDate(r.value) && r.value.year <= 9999
    ensures r.Some? <==> ValidDate(Date(ParseNat(s[..4]), ParseNat(s[4..6]), ParseNat(s[6..])))
  {
    var date := Date(ParseNat(s[..4]), ParseNat(s[4..6]), ParseNat(s[6..]));
    ParseNatBound(s[..4]);
    assert Pow10(4) == 10000;
    if ValidDate(date) then Some(date) else None
  }

  /** A fixed-width digit field is the zero-padded text of its value. */
  lemma ParseNatFixedWidth(s: string)
    requires AllDigits(s) && 1 <= |s|
    ensures ZFill(NatToString(ParseNat(s)), |s|) == s
  {
    ParseNatBound(s);
    NatToStringBound(ParseNat(s), |s|);
    var t := NatToString(ParseNat(s));
    ParseNatToString(ParseNat(s));
    ZFillDigits(t, |s|);
    ParseNatUnique(s, ZFill(t, |s|));
  }

  lemma Pad2Field(s: string)
    requires AllDigits(s) && |s| == 2
    ensures ParseNat(s) < 100 && Pad2(ParseNat(s)) == s
  {
    ParseNatBound(s);
    assert Pow10(2) == 100;
    ParseNatUnique(s, Pad2(ParseNat(s)));
  }

  /** Every date written as eight digits reads back as itself. */
  lemma ParseDate8Date8(d: Date)
    requires ValidDate(d) && d.year <= 9999
    ensures ParseDate8(Date8(d)) == Some(d)
  {
    var a, b, c := Year4(d.year), Pad2(d.month), Pad2(d.day);
    Slices8(a, b, c);
    assert Date8(d) == a + b + c;
  }

  lemma Slices8(a: string, b: string, c: string)
    requires |a| == 4 && |b| == 2 && |c| == 2
    ensures var s := a + b + c; |s| == 8 && s[..4] == a && s[4..6] == b && s[6..] == c
  {
  }

  /** Every eight-digit text `ParseDate8` accepts is the way its date is written. */
  lemma Date8ParseDate8(s: string)
    requires |s| == 8 && AllDigits(s) && ParseDate8(s).Some?
    ensures Date8(ParseDate8(s).value) == s
  {
    var d := ParseDate8(s).value;
    ParseNatBound(s[..4]);
    assert Pow10(4) == 10000;
    ParseNatUnique(s[..4], Year4(d.year));
    Pad2Field(s[4..6]);
    Pad2Field(s[6..]);
    assert s == s[..4] + s[4..6] + s[6..];
  }

  /** `datetime.strptime(s, "%Y%m%d_%H%M%S")` on the canonical fifteen-character form; the
      hour, minute and second fields are then fixed-width for the same reason as in
      `ParseDate8`, and hour 24 or above, or minute or second 60 or above, raises ValueError. */
  function ParseStamp(s: string): (r: Option<DateTime>)
    ensures r.Some? ==> Valid(r.value) && r.value.micros % SECOND == 0 && r.value.date.year <= 9999
  {
    if |s| == 15 && AllDigits(s[..8]) && s[8] == '_' && AllDigits(s[9..]) then
      var date := ParseDate8(s[..8]);
      var h, m, sec := ParseNat(s[9..11]), ParseNat(s[11..13]), ParseNat(s[13..]);
      if date.Some? && h < 24 && m < 60 && sec < 60 then
        Some(DateTime(date.value, h * HOUR + m * MINUTE + sec * SECOND))
      else None
    else None
  }

  lemma SplitFields(u: int)
    requires 0 <= u < DAY && u % SECOND == 0
    ensures u == (u / HOUR) * HOUR + ((u % HOUR) / MINUTE) * MINUTE + ((u % MINUTE) / SECOND) * SECOND
  {
  }

  lemma JoinFields(h: nat, m: nat, sec: nat)
    requires h < 24 && m < 60 && sec < 60
    ensures var u := h * HOUR + m * MINUTE + sec * SECOND;
            0 <= u < DAY && u / HOUR == h && (u % HOUR) / MINUTE == m && (u % MINUTE) / SECOND == sec
  {
  }

  /** Every instant with whole seconds, written as a stamp, reads back as itself. */
  lemma ParseStampStamp(t: DateTime)
    requires Valid(t) && t.date.year <= 9999 && t.micros % SECOND == 0
    ensures ParseStamp(Stamp(t)) == Some(t)
  {
    var d8, hh, mm, ss := Date8(t.date), Pad2(Hour(t)), Pad2(Minute(t)), Pad2(Second(t));
    ParseDate8Date8(t.date);
    Slices15(d8, hh, mm, ss);
    assert Stamp(t) == d8 + "_" + (hh + mm + ss);
    SplitFields(t.micros);
  }

  lemma Slices15(d8: string, hh: string, mm: string, ss: string)
    requires |d8| == 8 && |hh| == 2 && |mm| == 2 && |ss| == 2
    ensures var s := d8 + "_" + (hh + mm + ss);
      |s| == 15 && s[..8] == d8 && s[8] == '_' && s[9..] == hh + mm + ss
      && s[9..11] == hh && s[11..13] == mm && s[13..] == ss
  {
  }

  /** Every text `ParseStamp` accepts is the stamp of the instant it denotes. */
  lemma StampParseStamp(s: string)
    requires ParseStamp(s).Some?
    ensures Stamp(ParseStamp(s).value) == s
  {
    var t := ParseStamp(s).value;
    Date8ParseDate8(s[..8]);
    JoinFields(ParseNat(s[9..11]), ParseNat(s[11..13]), ParseNat(s[13..]));
    Pad2Field(s[9..11]);
    Pad2Field(s[11..13]);
    Pad2Field(s[13..]);
    assert s == s[..8] + "_" + s[9..11] + s[11..13] + s[13..];
  }
}
