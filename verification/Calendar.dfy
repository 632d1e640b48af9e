/** Days and seconds since the epoch as dates and times of day. */
module Calendar {
  import opened Bits

  datatype Date = Date(year: int, month: int, day: int)

  // The proleptic Gregorian calendar

  predicate IsLeap(year: int) {
    year % 4 == 0 && (year % 100 != 0 || year % 400 == 0)
  }

  function DaysInMonth(year: int, month: int): int {
    if month == 2 then (if IsLeap(year) then 29 else 28)
    else if month == 4 || month == 6 || month == 9 || month == 11 then 30
    else 31
  }

  predicate Valid(date: Date) {
    1 <= date.month <= 12 && 1 <= date.day <= DaysInMonth(date.year, date.month)
  }

  function Successor(date: Date): Date {
    if date.day < DaysInMonth(date.year, date.month) then date.(day := date.day + 1)
    else if date.month < 12 then Date(date.year, date.month + 1, 1)
    else Date(date.year + 1, 1, 1)
  }

  predicate Before(a: Date, b: Date) {
    || a.year < b.year
    || (a.year == b.year && (a.month < b.month || (a.month == b.month && a.day < b.day)))
  }

  // The number of a date, counted from 1970-01-01

  const EPOCH := 719162

  function DaysBeforeYear(year: int): int {
    365 * (year - 1) + (year - 1) / 4 - (year - 1) / 100 + (year - 1) / 400
  }

  function DaysBeforeMonth(year: int, month: int): int
    decreases month
  {
    if month <= 1 then 0 else DaysBeforeMonth(year, month - 1) + DaysInMonth(year, month - 1)
  }

  function DayNumber(date: Date): int {
    DaysBeforeYear(date.year) + DaysBeforeMonth(date.year, date.month) + (date.day - 1) - EPOCH
  }

  /** Division with remainder is unique. */
  lemma {:induction false} Quotient(x: int, m: int, k: int)
    requires m > 0 && k * m <= x < (k + 1) * m
    ensures x / m == k && x % m == x - k * m
  {
    Scaled(k, m);
    DivUnique(x, m, k);
  }

  lemma {:induction false} Scaled(k: int, m: int)
    ensures k * m + m == (k + 1) * m == m * k + m
  {
  }

  /** A quotient grows by one exactly at the multiples. */
  lemma {:induction false} QuotientStep(x: int, m: int)
    requires m > 1
    ensures x / m == (x - 1) / m + (if x % m == 0 then 1 else 0)
  {
    Scaled(x / m, m);
    Scaled(x / m - 1, m);
    Quotient(x - 1, m, if x % m == 0 then x / m - 1 else x / m);
  }

  lemma {:induction false} Multiples(year: int)
    ensures year % 400 == 0 ==> year % 100 == 0
    ensures year % 100 == 0 ==> year % 4 == 0
  {
    if year % 400 == 0 { Quotient(year, 100, 4 * (year / 400)); }
    if year % 100 == 0 { Quotient(year, 4, 25 * (year / 100)); }
  }

  lemma {:induction false} YearLength(year: int)
    ensures DaysBeforeYear(year + 1) == DaysBeforeYear(year) + 365 + (if IsLeap(year) then 1 else 0)
  {
    QuotientStep(year, 4);
    QuotientStep(year, 100);
    QuotientStep(year, 400);
    Multiples(year);
  }

  lemma {:induction false} MonthTable(year: int)
    ensures DaysBeforeMonth(year, 3) == 59 + (if IsLeap(year) then 1 else 0)
    ensures DaysBeforeMonth(year, 1) == 0 && DaysBeforeMonth(year, 2) == 31
    ensures var march := DaysBeforeMonth(year, 3);
            && DaysBeforeMonth(year, 4) == march + 31 && DaysBeforeMonth(year, 5) == march + 61
            && DaysBeforeMonth(year, 6) == march + 92 && DaysBeforeMonth(year, 7) == march + 122
            && DaysBeforeMonth(year, 8) == march + 153 && DaysBeforeMonth(year, 9) == march + 184
            && DaysBeforeMonth(year, 10) == march + 214 && DaysBeforeMonth(year, 11) == march + 245
            && DaysBeforeMonth(year, 12) == march + 275
  {
    hide IsLeap;
    assert DaysBeforeMonth(year, 2) == 31;
    assert DaysBeforeMonth(year, 4) == DaysBeforeMonth(year, 3) + 31;
    assert DaysBeforeMonth(year, 6) == DaysBeforeMonth(year, 4) + 61;
    assert DaysBeforeMonth(year, 8) == DaysBeforeMonth(year, 6) + 61;
    assert DaysBeforeMonth(year, 10) == DaysBeforeMonth(year, 8) + 61;
  }

  /** Counting days is counting successors. */
  lemma {:induction false} SuccessorIsNextNumber(date: Date)
    requires Valid(date)
    ensures Valid(Successor(date)) && DayNumber(Successor(date)) == DayNumber(date) + 1 && Before(date, Successor(date))
  {
    hide IsLeap, DaysBeforeYear;
    YearLength(date.year);
    MonthTable(date.year);
    MonthTable(date.year + 1);
  }

  lemma {:induction false} YearsGrow(a: int, b: int)
    requires a < b
    ensures DaysBeforeYear(a) + 365 + (if IsLeap(a) then 1 else 0) <= DaysBeforeYear(b)
    decreases b - a
  {
    hide IsLeap, DaysBeforeYear;
    YearLength(a);
    if a + 1 < b { YearsGrow(a + 1, b); }
  }

  lemma {:induction false} MonthsGrow(year: int, a: int, b: int)
    requires 1 <= a < b
    ensures DaysBeforeMonth(year, a) + DaysInMonth(year, a) <= DaysBeforeMonth(year, b)
    decreases b
  {
    hide IsLeap;
    if a + 1 < b { MonthsGrow(year, a, b - 1); }
  }

  lemma {:induction false} WithinYear(date: Date)
    requires Valid(date)
    ensures 0 <= DaysBeforeMonth(date.year, date.month) + (date.day - 1) < 365 + (if IsLeap(date.year) then 1 else 0)
  {
    hide IsLeap;
    MonthTable(date.year);
    if 1 < date.month { MonthsGrow(date.year, 1, date.month); }
    if date.month < 12 { MonthsGrow(date.year, date.month, 12); }
  }

  /** Later dates have larger numbers. */
  lemma {:induction false} NumbersKeepOrder(a: Date, b: Date)
    requires Valid(a) && Valid(b) && Before(a, b)
    ensures DayNumber(a) < DayNumber(b)
  {
    hide IsLeap, DaysBeforeYear;
    WithinYear(a);
    WithinYear(b);
    if a.year < b.year { YearsGrow(a.year, b.year); }
    else if a.month < b.month { MonthsGrow(a.year, a.month, b.month); }
  }

  lemma {:induction false} NumberDecidesDate(a: Date, b: Date)
    requires Valid(a) && Valid(b) && DayNumber(a) == DayNumber(b)
    ensures a == b
  {
    hide DayNumber, Valid;
    if Before(a, b) { NumbersKeepOrder(a, b); } else if Before(b, a) { NumbersKeepOrder(b, a); }
  }

  // The conversion

  /** Division that truncates toward zero. */
  function Truncating(a: int, b: int): int
    requires b > 0
  {
    if a >= 0 then a / b else -(-a / b)
  }

  function Era(days: int): int {
    Truncating(if days >= 0 then days else days - 146096, 146097)
  }

  function YearOfEra(dayOfEra: int): int {
    Truncating(dayOfEra - Truncating(dayOfEra, 1460) + Truncating(dayOfEra, 36524) - Truncating(dayOfEra, 146096), 365)
  }

  function DaysBeforeYearOfEra(year: int): int {
    365 * year + Truncating(year, 4) - Truncating(year, 100)
  }

  function MonthPrime(dayOfYear: int): int {
    Truncating(5 * dayOfYear + 2, 153)
  }

  function CivilFromDays(days: int): Date {
    var shifted := days + 719468;
    var era := Era(shifted);
    var dayOfEra := shifted - era * 146097;
    var yearOfEra := YearOfEra(dayOfEra);
    var dayOfYear := dayOfEra - DaysBeforeYearOfEra(yearOfEra);
    var monthPrime := MonthPrime(dayOfYear);
    var day := dayOfYear - Truncating(153 * monthPrime + 2, 5) + 1;
    var month := monthPrime + if monthPrime < 10 then 3 else -9;
    Date(yearOfEra + era * 400 + if month <= 2 then 1 else 0, month, day)
  }

  lemma {:induction false} EraIsFloor(days: int)
    ensures 0 <= days - Era(days) * 146097 < 146097
  {
  }

  /** A day of an era, taken apart into centuries, four-year cycles, years and days, counting from March. */
  predicate Parts(dayOfEra: int, c: int, q: int, y: int, d: int) {
    && 0 <= c <= 3 && 0 <= q <= 24 && 0 <= y <= 3 && 0 <= d <= 365
    && (d == 365 ==> y == 3 && (q == 24 ==> c == 3))
    && dayOfEra == 36524 * c + 1461 * q + 365 * y + d
  }

  lemma {:induction false} TakeApart(dayOfEra: int) returns (c: int, q: int, y: int, d: int)
    requires 0 <= dayOfEra < 146097
    ensures Parts(dayOfEra, c, q, y, d)
  {
    c := if dayOfEra / 36524 > 3 then 3 else dayOfEra / 36524;
    var r := dayOfEra - 36524 * c;
    q := r / 1461;
    var t := r - 1461 * q;
    y := if t / 365 > 3 then 3 else t / 365;
    d := t - 365 * y;
  }

  lemma {:induction false} YearOfEraIs(dayOfEra: int, c: int, q: int, y: int, d: int)
    requires Parts(dayOfEra, c, q, y, d)
    ensures YearOfEra(dayOfEra) == 100 * c + 4 * q + y
  {
    var last := dayOfEra == 146096;
    var carry := if 24 * c + q + 365 * y + d >= 1460 then 1 else 0;
    Quotient(dayOfEra, 1460, 25 * c + q + carry);
    Quotient(dayOfEra, 36524, if last then 4 else c);
    Quotient(dayOfEra, 146096, if last then 1 else 0);
    Quotient(dayOfEra - dayOfEra / 1460 + dayOfEra / 36524 - dayOfEra / 146096, 365, 100 * c + 4 * q + y);
  }

  lemma {:induction false} DaysBeforeYearIs(c: int, q: int, y: int)
    requires 0 <= c <= 3 && 0 <= q <= 24 && 0 <= y <= 3
    ensures DaysBeforeYearOfEra(100 * c + 4 * q + y) == 36524 * c + 1461 * q + 365 * y
  {
    Quotient(100 * c + 4 * q + y, 4, 25 * c + q);
    Quotient(100 * c + 4 * q + y, 100, c);
  }

  /** The end of a March year is the leap day exactly in the years that the calendar calls leap. */
  lemma {:induction false} LeapParts(era: int, c: int, q: int, y: int)
    requires 0 <= c <= 3 && 0 <= q <= 24 && 0 <= y <= 3
    ensures IsLeap(400 * era + 100 * c + 4 * q + y + 1) <==> y == 3 && (q == 24 ==> c == 3)
  {
    var year := 400 * era + 100 * c + 4 * q + y + 1;
    var endsCycle := y == 3;
    var endsCentury := endsCycle && q == 24;
    var endsEra := endsCentury && c == 3;
    Quotient(year, 4, 100 * era + 25 * c + q + (if endsCycle then 1 else 0));
    Quotient(year, 100, 4 * era + c + (if endsCentury then 1 else 0));
    Quotient(year, 400, era + (if endsEra then 1 else 0));
  }

  /** Where the March-based months start. */
  function MonthStart(m: int): int {
    Truncating(153 * m + 2, 5)
  }

  lemma {:induction false} MonthPrimeIs(dayOfYear: int)
    requires 0 <= dayOfYear <= 365
    ensures 0 <= MonthPrime(dayOfYear) <= 11
    ensures MonthStart(MonthPrime(dayOfYear)) <= dayOfYear
    ensures MonthPrime(dayOfYear) < 11 ==> dayOfYear < MonthStart(MonthPrime(dayOfYear) + 1)
  {
  }

  lemma {:induction false} MonthStarts()
    ensures MonthStart(0) == 0 && MonthStart(1) == 31 && MonthStart(2) == 61 && MonthStart(3) == 92
    ensures MonthStart(4) == 122 && MonthStart(5) == 153 && MonthStart(6) == 184 && MonthStart(7) == 214
    ensures MonthStart(8) == 245 && MonthStart(9) == 275 && MonthStart(10) == 306 && MonthStart(11) == 337
  {
  }

  /** The date of a day of a March year, by the calendar: March to December of that year, then January and February. */
  lemma {:induction false} MarchYear(marchYear: int, dayOfYear: int)
    requires 0 <= dayOfYear <= 365 && (dayOfYear == 365 ==> IsLeap(marchYear + 1))
    ensures var m := MonthPrime(dayOfYear);
            var month := m + if m < 10 then 3 else -9;
            var date := Date(marchYear + (if month <= 2 then 1 else 0), month, dayOfYear - MonthStart(m) + 1);
            Valid(date) && DayNumber(date) == DaysBeforeYear(marchYear + 1) - 306 + dayOfYear - EPOCH
  {
    hide IsLeap, DaysBeforeYear, MonthPrime, MonthStart, DaysBeforeMonth;
    MonthPrimeIs(dayOfYear);
    MonthStarts();
    MonthTable(marchYear);
    MonthTable(marchYear + 1);
    YearLength(marchYear);
  }

  lemma {:induction false} YearsBeforeEra(era: int, c: int, q: int, y: int)
    requires 0 <= c <= 3 && 0 <= q <= 24 && 0 <= y <= 3
    ensures DaysBeforeYear(400 * era + 100 * c + 4 * q + y + 1) == 146097 * era + 36524 * c + 1461 * q + 365 * y
  {
    var year := 400 * era + 100 * c + 4 * q + y;
    Quotient(year, 4, 100 * era + 25 * c + q);
    Quotient(year, 100, 4 * era + c);
    Quotient(year, 400, era);
  }

  /** The conversion gives, for every day, the one valid date with that number. */
  lemma {:induction false} CivilIsCalendar(days: int)
    ensures Valid(CivilFromDays(days)) && DayNumber(CivilFromDays(days)) == days
  {
    hide Era, YearOfEra, DaysBeforeYearOfEra, MonthPrime, IsLeap, DaysBeforeYear, DayNumber, Valid;
    var shifted := days + 719468;
    EraIsFloor(shifted);
    var era := Era(shifted);
    var c, q, y, d := TakeApart(shifted - era * 146097);
    YearOfEraIs(shifted - era * 146097, c, q, y, d);
    DaysBeforeYearIs(c, q, y);
    LeapParts(era, c, q, y);
    YearsBeforeEra(era, c, q, y);
    MarchYear(400 * era + 100 * c + 4 * q + y, d);
  }

  /** Every valid date is the date of exactly one day. */
  lemma {:induction false} Bijection(date: Date, days: int)
    requires Valid(date)
    ensures CivilFromDays(days) == date <==> days == DayNumber(date)
  {
    hide CivilFromDays, DayNumber, Valid;
    CivilIsCalendar(days);
    if days == DayNumber(date) { NumberDecidesDate(CivilFromDays(days), date); }
  }

  lemma {:induction false} EpochIsDayZero()
    ensures CivilFromDays(0) == Date(1970, 1, 1)
  {
    Bijection(Date(1970, 1, 1), 0);
    hide DaysBeforeMonth, CivilFromDays;
    MonthTable(1970);
  }

  /** Day zero is the epoch, and the next day has the next date. */
  lemma {:induction false} NextDay(days: int)
    ensures CivilFromDays(0) == Date(1970, 1, 1)
    ensures CivilFromDays(days + 1) == Successor(CivilFromDays(days))
  {
    EpochIsDayZero();
    hide CivilFromDays, DayNumber, Successor, Valid;
    CivilIsCalendar(days);
    CivilIsCalendar(days + 1);
    SuccessorIsNextNumber(CivilFromDays(days));
    NumberDecidesDate(CivilFromDays(days + 1), Successor(CivilFromDays(days)));
  }

  // Timestamps

  const NANOS := 1_000_000_000

  datatype Timestamp = Timestamp(date: Date, hour: int, minute: int, second: int)

  /** Whole seconds, as the code takes them from a time before or after the epoch. */
  function WholeSeconds(nanos: int): int {
    if nanos >= 0 then nanos / NANOS
    else -(-nanos / NANOS) - (if -nanos % NANOS != 0 then 1 else 0)
  }

  function Rfc3339(nanos: int): Timestamp {
    var seconds := WholeSeconds(nanos);
    var secondsOfDay := seconds % 86400;
    Timestamp(CivilFromDays(seconds / 86400), secondsOfDay / 3600, secondsOfDay % 3600 / 60, secondsOfDay % 60)
  }

  predicate ValidTimestamp(t: Timestamp) {
    Valid(t.date) && 0 <= t.hour < 24 && 0 <= t.minute < 60 && 0 <= t.second < 60
  }

  /** The nanosecond at which a timestamp's second starts. */
  function Start(t: Timestamp): int {
    (DayNumber(t.date) * 86400 + t.hour * 3600 + t.minute * 60 + t.second) * NANOS
  }

  lemma {:induction false} SecondsAreFloored(nanos: int)
    ensures WholeSeconds(nanos) * NANOS <= nanos < (WholeSeconds(nanos) + 1) * NANOS
  {
  }

  lemma {:induction false} ClockOf(s: int)
    requires 0 <= s < 86400
    ensures 0 <= s / 3600 < 24 && 0 <= s % 3600 / 60 < 60 && 0 <= s % 60 < 60
    ensures s / 3600 * 3600 + s % 3600 / 60 * 60 + s % 60 == s
  {
  }

  lemma {:induction false} SameClock(h: int, m: int, s: int, h': int, m': int, s': int, days: int, days': int)
    requires 0 <= h < 24 && 0 <= m < 60 && 0 <= s < 60 && 0 <= h' < 24 && 0 <= m' < 60 && 0 <= s' < 60
    requires days * 86400 + h * 3600 + m * 60 + s == days' * 86400 + h' * 3600 + m' * 60 + s'
    ensures days == days' && h == h' && m == m' && s == s'
  {
  }

  /** A timestamp names the one second, before the epoch too, that holds the given nanosecond. */
  lemma {:induction false} TimestampNamesSecond(nanos: int, t: Timestamp)
    requires ValidTimestamp(t)
    ensures Rfc3339(nanos) == t <==> Start(t) <= nanos < Start(t) + NANOS
    ensures ValidTimestamp(Rfc3339(nanos))
  {
    hide CivilFromDays, DayNumber, Valid, WholeSeconds;
    var r, seconds := Rfc3339(nanos), WholeSeconds(nanos);
    SecondsAreFloored(nanos);
    CivilIsCalendar(seconds / 86400);
    ClockOf(seconds % 86400);
    if Start(t) <= nanos < Start(t) + NANOS {
      SameClock(r.hour, r.minute, r.second, t.hour, t.minute, t.second, seconds / 86400, DayNumber(t.date));
      NumberDecidesDate(r.date, t.date);
    }
  }
}
