/** The closed-form Gregorian date of a day count, against the day-by-day calendar. */
module Calendar {
  import opened PowersOfTwo

  datatype Date = Date(year: int, month: int, day: int)

  // ----- The reference calendar

  predicate IsLeap(year: int) {
    year % 4 == 0 && (year % 100 != 0 || year % 400 == 0)
  }

  function DaysInMonth(year: int, month: int): int {
    if month == 2 then (if IsLeap(year) then 29 else 28)
    else if month in {4, 6, 9, 11} then 30
    else 31
  }

  predicate IsDate(date: Date) {
    1 <= date.month <= 12 && 1 <= date.day <= DaysInMonth(date.year, date.month)
  }

  /** The day after `date`. */
  function NextDay(date: Date): Date {
    if date.day < DaysInMonth(date.year, date.month) then Date(date.year, date.month, date.day + 1)
    else if date.month < 12 then Date(date.year, date.month + 1, 1)
    else Date(date.year + 1, 1, 1)
  }

  // ----- The code, by eras of 400 years that start in March

  /** The year of the era that day `doe` of the era falls in. */
  function YearOfEra(doe: int): int {
    (doe - doe / 1_460 + doe / 36_524 - doe / 146_096) / 365
  }

  /** The days of an era before its year `y`. */
  function YearStart(y: int): int {
    365 * y + y / 4 - y / 100
  }

  /** The date of day `doy` of year `y` of era `era`. */
  function FromParts(era: int, y: int, doy: int): Date {
    var monthIndex := (5 * doy + 2) / 153;
    var day := doy - (153 * monthIndex + 2) / 5 + 1;
    var month := if monthIndex < 10 then monthIndex + 3 else monthIndex - 9;
    Date(y + era * 400 + if month <= 2 then 1 else 0, month, day)
  }

  /** `civil_from_days`; `/` and `%` are Euclidean, as `div_euclid` and `rem_euclid` are. */
  function CivilFromDays(days: int): Date {
    var shifted := days + 719_468;
    var era, dayOfEra := shifted / 146_097, shifted % 146_097;
    var yearOfEra := YearOfEra(dayOfEra);
    FromParts(era, yearOfEra, dayOfEra - YearStart(yearOfEra))
  }

  // ----- What the code's quotients mean

  /** Year `y` of an era ends in a leap February. */
  predicate EndsLeap(y: int) {
    y == 399 || ((y + 1) % 4 == 0 && (y + 1) % 100 != 0)
  }

  function YearLength(y: int): int {
    if EndsLeap(y) then 366 else 365
  }

  /** The year that the code's quotients name is the one whose days contain `doe`. */
  lemma YearOfEraContains(doe: int) returns (y: int)
    requires 0 <= doe < 146_097
    ensures y == YearOfEra(doe)
    ensures 0 <= y < 400 && 0 <= doe - YearStart(y) < YearLength(y)
  {
    var c, r := CenturyOf(doe);
    var q, s := OlympiadOf(c, r);
    var t := if s >= 1_095 then 3 else s / 365;
    y := 100 * c + 4 * q + t;
    var e := if 24 * c + q + s >= 1_460 then 1 else 0;
    assert doe == 1_460 * (25 * c + q + e) + (24 * c + q + s - 1_460 * e);
    assert doe / 1_460 == 25 * c + q + e;
    assert doe - doe / 1_460 + doe / 36_524 - doe / 146_096 == 365 * (100 * c + 4 * q) + s - e;
    assert (365 * (100 * c + 4 * q) + s - e) / 365 == y;
    YearStartOf(c, q, t);
    assert doe - YearStart(y) == s - 365 * t;
  }

  lemma CenturyOf(doe: int) returns (c: int, r: int)
    requires 0 <= doe < 146_097
    ensures 0 <= c < 4 && 0 <= r && doe == 36_524 * c + r
    ensures r < 36_524 || (c == 3 && r == 36_524)
    ensures doe / 36_524 - doe / 146_096 == c
  {
    c := if doe == 146_096 then 3 else doe / 36_524;
    r := doe - 36_524 * c;
  }

  lemma OlympiadOf(c: int, r: int) returns (q: int, s: int)
    requires 0 <= c < 4 && 0 <= r && (r < 36_524 || (c == 3 && r == 36_524))
    ensures 0 <= q < 25 && 0 <= s < 1_461 && r == 1_461 * q + s
    ensures q == 24 && c < 3 ==> s < 1_460
  {
    q, s := r / 1_461, r % 1_461;
  }

  lemma YearStartOf(c: int, q: int, t: int)
    requires 0 <= c < 4 && 0 <= q < 25 && 0 <= t < 4
    ensures YearStart(100 * c + 4 * q + t) == 36_524 * c + 1_461 * q + 365 * t
    ensures EndsLeap(100 * c + 4 * q + t) <==> t == 3 && (q < 24 || c == 3)
  {
    var y := 100 * c + 4 * q + t;
    assert y / 4 == 25 * c + q;
    assert y / 100 == c;
  }

  /** Every day count has one era, year of era and day of year, and the code finds them. */
  lemma Parts(days: int) returns (era: int, y: int, doy: int)
    ensures 0 <= y < 400 && 0 <= doy < YearLength(y)
    ensures days + 719_468 == 146_097 * era + YearStart(y) + doy
    ensures CivilFromDays(days) == FromParts(era, y, doy)
  {
    var shifted := days + 719_468;
    era := shifted / 146_097;
    y := YearOfEraContains(shifted % 146_097);
    doy := shifted % 146_097 - YearStart(y);
  }

  lemma YearStartMonotone(y: int, z: int)
    requires 0 <= y < z <= 400
    ensures YearStart(y) + YearLength(y) <= YearStart(z) + if z == 400 then 1 else 0
  {
    assert (y + 1) / 4 - y / 4 == if (y + 1) % 4 == 0 then 1 else 0;
    assert (y + 1) / 100 - y / 100 == if (y + 1) % 100 == 0 then 1 else 0;
  }

  lemma PartsUnique(era: int, y: int, doy: int, era': int, y': int, doy': int)
    requires 0 <= y < 400 && 0 <= doy < YearLength(y)
    requires 0 <= y' < 400 && 0 <= doy' < YearLength(y')
    requires 146_097 * era + YearStart(y) + doy == 146_097 * era' + YearStart(y') + doy'
    ensures era == era' && y == y' && doy == doy'
  {
    YearStartMonotone(y, 400);
    YearStartMonotone(y', 400);
    if y < y' {
      YearStartMonotone(y, y');
    } else if y' < y {
      YearStartMonotone(y', y);
    }
  }

  /** The code on any era, year and day of year. */
  lemma CivilFromParts(days: int, era: int, y: int, doy: int)
    requires 0 <= y < 400 && 0 <= doy < YearLength(y)
    requires days + 719_468 == 146_097 * era + YearStart(y) + doy
    ensures CivilFromDays(days) == FromParts(era, y, doy)
  {
    var era', y', doy' := Parts(days);
    PartsUnique(era, y, doy, era', y', doy');
  }

  lemma LeapYearOf(era: int, y: int)
    requires 0 <= y < 400
    ensures IsLeap(y + 1 + era * 400) <==> EndsLeap(y)
  {
    ModShift(y + 1, 100 * era, 4);
    ModShift(y + 1, 4 * era, 100);
    ModShift(y + 1, era, 400);
  }

  lemma ModShift(x: int, k: int, m: int)
    requires m > 0
    ensures (x + k * m) % m == x % m
  {
    assert x + k * m == (x / m + k) * m + x % m;
    ModUnique(x + k * m, m, x / m + k, x % m);
  }

  lemma FromPartsNext(era: int, y: int, doy: int)
    requires 0 <= y < 400 && 0 <= doy < YearLength(y)
    ensures IsDate(FromParts(era, y, doy))
    ensures NextDay(FromParts(era, y, doy))
            == if doy + 1 < YearLength(y) then FromParts(era, y, doy + 1)
               else if y < 399 then FromParts(era, y + 1, 0)
               else FromParts(era + 1, 0, 0)
  {
    var m := FromPartsIs(era, y, doy);
    MonthLength(era, y, m);
    if doy + 1 < YearLength(y) {
      var next := FromPartsIs(era, y, doy + 1);
      NextMonth(m, next, doy);
    } else {
      LastMonth(m, doy, YearLength(y));
      FirstOfMarch(era, y + 1);
      FirstOfMarch(era + 1, 0);
    }
  }

  /** The next day falls into the same month, or is the first of the next one. */
  lemma NextMonth(m: int, next: int, doy: int)
    requires 0 <= m < 12 && MonthStart(m) <= doy < MonthStart(m + 1)
    requires 0 <= next < 12 && MonthStart(next) <= doy + 1 < MonthStart(next + 1)
    ensures next == if doy + 1 < MonthStart(m + 1) then m else m + 1
  {
  }

  lemma LastMonth(m: int, doy: int, length: int)
    requires 0 <= m < 12 && MonthStart(m) <= doy < MonthStart(m + 1)
    requires doy + 1 == length && 365 <= length <= 366
    ensures m == 11
  {
  }

  lemma FirstOfMarch(era: int, y: int)
    ensures FromParts(era, y, 0) == Date(y + era * 400, 3, 1)
  {
  }

  /** The month that holds day `doy`, counted from March, and the date of that day. */
  lemma FromPartsIs(era: int, y: int, doy: int) returns (m: int)
    requires 0 <= doy < 366
    ensures 0 <= m < 12 && MonthStart(m) <= doy < MonthStart(m + 1)
    ensures FromParts(era, y, doy) == Date(YearOf(era, y, m), CalendarMonth(m), doy - MonthStart(m) + 1)
  {
    MonthOf(doy);
    m := (5 * doy + 2) / 153;
  }

  /** January and February belong to the next calendar year. */
  function YearOf(era: int, y: int, m: int): int {
    y + era * 400 + if m >= 10 then 1 else 0
  }

  function CalendarMonth(m: int): int {
    if m < 10 then m + 3 else m - 9
  }

  /** The months of a year from March have the calendar's lengths, February by the leap rule. */
  lemma MonthLength(era: int, y: int, m: int)
    requires 0 <= y < 400 && 0 <= m < 12
    ensures DaysInMonth(YearOf(era, y, m), CalendarMonth(m))
            == if m < 11 then MonthStart(m + 1) - MonthStart(m) else YearLength(y) - MonthStart(11)
  {
    LeapYearOf(era, y);
  }

  /** The month formula splits the year from March at the starts of its months. */
  lemma MonthOf(doy: int)
    requires 0 <= doy <= 366
    ensures var m := (5 * doy + 2) / 153;
            && 0 <= m <= 12
            && (m < 12 ==> MonthStart(m) <= doy < MonthStart(m + 1))
            && (153 * m + 2) / 5 == MonthStart(m)
  {
  }

  /** Days from 1 March to the start of month `m`, counted from March. */
  function MonthStart(m: int): int {
    if m <= 0 then 0 else if m == 1 then 31 else if m == 2 then 61 else if m == 3 then 92
    else if m == 4 then 122 else if m == 5 then 153 else if m == 6 then 184 else if m == 7 then 214
    else if m == 8 then 245 else if m == 9 then 275 else if m == 10 then 306 else if m == 11 then 337
    else 367
  }

  // ----- The main results

  lemma {:induction false} CivilFromDaysStart()
    ensures CivilFromDays(0) == Date(1970, 1, 1)
  {
    assert YearStart(369) == 365 * 369 + 92 - 3;
    assert 719_468 == 146_097 * 4 + YearStart(369) + 306;
    CivilFromParts(0, 4, 369, 306);
    assert (5 * 306 + 2) / 153 == 10 && (153 * 10 + 2) / 5 == 306;
  }

  /** For every day count, the code's next date is the calendar's next date. */
  lemma {:induction false} CivilFromDaysStep(days: int)
    ensures IsDate(CivilFromDays(days))
    ensures CivilFromDays(days + 1) == NextDay(CivilFromDays(days))
  {
    var era, y, doy := Parts(days);
    var era', y', doy' := NextParts(era, y, doy);
    CivilFromParts(days + 1, era', y', doy');
  }

  lemma NextParts(era: int, y: int, doy: int) returns (era': int, y': int, doy': int)
    requires 0 <= y < 400 && 0 <= doy < YearLength(y)
    ensures 0 <= y' < 400 && 0 <= doy' < YearLength(y')
    ensures 146_097 * era' + YearStart(y') + doy' == 146_097 * era + YearStart(y) + doy + 1
    ensures IsDate(FromParts(era, y, doy))
    ensures FromParts(era', y', doy') == NextDay(FromParts(era, y, doy))
  {
    FromPartsNext(era, y, doy);
    YearStartNext(y);
    if doy + 1 < YearLength(y) {
      return era, y, doy + 1;
    } else if y < 399 {
      return era, y + 1, 0;
    } else {
      return era + 1, 0, 0;
    }
  }

  lemma YearStartNext(y: int)
    requires 0 <= y < 400
    ensures YearStart(y) + YearLength(y) == if y < 399 then YearStart(y + 1) else 146_097
  {
    assert (y + 1) / 4 - y / 4 == if (y + 1) % 4 == 0 then 1 else 0;
    assert (y + 1) / 100 - y / 100 == if (y + 1) % 100 == 0 then 1 else 0;
  }

  // ----- The inverse

  function DaysBeforeYear(year: int): int {
    var past := year - 1;
    365 * past + past / 4 - past / 100 + past / 400
  }

  function DaysBeforeMonth(year: int, month: int): int
    decreases month
  {
    if month <= 1 then 0 else DaysBeforeMonth(year, month - 1) + DaysInMonth(year, month - 1)
  }

  /** The day count of a date from 1970-01-01, by January years. */
  function DayNumber(date: Date): int {
    DaysBeforeYear(date.year) + DaysBeforeMonth(date.year, date.month) + date.day - 719_163
  }

  predicate Before(a: Date, b: Date) {
    a.year < b.year || (a.year == b.year && (a.month < b.month || (a.month == b.month && a.day < b.day)))
  }

  lemma DaysOfYear(year: int)
    ensures DaysBeforeYear(year + 1) == DaysBeforeYear(year) + if IsLeap(year) then 366 else 365
  {
    QuotientStep(year, 4);
    QuotientStep(year, 100);
    QuotientStep(year, 400);
    Multiples(year);
  }

  lemma Multiples(year: int)
    ensures year % 400 == 0 ==> year % 100 == 0
    ensures year % 100 == 0 ==> year % 4 == 0
  {
    if year % 400 == 0 {
      ModUnique(year, 100, 4 * (year / 400), 0);
    }
    if year % 100 == 0 {
      ModUnique(year, 4, 25 * (year / 100), 0);
    }
  }

  lemma QuotientStep(x: int, m: int)
    requires m > 1
    ensures x / m == (x - 1) / m + if x % m == 0 then 1 else 0
  {
    if x % m == 0 {
      assert x - 1 == (x / m - 1) * m + (m - 1);
      ModUnique(x - 1, m, x / m - 1, m - 1);
    } else {
      assert x - 1 == x / m * m + (x % m - 1);
      ModUnique(x - 1, m, x / m, x % m - 1);
    }
  }

  lemma DaysOfMonths(year: int)
    ensures DaysBeforeMonth(year, 13) == if IsLeap(year) then 366 else 365
    ensures forall m :: 1 <= m <= 12 ==> DaysBeforeMonth(year, m + 1) == DaysBeforeMonth(year, m) + DaysInMonth(year, m)
  {
    assert DaysBeforeMonth(year, 5) == DaysBeforeMonth(year, 3) + 61;
    assert DaysBeforeMonth(year, 7) == DaysBeforeMonth(year, 5) + 61;
    assert DaysBeforeMonth(year, 9) == DaysBeforeMonth(year, 7) + 62;
    assert DaysBeforeMonth(year, 11) == DaysBeforeMonth(year, 9) + 61;
  }

  lemma DayNumberNext(date: Date)
    requires IsDate(date)
    ensures IsDate(NextDay(date)) && DayNumber(NextDay(date)) == DayNumber(date) + 1
  {
    DaysOfYear(date.year);
    DaysOfMonths(date.year);
  }

  /** A function on the integers that maps 0 to 0 and counts up by one is the identity. */
  lemma {:induction false} CountingIsIdentity(f: int -> int, n: int)
    requires f(0) == 0 && forall k :: Counts(f, k)
    ensures f(n) == n
    decreases if n < 0 then -n else n
  {
    if n > 0 {
      CountingIsIdentity(f, n - 1);
      assert Counts(f, n - 1);
    } else if n < 0 {
      CountingIsIdentity(f, n + 1);
      assert Counts(f, n);
    }
  }

  ghost predicate Counts(f: int -> int, k: int) {
    f(k + 1) == f(k) + 1
  }

  /** `civil_from_days` followed by the day count gives back every integer. */
  lemma {:induction false} DayNumberOfCivil(days: int)
    ensures DayNumber(CivilFromDays(days)) == days
  {
    var f := (n: int) => DayNumber(CivilFromDays(n));
    forall k
      ensures Counts(f, k)
    {
      CivilFromDaysStep(k);
      DayNumberNext(CivilFromDays(k));
    }
    assert f(0) == 0 by {
      CivilFromDaysStart();
    }
    CountingIsIdentity(f, days);
  }

  lemma {:induction false} DaysBeforeLaterYear(year: int, later: int)
    requires year < later
    ensures DaysBeforeYear(year) + (if IsLeap(year) then 366 else 365) <= DaysBeforeYear(later)
    decreases later - year
  {
    DaysOfYear(later - 1);
    if year < later - 1 {
      DaysBeforeLaterYear(year, later - 1);
    }
  }

  lemma {:induction false} DaysBeforeLaterMonth(year: int, month: int, later: int)
    requires 1 <= month < later
    ensures DaysBeforeMonth(year, month) + DaysInMonth(year, month) <= DaysBeforeMonth(year, later)
    decreases later - month
  {
    if month < later - 1 {
      DaysBeforeLaterMonth(year, month, later - 1);
    }
  }

  lemma DayNumberMonotone(a: Date, b: Date)
    requires IsDate(a) && IsDate(b) && Before(a, b)
    ensures DayNumber(a) < DayNumber(b)
  {
    if a.year < b.year {
      DaysOfMonths(a.year);
      DaysBeforeLaterMonth(a.year, a.month, 13);
      DaysBeforeLaterYear(a.year, b.year);
      if b.month > 1 {
        DaysBeforeLaterMonth(b.year, 1, b.month);
      }
    } else if a.month < b.month {
      DaysBeforeLaterMonth(a.year, a.month, b.month);
    }
  }

  /** The day count orders dates as the calendar does. */
  lemma {:induction false} DayNumberOrder(a: Date, b: Date)
    requires IsDate(a) && IsDate(b)
    ensures DayNumber(a) < DayNumber(b) <==> Before(a, b)
    ensures DayNumber(a) == DayNumber(b) <==> a == b
  {
    if Before(a, b) {
      DayNumberMonotone(a, b);
    } else if Before(b, a) {
      DayNumberMonotone(b, a);
    }
  }

  /** The day count followed by `civil_from_days` gives back every date of the calendar. */
  lemma {:induction false} CivilOfDayNumber(date: Date)
    requires IsDate(date)
    ensures CivilFromDays(DayNumber(date)) == date
  {
    DayNumberOfCivil(DayNumber(date));
    CivilFromDaysStep(DayNumber(date));
    DayNumberOrder(CivilFromDays(DayNumber(date)), date);
  }

  // ----- Printing a minute

  /** The fields of `format_date`: the date, the hour and the minute of an epoch millisecond in UTC. */
  datatype Fields = Fields(date: Date, hour: int, minute: int)

  function DateFields(epochMs: int): Fields {
    var seconds := epochMs / 1_000;
    var secondOfDay := seconds % 86_400;
    Fields(CivilFromDays(seconds / 86_400), secondOfDay / 3_600, secondOfDay % 3_600 / 60)
  }

  /** The minutes from 1970-01-01T00:00 to the given fields. */
  function MinuteNumber(fields: Fields): int {
    (DayNumber(fields.date) * 24 + fields.hour) * 60 + fields.minute
  }

  predicate IsMinute(fields: Fields) {
    IsDate(fields.date) && 0 <= fields.hour < 24 && 0 <= fields.minute < 60
  }

  /** The printed fields are a valid minute, the one the epoch millisecond falls in. */
  lemma {:induction false} FieldsRecoverMinute(epochMs: int)
    ensures IsMinute(DateFields(epochMs)) && MinuteNumber(DateFields(epochMs)) == epochMs / 60_000
  {
    var seconds := epochMs / 1_000;
    DayNumberOfCivil(seconds / 86_400);
    CivilFromDaysStep(seconds / 86_400);
    SplitSeconds(epochMs, seconds, seconds / 86_400, seconds % 86_400);
  }

  lemma SplitSeconds(epochMs: int, seconds: int, day: int, secondOfDay: int)
    requires seconds == epochMs / 1_000 && seconds == 86_400 * day + secondOfDay && 0 <= secondOfDay < 86_400
    ensures 0 <= secondOfDay / 3_600 < 24 && 0 <= secondOfDay % 3_600 / 60 < 60
    ensures (day * 24 + secondOfDay / 3_600) * 60 + secondOfDay % 3_600 / 60 == epochMs / 60_000
  {
    assert secondOfDay / 60 == 60 * (secondOfDay / 3_600) + secondOfDay % 3_600 / 60;
    assert seconds / 60 == 1_440 * day + secondOfDay / 60;
    assert epochMs / 60_000 == seconds / 60;
  }

  /** Valid minutes are ordered by date, then hour, then minute. */
  predicate Earlier(a: Fields, b: Fields) {
    Before(a.date, b.date)
    || (a.date == b.date && (a.hour < b.hour || (a.hour == b.hour && a.minute < b.minute)))
  }

  lemma MinuteNumberOrder(a: Fields, b: Fields)
    requires IsMinute(a) && IsMinute(b)
    ensures MinuteNumber(a) < MinuteNumber(b) <==> Earlier(a, b)
    ensures MinuteNumber(a) == MinuteNumber(b) <==> a == b
  {
    DayNumberOrder(a.date, b.date);
  }
}
