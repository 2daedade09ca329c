/** `rfc3339`'s date: seconds since the epoch as a civil date and time of day, and
    the proof that the date is the proleptic Gregorian calendar's. Days are counted
    in eras of 400 years, each year from its first of March. */
module CivilDate {

  datatype Date = Date(year: int, month: int, day: int)

  datatype Stamp = Stamp(date: Date, hour: int, minute: int, second: int)

  // ── The calendar ──

  predicate Leap(year: int) {
    year % 4 == 0 && (year % 100 != 0 || year % 400 == 0)
  }

  function DaysIn(year: int, month: int): int {
    if month == 2 then (if Leap(year) then 29 else 28)
    else if month == 4 || month == 6 || month == 9 || month == 11 then 30
    else 31
  }

  predicate Valid(date: Date) {
    1 <= date.month <= 12 && 1 <= date.day <= DaysIn(date.year, date.month)
  }

  /** The day after. */
  function Next(date: Date): Date {
    if date.day < DaysIn(date.year, date.month) then date.(day := date.day + 1)
    else if date.month < 12 then Date(date.year, date.month + 1, 1)
    else Date(date.year + 1, 1, 1)
  }

  /** Days from 1 January of the year 1 to 1 January of `year`. */
  function DaysBeforeYear(year: int): int {
    365 * (year - 1) + (year - 1) / 4 - (year - 1) / 100 + (year - 1) / 400
  }

  function DaysBeforeMonth(year: int, month: int): int
    requires 1 <= month <= 12
  {
    if month == 1 then 0 else DaysBeforeMonth(year, month - 1) + DaysIn(year, month - 1)
  }

  /** The number of a date, 1 January 1970 being 0. */
  function DayNumber(date: Date): int
    requires Valid(date)
  {
    DaysBeforeYear(date.year) + DaysBeforeMonth(date.year, date.month) + date.day - 1 - 719_162
  }

  // ── The program ──

  /** The year of its era that day `doe` of the era falls in, years beginning in
      March. */
  function YearOfEra(doe: int): int {
    (doe - doe / 1460 + doe / 36_524 - doe / 146_096) / 365
  }

  function Civil(days: int): Date {
    var z := days + 719_468;
    var era := z / 146_097;
    var doe := z - era * 146_097;
    var yoe := YearOfEra(doe);
    var y := yoe + era * 400;
    var doy := doe - (365 * yoe + yoe / 4 - yoe / 100);
    var mp := (5 * doy + 2) / 153;
    var d := doy - (153 * mp + 2) / 5 + 1;
    var m := if mp < 10 then mp + 3 else mp - 9;
    Date(if m <= 2 then y + 1 else y, m, d)
  }

  function Rfc3339(secs: int): Stamp {
    var rem := secs % 86_400;
    Stamp(Civil(secs / 86_400), rem / 3600, (rem % 3600) / 60, rem % 60)
  }

  // ── Its parts ──

  function YearStart(yoe: int): int {
    365 * yoe + yoe / 4 - yoe / 100
  }

  /** A day of an era taken apart: its century, four-year cycle, year and day.
      A year has a day 365 only as the last of its cycle, before a leap year's
      March. */
  lemma SplitDay(doe: int) returns (c: int, q: int, r: int, s: int)
    requires 0 <= doe < 146_097
    ensures 0 <= c <= 3 && 0 <= q <= 24 && 0 <= r <= 3 && 0 <= s <= 365
    ensures doe == 36_524 * c + 1461 * q + 365 * r + s
    ensures s == 365 ==> r == 3 && (q == 24 ==> c == 3)
    ensures doe == 146_096 <==> c == 3 && q == 24 && r == 3 && s == 365
  {
    c := if doe / 36_524 > 3 then 3 else doe / 36_524;
    var doc := doe - 36_524 * c;
    q := if doc / 1461 > 24 then 24 else doc / 1461;
    var doq := doc - 1461 * q;
    r := if doq / 365 > 3 then 3 else doq / 365;
    s := doq - 365 * r;
  }

  lemma YearOfEraIs(doe: int, c: int, q: int, r: int, s: int)
    requires 0 <= doe < 146_097
    requires 0 <= c <= 3 && 0 <= q <= 24 && 0 <= r <= 3 && 0 <= s <= 365
    requires doe == 36_524 * c + 1461 * q + 365 * r + s
    requires s == 365 ==> r == 3 && (q == 24 ==> c == 3)
    requires doe == 146_096 <==> c == 3 && q == 24 && r == 3 && s == 365
    ensures YearOfEra(doe) == 100 * c + 4 * q + r
    ensures YearStart(100 * c + 4 * q + r) + s == doe
  {
    var e := if 24 * c + q + 365 * r + s >= 1460 then 1 else 0;
    assert doe == 1460 * (25 * c + q) + (24 * c + q + 365 * r + s);
    assert doe / 1460 == 25 * c + q + e;
    assert doe / 36_524 - doe / 146_096 == c;
    var yoe := 100 * c + 4 * q + r;
    assert doe - doe / 1460 + doe / 36_524 - doe / 146_096 == 365 * yoe + (s - e);
    assert yoe / 4 == 25 * c + q && yoe / 100 == c;
  }

  /** Where each month begins in a year that begins in March. */
  function MonthStart(mp: int): int {
    (153 * mp + 2) / 5
  }

  function MonthOf(mp: int): int {
    if mp < 10 then mp + 3 else mp - 9
  }

  lemma MonthIsRight(doy: int, mp: int)
    requires 0 <= doy <= 365 && mp == (5 * doy + 2) / 153
    ensures 0 <= mp <= 11 && MonthStart(mp) <= doy
    ensures mp < 11 ==> doy < MonthStart(mp + 1)
    ensures mp == 11 ==> MonthStart(mp) == 337
  {
  }

  /** Days from 1 March of the year 0 to 1 March of `year`. */
  function March(year: int): int {
    365 * year + year / 4 - year / 100 + year / 400
  }

  lemma MarchAndJanuary(year: int)
    ensures DaysBeforeYear(year + 1) == March(year)
    ensures DaysBeforeYear(year) + 59 + (if Leap(year) then 1 else 0) == March(year) - 306
  {
    assert year / 4 == (year - 1) / 4 + if year % 4 == 0 then 1 else 0;
    assert year / 100 == (year - 1) / 100 + if year % 100 == 0 then 1 else 0;
    assert year / 400 == (year - 1) / 400 + if year % 400 == 0 then 1 else 0;
    assert year % 400 == 0 ==> year % 100 == 0;
    assert year % 100 == 0 ==> year % 4 == 0;
  }

  lemma MonthsFromMarch(year: int, mp: int)
    requires 0 <= mp <= 9
    ensures DaysBeforeMonth(year, mp + 3) == 59 + (if Leap(year) then 1 else 0) + MonthStart(mp)
    ensures mp < 9 ==> DaysIn(year, mp + 3) == MonthStart(mp + 1) - MonthStart(mp)
    ensures mp == 9 ==> DaysIn(year, mp + 3) == MonthStart(mp + 1) - MonthStart(mp)
  {
    if mp == 0 {
      assert DaysBeforeMonth(year, 1) == 0;
      assert DaysBeforeMonth(year, 2) == 31;
    } else {
      MonthsFromMarch(year, mp - 1);
    }
  }

  lemma EraYear(era: int, yoe: int)
    requires 0 <= yoe < 400
    ensures March(yoe + 400 * era) == 146_097 * era + YearStart(yoe)
  {
    var y := yoe + 400 * era;
    assert y / 4 == yoe / 4 + 100 * era;
    assert y / 100 == yoe / 100 + 4 * era;
    assert y / 400 == era;
  }

  lemma LeapInCentury(century: int, quad: int)
    requires 1 <= quad <= 24
    ensures Leap(100 * century + 4 * quad)
  {
    var y := 100 * century + 4 * quad;
    assert y == 4 * (25 * century + quad) && y / 100 == century;
  }

  lemma LeapFourHundred(k: int)
    ensures Leap(400 * k)
  {
    assert 400 * k == 4 * (100 * k) && (400 * k) % 400 == 0;
  }

  /** A year that begins in March has a day 365 only when the February it ends
      with has a 29th. */
  lemma LastDayOfFebruary(era: int, c: int, q: int, r: int, s: int)
    requires 0 <= c <= 3 && 0 <= q <= 24 && 0 <= r <= 3
    requires s == 365 ==> r == 3 && (q == 24 ==> c == 3)
    ensures s == 365 ==> Leap(100 * c + 4 * q + r + era * 400 + 1)
  {
    if s == 365 && q < 24 {
      LeapInCentury(c + 4 * era, q + 1);
    } else if s == 365 {
      LeapFourHundred(1 + era);
    }
  }

  /** The date of day `doy` of the year that begins in March of `y`. */
  function FromMarch(y: int, doy: int): Date {
    var mp := (5 * doy + 2) / 153;
    var m := MonthOf(mp);
    Date(if m <= 2 then y + 1 else y, m, doy - MonthStart(mp) + 1)
  }

  lemma EraParts(doe: int, era: int) returns (doy: int)
    requires 0 <= doe < 146_097
    ensures 0 <= YearOfEra(doe) < 400
    ensures 0 <= doy <= 365 && YearStart(YearOfEra(doe)) + doy == doe
    ensures doy == 365 ==> Leap(YearOfEra(doe) + era * 400 + 1)
  {
    var c, q, r, s := SplitDay(doe);
    YearOfEraIs(doe, c, q, r, s);
    LastDayOfFebruary(era, c, q, r, s);
    doy := s;
  }

  lemma CivilParts(days: int) returns (y: int, doy: int)
    ensures 0 <= doy <= 365 && (doy == 365 ==> Leap(y + 1))
    ensures March(y) + doy == days + 719_468
    ensures Civil(days) == FromMarch(y, doy)
  {
    var z := days + 719_468;
    var era := z / 146_097;
    var doe := z - era * 146_097;
    doy := EraParts(doe, era);
    EraYear(era, YearOfEra(doe));
    y := YearOfEra(doe) + era * 400;
  }

  lemma FromMarchIsTheCalendar(y: int, doy: int)
    requires 0 <= doy <= 365 && (doy == 365 ==> Leap(y + 1))
    ensures Valid(FromMarch(y, doy))
    ensures DayNumber(FromMarch(y, doy)) == March(y) + doy - 719_468
  {
    var mp := (5 * doy + 2) / 153;
    MonthIsRight(doy, mp);
    MarchAndJanuary(y);
    if mp < 10 {
      MonthsFromMarch(y, mp);
    } else {
      assert DaysBeforeMonth(y + 1, 1) == 0;
      assert DaysBeforeMonth(y + 1, 2) == 31;
    }
  }

  // ── The theorems ──

  /** The date is one the calendar has, and its number is the day asked for. */
  lemma CivilIsTheCalendar(days: int)
    ensures Valid(Civil(days)) && DayNumber(Civil(days)) == days
  {
    var y, doy := CivilParts(days);
    FromMarchIsTheCalendar(y, doy);
  }

  lemma {:induction false} MonthsGrow(year: int, m: int, n: int)
    requires 1 <= m < n <= 12
    ensures DaysBeforeMonth(year, m) + DaysIn(year, m) <= DaysBeforeMonth(year, n)
    decreases n
  {
    if m < n - 1 {
      MonthsGrow(year, m, n - 1);
    }
  }

  lemma YearLength(year: int)
    ensures DaysBeforeYear(year + 1) == DaysBeforeYear(year) + 365 + (if Leap(year) then 1 else 0)
    ensures DaysBeforeMonth(year, 12) + 31 == 365 + (if Leap(year) then 1 else 0)
  {
    MarchAndJanuary(year);
    MonthsFromMarch(year, 9);
  }

  lemma {:induction false} YearsGrow(y: int, z: int)
    requires y <= z
    ensures DaysBeforeYear(y) <= DaysBeforeYear(z)
    decreases z - y
  {
    if y < z {
      YearLength(z - 1);
      YearsGrow(y, z - 1);
    }
  }

  /** A date's number falls within its year's. */
  lemma WithinYear(date: Date)
    requires Valid(date)
    ensures DaysBeforeYear(date.year) <= DayNumber(date) + 719_162 < DaysBeforeYear(date.year + 1)
  {
    YearLength(date.year);
    if date.month < 12 {
      MonthsGrow(date.year, date.month, 12);
    }
    if date.month > 1 {
      MonthsGrow(date.year, 1, date.month);
    }
  }

  /** No two dates have one number. */
  lemma DayNumberIsOne(a: Date, b: Date)
    requires Valid(a) && Valid(b) && DayNumber(a) == DayNumber(b)
    ensures a == b
  {
    WithinYear(a);
    WithinYear(b);
    if a.year < b.year {
      YearsGrow(a.year + 1, b.year);
    } else if b.year < a.year {
      YearsGrow(b.year + 1, a.year);
    } else if a.month < b.month {
      MonthsGrow(a.year, a.month, b.month);
    } else if b.month < a.month {
      MonthsGrow(a.year, b.month, a.month);
    }
  }

  lemma NextIsNumberedNext(date: Date)
    requires Valid(date)
    ensures Valid(Next(date)) && DayNumber(Next(date)) == DayNumber(date) + 1
  {
    YearLength(date.year);
    assert DaysBeforeMonth(date.year + 1, 1) == 0;
  }

  /** Every date of the calendar is the date of its number. */
  lemma CivilOfNumber(date: Date)
    requires Valid(date)
    ensures Civil(DayNumber(date)) == date
  {
    CivilIsTheCalendar(DayNumber(date));
    DayNumberIsOne(Civil(DayNumber(date)), date);
  }

  /** The next day's date is the calendar's next, across the ends of months,
      years, centuries and eras. */
  lemma NextDay(days: int)
    ensures Civil(days + 1) == Next(Civil(days))
  {
    CivilIsTheCalendar(days);
    CivilIsTheCalendar(days + 1);
    NextIsNumberedNext(Civil(days));
    DayNumberIsOne(Civil(days + 1), Next(Civil(days)));
  }

  /** Day 0 is 1 January 1970. */
  lemma Epoch()
    ensures Civil(0) == Date(1970, 1, 1)
  {
    var date := Date(1970, 1, 1);
    assert DaysBeforeMonth(1970, 1) == 0;
    assert DaysBeforeYear(1970) == 719_162;
    CivilOfNumber(date);
    assert DayNumber(date) == 0;
  }

  /** The stamp is a date of the calendar and a time of day, and nothing of the
      count is lost in it. */
  lemma StampIsExact(secs: int)
    ensures var t := Rfc3339(secs);
      && Valid(t.date)
      && 0 <= t.hour <= 23 && 0 <= t.minute <= 59 && 0 <= t.second <= 59
      && secs == 86_400 * DayNumber(t.date) + 3600 * t.hour + 60 * t.minute + t.second
  {
    CivilIsTheCalendar(secs / 86_400);
    TimeOfDay(secs % 86_400);
  }

  lemma TimeOfDay(rem: int)
    requires 0 <= rem < 86_400
    ensures 0 <= rem / 3600 <= 23 && 0 <= (rem % 3600) / 60 <= 59 && 0 <= rem % 60 <= 59
    ensures rem == 3600 * (rem / 3600) + 60 * ((rem % 3600) / 60) + rem % 60
  {
    assert rem % 60 == (rem % 3600) % 60;
  }

  /** The year has the four digits that RFC 3339 section 5.6 gives it exactly
      from the start of the year 0 to the end of the year 9999. */
  lemma FourDigitYear(secs: int)
    ensures 0 <= Rfc3339(secs).date.year <= 9999 <==> -62_167_219_200 <= secs <= 253_402_300_799
  {
    var days := secs / 86_400;
    CivilIsTheCalendar(days);
    var date := Civil(days);
    WithinYear(date);
    if date.year < 0 {
      YearsGrow(date.year + 1, 0);
    } else {
      YearsGrow(0, date.year);
    }
    if date.year > 9999 {
      YearsGrow(10_000, date.year);
    } else {
      YearsGrow(date.year + 1, 10_000);
    }
  }
}
