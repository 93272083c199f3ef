/** Day numbers and Gregorian dates: the date arithmetic of the capture's timestamps. */
module Calendar {

  datatype Date = Date(year: int, month: int, day: int)

  // ---------------------------------------------------------------- the calendar, by its rules

  predicate IsLeap(y: int) {
    y % 4 == 0 && (y % 100 != 0 || y % 400 == 0)
  }

  function YearLength(y: int): int {
    if IsLeap(y) then 366 else 365
  }

  /** Month lengths as in section 5.7 of RFC 3339. */
  function DaysInMonth(y: int, m: int): int {
    if m == 2 then (if IsLeap(y) then 29 else 28)
    else if m == 4 || m == 6 || m == 9 || m == 11 then 30
    else 31
  }

  predicate IsDate(d: Date) {
    1 <= d.month <= 12 && 1 <= d.day <= DaysInMonth(d.year, d.month)
  }

  /** The calendar successor of a date. */
  function NextDay(d: Date): Date {
    if d.day < DaysInMonth(d.year, d.month) then Date(d.year, d.month, d.day + 1)
    else if d.month < 12 then Date(d.year, d.month + 1, 1)
    else Date(d.year + 1, 1, 1)
  }

  /** Days from 1970-01-01 to the first of January of year y, one year at a time. */
  ghost function YearStart(y: int): int
    decreases if y >= 1970 then y - 1970 else 1970 - y
  {
    if y == 1970 then 0
    else if y > 1970 then YearStart(y - 1) + YearLength(y - 1)
    else YearStart(y + 1) - YearLength(y)
  }

  /** Days in the months of year y before month m, one month at a time. */
  ghost function MonthStart(y: int, m: int): int
    decreases m
  {
    if m <= 1 then 0 else MonthStart(y, m - 1) + DaysInMonth(y, m - 1)
  }

  /** The day count of a date, with 1970-01-01 as day 0. */
  ghost function DayNumber(d: Date): int {
    YearStart(d.year) + MonthStart(d.year, d.month) + d.day - 1
  }

  ghost predicate Before(a: Date, b: Date) {
    a.year < b.year || (a.year == b.year && (a.month < b.month || (a.month == b.month && a.day < b.day)))
  }

  // ---------------------------------------------------------------- the program's arithmetic

  /** Signed division that truncates toward zero. */
  function TruncDiv(a: int, b: int): int
    requires b > 0
  {
    if a >= 0 then a / b else -((-a) / b)
  }

  function YearOfEra(doe: int): int {
    (doe - doe / 1460 + doe / 36524 - doe / 146096) / 365
  }

  function CivilFromDays(days: int): Date {
    var z := days + 719468;
    var era := TruncDiv(if z >= 0 then z else z - 146096, 146097);
    var doe := z - era * 146097;
    var yoe := YearOfEra(doe);
    var y := yoe + era * 400;
    var doy := doe - (365 * yoe + yoe / 4 - yoe / 100);
    var mp := (5 * doy + 2) / 153;
    var d := doy - (153 * mp + 2) / 5 + 1;
    var m := if mp < 10 then mp + 3 else mp - 9;
    Date(if m <= 2 then y + 1 else y, m, d)
  }

  // ---------------------------------------------------------------- closed forms of the day count

  ghost function Leaps(n: int): int {
    n / 4 - n / 100 + n / 400
  }

  lemma LeapsStep(y: int)
    ensures Leaps(y) == Leaps(y - 1) + if IsLeap(y) then 1 else 0
  {
    assert y / 4 == (y - 1) / 4 + if y % 4 == 0 then 1 else 0;
    assert y / 100 == (y - 1) / 100 + if y % 100 == 0 then 1 else 0;
    assert y / 400 == (y - 1) / 400 + if y % 400 == 0 then 1 else 0;
    assert y % 100 == 0 ==> y % 4 == 0;
    assert y % 400 == 0 ==> y % 100 == 0;
  }

  /** Counting years one at a time agrees with the closed form, before and after 1970. */
  lemma {:induction false} YearStartClosed(y: int)
    ensures YearStart(y) == 365 * (y - 1970) + Leaps(y - 1) - 477
    decreases if y >= 1970 then y - 1970 else 1970 - y
  {
    if y > 1970 {
      YearStartClosed(y - 1);
      LeapsStep(y - 1);
    } else if y < 1970 {
      YearStartClosed(y + 1);
      LeapsStep(y);
    }
  }

  lemma MonthStarts(y: int)
    ensures MonthStart(y, 1) == 0 && MonthStart(y, 2) == 31
    ensures forall m :: 3 <= m <= 12 ==>
      MonthStart(y, m) == 59 + (if IsLeap(y) then 1 else 0) + (153 * (m - 3) + 2) / 5
    ensures forall m :: 1 <= m <= 12 ==> MonthStart(y, m) + DaysInMonth(y, m) == MonthStart(y, m + 1)
    ensures MonthStart(y, 13) == YearLength(y)
  {
    assert MonthStart(y, 3) == MonthStart(y, 2) + DaysInMonth(y, 2);
    assert MonthStart(y, 5) == MonthStart(y, 4) + DaysInMonth(y, 4);
    assert MonthStart(y, 7) == MonthStart(y, 6) + DaysInMonth(y, 6);
    assert MonthStart(y, 9) == MonthStart(y, 8) + DaysInMonth(y, 8);
    assert MonthStart(y, 11) == MonthStart(y, 10) + DaysInMonth(y, 10);
    assert MonthStart(y, 13) == MonthStart(y, 12) + DaysInMonth(y, 12);
  }

  // ---------------------------------------------------------------- the year within a 400-year era

  /** Days of an era before its March-based year yoe. */
  ghost function EraYearStart(yoe: int): int {
    365 * yoe + yoe / 4 - yoe / 100
  }

  /** A day of an era splits into centuries, four-year cycles, years and days. */
  lemma SplitEraDay(doe: int) returns (c: int, q: int, a: int, r: int)
    requires 0 <= doe < 146097
    ensures 0 <= c <= 3 && 0 <= q <= 24 && 0 <= a <= 3 && 0 <= r <= 365
    ensures doe == 36524 * c + 1461 * q + 365 * a + r
    ensures r == 365 ==> a == 3 && (q < 24 || c == 3)
  {
    c := if doe / 36524 < 3 then doe / 36524 else 3;
    var s := doe - 36524 * c;
    q := if s / 1461 < 24 then s / 1461 else 24;
    var t := s - 1461 * q;
    a := if t / 365 < 3 then t / 365 else 3;
    r := t - 365 * a;
  }

  lemma YearOfEraSplit(doe: int, c: int, q: int, a: int, r: int)
    requires 0 <= c <= 3 && 0 <= q <= 24 && 0 <= a <= 3 && 0 <= r <= 365
    requires doe == 36524 * c + 1461 * q + 365 * a + r
    requires r == 365 ==> a == 3 && (q < 24 || c == 3)
    ensures YearOfEra(doe) == 100 * c + 4 * q + a
  {
    var lo := 24 * c + q + 365 * a + r;
    assert doe == 1460 * (25 * c + q) + lo;
    assert doe / 1460 == 25 * c + q + lo / 1460;
    var carry := lo / 1460;
    assert carry == 0 || carry == 1;
    assert carry == 1 ==> a == 3 && r == 365 - (24 * c + q) + (lo - 1460);
    var mid := 1461 * q + 365 * a + r;
    assert mid <= 36524;
    var e := if mid == 36524 then 1 else 0;
    assert doe / 36524 == c + e;
    assert doe / 146096 == if doe == 146096 then 1 else 0;
    assert 36524 * c + 1461 * q + 365 * a + r - (25 * c + q) + c == 365 * (100 * c + 4 * q + a) + r;
  }

  /** The year the program picks is the one whose span contains the day. */
  lemma YearOfEraBounds(doe: int)
    requires 0 <= doe < 146097
    ensures 0 <= YearOfEra(doe) <= 399
    ensures var yoe := YearOfEra(doe);
      0 <= doe - EraYearStart(yoe) < 365 + if yoe % 4 == 3 && (yoe % 100 != 99 || yoe == 399) then 1 else 0
  {
    var c, q, a, r := SplitEraDay(doe);
    YearOfEraSplit(doe, c, q, a, r);
    var yoe := 100 * c + 4 * q + a;
    assert yoe / 4 == 25 * c + q;
    assert yoe / 100 == c;
    assert yoe % 4 == a;
    assert yoe % 100 == 4 * q + a;
  }

  lemma EraFloor(z: int)
    ensures TruncDiv(if z >= 0 then z else z - 146096, 146097) == z / 146097
  {
  }

  lemma LeapsOfEra(era: int, yoe: int)
    requires 0 <= yoe <= 399
    ensures Leaps(yoe + era * 400) == 97 * era + yoe / 4 - yoe / 100
  {
    var y := yoe + era * 400;
    assert y / 4 == era * 100 + yoe / 4;
    assert y / 100 == era * 4 + yoe / 100;
    assert y / 400 == era;
  }

  lemma EraResidues(era: int, n: int)
    ensures (n + era * 400) % 4 == n % 4
    ensures (n + era * 400) % 100 == n % 100
    ensures (n + era * 400) % 400 == n % 400
  {
    var y := n + era * 400;
    assert y / 4 == era * 100 + n / 4;
    assert y / 100 == era * 4 + n / 100;
    assert y / 400 == era + n / 400;
  }

  lemma LeapAfter(era: int, yoe: int)
    requires 0 <= yoe <= 399
    ensures IsLeap(yoe + era * 400 + 1) <==> yoe % 4 == 3 && (yoe % 100 != 99 || yoe == 399)
  {
    EraResidues(era, yoe + 1);
    assert (yoe + 1) % 4 == 0 <==> yoe % 4 == 3;
    assert (yoe + 1) % 100 == 0 <==> yoe % 100 == 99;
    assert (yoe + 1) % 400 == 0 <==> yoe == 399;
  }

  /** The months of a March-based year: 153 days for every five months. */
  lemma MonthOfYear(doy: int)
    requires 0 <= doy <= 365
    ensures var mp := (5 * doy + 2) / 153;
      0 <= mp <= 11 && (153 * mp + 2) / 5 <= doy < (153 * (mp + 1) + 2) / 5
  {
  }

  // ---------------------------------------------------------------- the theorems

  /** Day doy of the year that starts on the first of March of year y. */
  ghost function MarchDateOf(y: int, doy: int): Date {
    var mp := (5 * doy + 2) / 153;
    var d := doy - (153 * mp + 2) / 5 + 1;
    var m := if mp < 10 then mp + 3 else mp - 9;
    Date(if m <= 2 then y + 1 else y, m, d)
  }

  /** Where the months fall when a year is counted from the first of March. */
  lemma MarchMonths(y: int, mp: int)
    requires 0 <= mp <= 11
    ensures mp <= 9 ==> MonthStart(y, mp + 3) == 59 + (if IsLeap(y) then 1 else 0) + (153 * mp + 2) / 5
    ensures mp <= 9 ==> DaysInMonth(y, mp + 3) == (153 * (mp + 1) + 2) / 5 - (153 * mp + 2) / 5
    ensures mp >= 10 ==> MonthStart(y + 1, mp - 9) == (153 * mp + 2) / 5 - 306
    ensures mp == 10 ==> DaysInMonth(y + 1, mp - 9) == (153 * (mp + 1) + 2) / 5 - (153 * mp + 2) / 5
    ensures mp == 11 ==> DaysInMonth(y + 1, mp - 9) == 28 + if IsLeap(y + 1) then 1 else 0
  {
    if mp <= 9 {
      MonthStarts(y);
      assert MonthStart(y, mp + 3) + DaysInMonth(y, mp + 3) == MonthStart(y, mp + 4);
    } else {
      MonthStarts(y + 1);
    }
  }

  lemma YearStartStep(y: int)
    ensures YearStart(y + 1) == YearStart(y) + YearLength(y)
  {
    YearStartClosed(y);
    YearStartClosed(y + 1);
    LeapsStep(y);
  }

  lemma MarchDate(y: int, doy: int)
    requires 0 <= doy < 365 + if IsLeap(y + 1) then 1 else 0
    ensures IsDate(MarchDateOf(y, doy))
    ensures DayNumber(MarchDateOf(y, doy)) == YearStart(y) + 59 + (if IsLeap(y) then 1 else 0) + doy
  {
    MonthOfYear(doy);
    MarchMonths(y, (5 * doy + 2) / 153);
    YearStartStep(y);
  }

  lemma EraDay(z: int)
    ensures 0 <= z - z / 146097 * 146097 < 146097
  {
  }

  lemma CivilUnfolded(days: int, era: int, yoe: int)
    requires era == (days + 719468) / 146097
    requires yoe == YearOfEra(days + 719468 - era * 146097)
    ensures CivilFromDays(days)
         == MarchDateOf(yoe + era * 400, days + 719468 - era * 146097 - EraYearStart(yoe))
  {
    hide YearOfEra;
    EraFloor(days + 719468);
  }

  /** The program's arithmetic, read as an era, a year of the era and a day of the year. */
  lemma CivilInParts(days: int) returns (y: int, doy: int)
    ensures 0 <= doy < 365 + if IsLeap(y + 1) then 1 else 0
    ensures CivilFromDays(days) == MarchDateOf(y, doy)
    ensures days == 365 * y + Leaps(y) + doy - 719468
  {
    hide YearOfEra, EraYearStart, IsLeap, Leaps, CivilFromDays, MarchDateOf;
    var era := (days + 719468) / 146097;
    var doe := days + 719468 - era * 146097;
    var yoe := YearOfEra(doe);
    y := yoe + era * 400;
    doy := doe - EraYearStart(yoe);
    EraDay(days + 719468);
    CivilUnfolded(days, era, yoe);
    DayOfYear(era, doe);
    DaysAddUp(days, era, doe, yoe);
  }

  lemma DayOfYear(era: int, doe: int)
    requires 0 <= doe < 146097
    ensures var yoe := YearOfEra(doe);
      && 0 <= yoe <= 399
      && 0 <= doe - EraYearStart(yoe) < 365 + if IsLeap(yoe + era * 400 + 1) then 1 else 0
  {
    hide YearOfEra, EraYearStart, IsLeap;
    YearOfEraBounds(doe);
    LeapAfter(era, YearOfEra(doe));
  }

  lemma DaysAddUp(days: int, era: int, doe: int, yoe: int)
    requires 0 <= yoe <= 399 && doe == days + 719468 - era * 146097
    ensures var y := yoe + era * 400;
      days == 365 * y + Leaps(y) + (doe - EraYearStart(yoe)) - 719468
  {
    hide Leaps;
    LeapsOfEra(era, yoe);
  }

  /** Every day number maps to a real date whose day count is that number. */
  lemma CivilIsInverse(days: int)
    ensures IsDate(CivilFromDays(days))
    ensures DayNumber(CivilFromDays(days)) == days
  {
    var y, doy := CivilInParts(days);
    MarchDate(y, doy);
    YearStartClosed(y);
    LeapsStep(y);
  }

  /** The day after a date counts one more. */
  lemma NextDayCounts(d: Date)
    requires IsDate(d)
    ensures IsDate(NextDay(d))
    ensures DayNumber(NextDay(d)) == DayNumber(d) + 1
  {
    MonthStarts(d.year);
    YearStartClosed(d.year);
    YearStartClosed(d.year + 1);
    LeapsStep(d.year);
  }

  lemma {:induction false} YearStartGrows(a: int, b: int)
    requires a < b
    ensures YearStart(a) + YearLength(a) <= YearStart(b)
    decreases b - a
  {
    YearStartClosed(a);
    YearStartClosed(a + 1);
    LeapsStep(a);
    if a + 1 < b {
      YearStartGrows(a + 1, b);
    }
  }

  lemma {:induction false} MonthStartGrows(y: int, m: int, n: int)
    requires 1 <= m < n <= 13
    ensures MonthStart(y, m) + DaysInMonth(y, m) <= MonthStart(y, n)
    decreases n - m
  {
    MonthStarts(y);
    if m + 1 < n {
      MonthStartGrows(y, m + 1, n);
    }
  }

  /** The day count orders dates as the calendar does. */
  lemma DayNumberOrders(a: Date, b: Date)
    requires IsDate(a) && IsDate(b)
    ensures DayNumber(a) < DayNumber(b) <==> Before(a, b)
    ensures DayNumber(a) == DayNumber(b) <==> a == b
  {
    if Before(a, b) {
      BeforeCounts(a, b);
    } else if Before(b, a) {
      BeforeCounts(b, a);
    }
  }

  lemma BeforeCounts(a: Date, b: Date)
    requires IsDate(a) && IsDate(b) && Before(a, b)
    ensures DayNumber(a) < DayNumber(b)
  {
    if a.year < b.year {
      YearStartGrows(a.year, b.year);
      MonthStarts(a.year);
      MonthStartGrows(a.year, a.month, 13);
      if b.month > 1 {
        MonthStartGrows(b.year, 1, b.month);
      }
    } else if a.month < b.month {
      MonthStartGrows(a.year, a.month, b.month);
    }
  }

  /** The conversion and the day count are inverse bijections between integers and dates. */
  lemma CivilOfDayNumber(d: Date)
    requires IsDate(d)
    ensures CivilFromDays(DayNumber(d)) == d
  {
    CivilIsInverse(DayNumber(d));
    DayNumberOrders(CivilFromDays(DayNumber(d)), d);
  }

  /** Consecutive day numbers are consecutive calendar days. */
  lemma CivilFollowsTheCalendar(days: int)
    ensures CivilFromDays(days + 1) == NextDay(CivilFromDays(days))
  {
    hide CivilFromDays, DayNumber, NextDay, IsDate;
    var d := CivilFromDays(days);
    CivilIsInverse(days);
    NextDayCounts(d);
    CivilOfDayNumber(NextDay(d));
  }

  lemma EpochIsDayZero()
    ensures CivilFromDays(0) == Date(1970, 1, 1)
  {
    CivilOfDayNumber(Date(1970, 1, 1));
  }

  lemma CivilOrders(a: int, b: int)
    ensures a < b <==> Before(CivilFromDays(a), CivilFromDays(b))
  {
    CivilIsInverse(a);
    CivilIsInverse(b);
    DayNumberOrders(CivilFromDays(a), CivilFromDays(b));
  }
}
