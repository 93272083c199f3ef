/** Wall-clock milliseconds as the timestamps of the event log. */
module Timestamps {
  import opened Wrappers
  import opened Text
  import opened Calendar

  const DAY_MS := 86_400_000
  /** The first millisecond of the year 10000, where a four-digit year no longer suffices. */
  const YEAR_10000 := 253_402_300_800_000

  datatype Parts = Parts(date: Date, hour: nat, minute: nat, second: nat, milli: nat)

  function PartsOf(ms: nat): Parts {
    var secs := ms / 1000;
    var rem := secs % 86_400;
    Parts(CivilFromDays(secs / 86_400), rem / 3600, rem % 3600 / 60, rem % 60, ms % 1000)
  }

  function ClockText(p: Parts, end: string): string {
    Pad(p.hour, 10, 2) + ([':'] + (Pad(p.minute, 10, 2) + ([':'] + (Pad(p.second, 10, 2)
      + (['.'] + (Pad(p.milli, 10, 3) + end))))))
  }

  // ---------------------------------------------------------------- reading a timestamp back

  /** The clock part of a timestamp, as milliseconds of the day, and what follows it. */
  function ReadClock(s: string): Option<(nat, string)> {
    var (h, s1) :- ReadField(s, 10, 2);
    var s2 :- ReadChar(s1, ':');
    var (mi, s3) :- ReadField(s2, 10, 2);
    var s4 :- ReadChar(s3, ':');
    var (sec, s5) :- ReadField(s4, 10, 2);
    var s6 :- ReadChar(s5, '.');
    var (ms, s7) :- ReadField(s6, 10, 3);
    if h < 24 && mi < 60 && sec < 60 then Some((((h * 60 + mi) * 60 + sec) * 1000 + ms, s7)) else None
  }

  function ReadDate(s: string): Option<(Date, string)> {
    var (y, s1) :- ReadField(s, 10, 4);
    var s2 :- ReadChar(s1, '-');
    var (mo, s3) :- ReadField(s2, 10, 2);
    var s4 :- ReadChar(s3, '-');
    var (d, s5) :- ReadField(s4, 10, 2);
    if IsDate(Date(y, mo, d)) then Some((Date(y, mo, d), s5)) else None
  }

  /** A reader for the full timestamp form of section 5.6 of RFC 3339, in UTC with three fraction digits. */
  ghost function ReadIso8601(s: string): Option<int> {
    var (d, s1) :- ReadDate(s);
    var s2 :- ReadChar(s1, 'T');
    var (ms, s3) :- ReadClock(s2);
    if s3 == ['Z'] then Some(DayNumber(d) * DAY_MS + ms) else None
  }

  /** The fields hold what the full timestamp form allows them to. */
  ghost predicate InRange(p: Parts) {
    IsDate(p.date) && 0 <= p.date.year <= 9999 && ClockInRange(p)
  }

  ghost predicate ClockInRange(p: Parts) {
    p.hour < 24 && p.minute < 60 && p.second < 60 && p.milli < 1000
  }

  ghost function MilliOfDay(p: Parts): nat {
    ((p.hour * 60 + p.minute) * 60 + p.second) * 1000 + p.milli
  }

  // ---------------------------------------------------------------- the clock splits a day exactly

  lemma ClockSplits(rem: nat)
    requires rem < 86_400
    ensures rem / 3600 < 24 && rem % 3600 / 60 < 60
    ensures rem == (rem / 3600 * 60 + rem % 3600 / 60) * 60 + rem % 60
  {
    assert rem % 3600 == rem - 3600 * (rem / 3600);
    assert rem / 60 == 60 * (rem / 3600) + rem % 3600 / 60;
  }

  lemma DaySplits(ms: nat)
    ensures ms / 1000 / 86_400 == ms / DAY_MS
    ensures ms == (ms / DAY_MS * 86_400 + ms / 1000 % 86_400) * 1000 + ms % 1000
  {
  }

  lemma PartsInRange(ms: nat)
    ensures ClockInRange(PartsOf(ms))
    ensures ms == ms / DAY_MS * DAY_MS + MilliOfDay(PartsOf(ms))
  {
    DaySplits(ms);
    ClockSplits(ms / 1000 % 86_400);
  }

  lemma DateInRange(ms: nat)
    ensures var d := CivilFromDays(ms / 1000 / 86_400);
      IsDate(d) && d.year >= 1970 && DayNumber(d) == ms / 1000 / 86_400
  {
    var days := ms / 1000 / 86_400;
    CivilIsInverse(days);
    EpochIsDayZero();
    if days > 0 {
      CivilOrders(0, days);
    }
  }

  lemma LastDayOf9999()
    ensures DayNumber(Date(9999, 12, 31)) == 2_932_896
  {
    YearStartClosed(9999);
    MonthStarts(9999);
  }

  lemma YearFits(ms: nat)
    ensures CivilFromDays(ms / 1000 / 86_400).year <= 9999 <==> ms < YEAR_10000
  {
    var last := Date(9999, 12, 31);
    LastDayOf9999();
    CivilOfDayNumber(last);
    DateInRange(ms);
    DaySplits(ms);
    CivilOrders(2_932_896, ms / 1000 / 86_400);
  }

  function DateText(d: Date, end: string): string
    requires IsDate(d) && d.year >= 0
  {
    Pad(d.year, 10, 4) + (['-'] + (Pad(d.month, 10, 2) + (['-'] + (Pad(d.day, 10, 2) + end))))
  }

  /** 2026-08-13T18:40:12.345Z */
  function IsoText(p: Parts): string
    requires IsDate(p.date) && p.date.year >= 0
  {
    DateText(p.date, ['T'] + ClockText(p, ['Z']))
  }

  function Iso8601(ms: nat): string {
    DateInRange(ms);
    IsoText(PartsOf(ms))
  }

  // ---------------------------------------------------------------- the theorems

  lemma PowersOfTen()
    ensures Power(10, 2) == 100 && Power(10, 3) == 1000 && Power(10, 4) == 10_000
  {
    assert Power(10, 1) == 10;
  }

  lemma ClockReads(p: Parts, end: string)
    requires ClockInRange(p)
    ensures ReadClock(ClockText(p, end)) == Some((MilliOfDay(p), end))
  {
    PowersOfTen();
    var t6 := Pad(p.milli, 10, 3) + end;
    var t4 := Pad(p.second, 10, 2) + (['.'] + t6);
    var t2 := Pad(p.minute, 10, 2) + ([':'] + t4);
    FieldReads(p.hour, 10, 2, [':'] + t2);
    CharReads(':', t2);
    FieldReads(p.minute, 10, 2, [':'] + t4);
    CharReads(':', t4);
    FieldReads(p.second, 10, 2, ['.'] + t6);
    CharReads('.', t6);
    FieldReads(p.milli, 10, 3, end);
  }

  lemma DateReads(d: Date, end: string)
    requires IsDate(d) && 0 <= d.year <= 9999
    ensures ReadDate(DateText(d, end)) == Some((d, end))
  {
    PowersOfTen();
    var t4 := Pad(d.day, 10, 2) + end;
    var t2 := Pad(d.month, 10, 2) + (['-'] + t4);
    FieldReads(d.year, 10, 4, ['-'] + t2);
    CharReads('-', t2);
    FieldReads(d.month, 10, 2, ['-'] + t4);
    CharReads('-', t4);
    FieldReads(d.day, 10, 2, end);
  }

  /** The date and the clock of a millisecond account for all of it. */
  lemma PartsAddUp(ms: nat)
    ensures DayNumber(PartsOf(ms).date) * DAY_MS + MilliOfDay(PartsOf(ms)) == ms
  {
    PartsInRange(ms);
    DateInRange(ms);
    DaySplits(ms);
  }

  lemma PartsFit(ms: nat)
    requires ms < YEAR_10000
    ensures InRange(PartsOf(ms))
  {
    PartsInRange(ms);
    DateInRange(ms);
    YearFits(ms);
  }

  lemma IsoReads(p: Parts)
    requires InRange(p)
    ensures ReadIso8601(IsoText(p)) == Some(DayNumber(p.date) * DAY_MS + MilliOfDay(p))
  {
    hide ReadDate, ReadClock, DateText, ClockText;
    var clock := ClockText(p, ['Z']);
    DateReads(p.date, ['T'] + clock);
    CharReads('T', clock);
    ClockReads(p, ['Z']);
  }

  /** Before the year 10000 a timestamp reads back to the exact millisecond it was printed from. */
  lemma TimestampReadsBack(ms: nat)
    requires ms < YEAR_10000
    ensures ReadIso8601(Iso8601(ms)) == Some(ms)
  {
    hide CivilFromDays;
    PartsAddUp(ms);
    PartsFit(ms);
    IsoReads(PartsOf(ms));
  }

  /** A timestamp has 24 characters exactly until the year 10000. */
  lemma TimestampLength(ms: nat)
    ensures |Iso8601(ms)| == 24 <==> ms < YEAR_10000
  {
    PowersOfTen();
    PartsInRange(ms);
    DateInRange(ms);
    YearFits(ms);
    var p := PartsOf(ms);
    PadReads(p.date.month, 10, 2);
    PadReads(p.date.day, 10, 2);
    PadReads(p.hour, 10, 2);
    PadReads(p.minute, 10, 2);
    PadReads(p.second, 10, 2);
    PadReads(p.milli, 10, 3);
    if ms < YEAR_10000 {
      PadReads(p.date.year, 10, 4);
    } else {
      PadOverflows(p.date.year);
    }
  }

  lemma PadOverflows(n: nat)
    requires n >= 10_000
    ensures |Pad(n, 10, 4)| > 4
  {
    assert |Digits(n / 10 / 10 / 10, 10)| > 1;
    assert |Digits(n / 10, 10)| > 3;
  }

  lemma ClockOrders(p: Parts, q: Parts, end: string)
    requires ClockInRange(p) && ClockInRange(q)
    requires MilliOfDay(p) < MilliOfDay(q)
    ensures LexLess(ClockText(p, end), ClockText(q, end))
  {
    PowersOfTen();
    var s6, t6 := Pad(p.milli, 10, 3) + end, Pad(q.milli, 10, 3) + end;
    var s4, t4 := Pad(p.second, 10, 2) + (['.'] + s6), Pad(q.second, 10, 2) + (['.'] + t6);
    var s2, t2 := Pad(p.minute, 10, 2) + ([':'] + s4), Pad(q.minute, 10, 2) + ([':'] + t4);
    if p.hour == q.hour {
      if p.minute == q.minute {
        if p.second == q.second {
          FieldOrders(p.milli, q.milli, 10, 3, end, end);
          LexPrefix(['.'], s6, t6);
        }
        FieldOrders(p.second, q.second, 10, 2, ['.'] + s6, ['.'] + t6);
        LexPrefix([':'], s4, t4);
      }
      FieldOrders(p.minute, q.minute, 10, 2, [':'] + s4, [':'] + t4);
      LexPrefix([':'], s2, t2);
    }
    FieldOrders(p.hour, q.hour, 10, 2, [':'] + s2, [':'] + t2);
  }

  lemma DateOrders(d: Date, e: Date, s: string, t: string)
    requires IsDate(d) && IsDate(e) && 0 <= d.year <= 9999 && 0 <= e.year <= 9999
    requires Before(d, e) || (d == e && LexLess(s, t))
    ensures LexLess(DateText(d, s), DateText(e, t))
  {
    PowersOfTen();
    var s4, t4 := Pad(d.day, 10, 2) + s, Pad(e.day, 10, 2) + t;
    var s2, t2 := Pad(d.month, 10, 2) + (['-'] + s4), Pad(e.month, 10, 2) + (['-'] + t4);
    if d.year == e.year {
      if d.month == e.month {
        FieldOrders(d.day, e.day, 10, 2, s, t);
        LexPrefix(['-'], s4, t4);
      }
      FieldOrders(d.month, e.month, 10, 2, ['-'] + s4, ['-'] + t4);
      LexPrefix(['-'], s2, t2);
    }
    FieldOrders(d.year, e.year, 10, 4, ['-'] + s2, ['-'] + t2);
  }

  lemma IsoOrders(p: Parts, q: Parts)
    requires InRange(p) && InRange(q)
    requires Before(p.date, q.date) || (p.date == q.date && MilliOfDay(p) < MilliOfDay(q))
    ensures LexLess(IsoText(p), IsoText(q))
  {
    var s, t := ClockText(p, ['Z']), ClockText(q, ['Z']);
    if p.date == q.date {
      ClockOrders(p, q, ['Z']);
      LexPrefix(['T'], s, t);
    }
    DateOrders(p.date, q.date, ['T'] + s, ['T'] + t);
  }

  /** Before the year 10000 timestamps order as text the way they order in time. */
  lemma TimestampsOrder(a: nat, b: nat)
    requires a < b < YEAR_10000
    ensures LexLess(Iso8601(a), Iso8601(b))
  {
    hide CivilFromDays;
    PartsFit(a);
    PartsFit(b);
    PartsAddUp(a);
    PartsAddUp(b);
    var p, q := PartsOf(a), PartsOf(b);
    DayNumberOrders(p.date, q.date);
    assert DayNumber(p.date) <= DayNumber(q.date) by {
      PartsInRange(a);
      PartsInRange(b);
    }
    IsoOrders(p, q);
  }

  lemma YearsOnEitherSide()
    ensures PartsOf(YEAR_10000).date == Date(10_000, 1, 1)
    ensures PartsOf(YEAR_10000 - 1).date == Date(9999, 12, 31)
  {
    LastDayOf9999();
    var last := Date(9999, 12, 31);
    CivilOfDayNumber(last);
    CivilFollowsTheCalendar(DayNumber(last));
    assert NextDay(last) == Date(10_000, 1, 1);
    assert YEAR_10000 / 1000 / 86_400 == DayNumber(last) + 1;
    assert (YEAR_10000 - 1) / 1000 / 86_400 == DayNumber(last);
  }

  lemma FirstDigits()
    ensures Pad(9999, 10, 4)[0] == '9' && Pad(10_000, 10, 4)[0] == '1'
  {
    assert Digits(9, 10)[0] == '9' && Digits(99, 10)[0] == '9' && Digits(999, 10)[0] == '9';
    assert |Digits(99, 10)| == 2 && |Digits(999, 10)| == 3 && |Digits(9999, 10)| == 4;
    assert Digits(1, 10)[0] == '1' && Digits(10, 10)[0] == '1' && Digits(100, 10)[0] == '1';
    assert |Digits(10, 10)| == 2 && |Digits(100, 10)| == 3 && |Digits(1000, 10)| == 4;
    assert |Digits(10_000, 10)| == 5;
  }

  /** The bound is tight: the first millisecond of the year 10000 sorts before its predecessor. */
  lemma OrderStopsAtYear10000()
    ensures LexLess(Iso8601(YEAR_10000), Iso8601(YEAR_10000 - 1))
  {
    YearsOnEitherSide();
    FirstDigits();
    DateInRange(YEAR_10000);
    DateInRange(YEAR_10000 - 1);
  }
}
