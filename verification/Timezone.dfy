/** Local time: the cached daylight saving rule of crt/tzset.c and the conversion of crt/localtim.c. */
module Timezone {
  import opened Calendar

  const DAY_MILLISEC := 86400000

  // ----- The rule

  /** Day of the week, Sunday being 0, of a day of the year. */
  function Weekday(year: int, yday: int): int {
    (BASE_DOW + DaysBeforeYear(year) + yday) % 7
  }

  function LastDay(year: int, mon: int): int {
    DaysBeforeMonth(year, mon) + MonthDays(year, mon) - 1
  }

  /** `yday` is the given weekday's first to fourth instance in the month, or its last for week 5. */
  predicate NthWeekday(year: int, mon: int, week: int, dow: int, yday: int) {
    && Weekday(year, yday) == dow
    && if week == 5 then LastDay(year, mon) - 7 < yday <= LastDay(year, mon)
       else DaysBeforeMonth(year, mon) + 7 * (week - 1) <= yday < DaysBeforeMonth(year, mon) + 7 * week
  }

  /** The last Sunday of a month: its last day less that day's weekday. */
  function LastSunday(year: int, mon: int): (yday: int)
    ensures NthWeekday(year, mon, 5, 0, yday)
  {
    LastDay(year, mon) - Weekday(year, LastDay(year, mon))
  }

  /** Time stamps, in standard local time, of 02:00 on the last Sunday of March and of 02:00 daylight
      saving time on the last Sunday of October. */
  function DstBegin(year: int): int {
    DAY_SEC * (DaysBeforeYear(year) + LastSunday(year, 2)) + 7200
  }

  function DstEnd(year: int, bias: int): int {
    DAY_SEC * (DaysBeforeYear(year) + LastSunday(year, 9)) + 7200 + bias
  }

  /** Daylight saving is in force at a standard local time. */
  predicate InDst(tm: Tm, bias: int) {
    DstBegin(tm.year) <= Seconds(tm) < DstEnd(tm.year, bias)
  }

  /** `tm` is the local time for standard local time stamp `s`. */
  ghost predicate LocalTime(tm: Tm, s: int, bias: int, daylight: bool) {
    exists std: Tm :: Civil(std, s) &&
      if daylight && InDst(std, bias) then tm.isdst == 1 && Civil(tm.(isdst := 0), s - bias) else tm == std
  }

  /** There is only one such local time, so this is what every branch of the conversion must yield. */
  lemma LocalTimeUnique(a: Tm, b: Tm, s: int, bias: int, daylight: bool)
    requires LocalTime(a, s, bias, daylight) && LocalTime(b, s, bias, daylight)
    ensures a == b
  {
    hide Civil, InDst;
    var x: Tm :|
      && Civil(x, s)
      && if daylight && InDst(x, bias) then a.isdst == 1 && Civil(a.(isdst := 0), s - bias) else a == x;
    var y: Tm :|
      && Civil(y, s)
      && if daylight && InDst(y, bias) then b.isdst == 1 && Civil(b.(isdst := 0), s - bias) else b == y;
    CivilOrder(x, s, y, s);
    if daylight && InDst(x, bias) {
      CivilOrder(a.(isdst := 0), s - bias, b.(isdst := 0), s - bias);
      assert a == a.(isdst := 0).(isdst := 1) && b == b.(isdst := 0).(isdst := 1);
    }
  }

  // ----- Transition dates

  datatype TransitionDate = TransitionDate(yr: int, yd: int, ms: int)

  function StartOf(year: int): TransitionDate {
    TransitionDate(year, LastSunday(year, 2), 7200000)
  }

  /** The end of daylight saving converted to standard time. */
  function EndOf(year: int, bias: int): TransitionDate {
    var ms := 7200000 + 1000 * bias;
    if ms < 0 then TransitionDate(year, LastSunday(year, 9) - 1, ms + DAY_MILLISEC)
    else if ms >= DAY_MILLISEC then TransitionDate(year, LastSunday(year, 9) + 1, ms - DAY_MILLISEC)
    else TransitionDate(year, LastSunday(year, 9), ms)
  }

  /** The closed form cvtdate uses for the days before a year. */
  lemma DaysBeforeYearFormula(year: int)
    requires 70 <= year < 196
    ensures DaysBeforeYear(year) == (year - 70) * 365 + (year - 1) / 4 - 17
    ensures IsLeap(year) <==> year % 4 == 0
  {
    hide DaysBeforeYear, IsLeap;
    YearStart((year - 70) / 4);
    LeapByFour(year);
  }

  lemma MonthLengths(year: int, mon: int)
    ensures 28 <= MonthDays(year, mon) <= 31
  {
  }

  /** The day a cvtdate rule names, in day-in-month format (1) or as an absolute date. */
  method TransitionDay(datetype: int, year: int, month: int, week: int, dayofweek: int, date: int)
    returns (yearday: int)
    requires 70 <= year < 196 && 1 <= month <= 12
    requires datetype == 1 ==> 1 <= week <= 5 && 0 <= dayofweek < 7
    ensures datetype == 1 ==> NthWeekday(year, month - 1, week, dayofweek, yearday)
    ensures datetype != 1 ==> yearday == DaysBeforeMonth(year, month - 1) + date - 1
  {
    hide DaysBeforeYear, DaysBeforeMonth, IsLeap;
    DaysBeforeYearFormula(year);
    var table := if year % 4 == 0 then LPDAYS else DAYS;
    DayTables(year, month - 1);
    DayTables(year, month);
    MonthNext(year, month - 1);
    if datetype == 1 {
      yearday := 1 + table[month - 1];
      WeekdayStep(BASE_DOW + DaysBeforeYear(year), yearday, dayofweek, week);
      MonthLengths(year, month - 1);
      var monthdow := (yearday + (year - 70) * 365 + (year - 1) / 4 - 17 + BASE_DOW) % 7;
      if monthdow <= dayofweek {
        yearday := yearday + (dayofweek - monthdow) + (week - 1) * 7;
      } else {
        yearday := yearday + (dayofweek - monthdow) + week * 7;
      }
      if week == 5 && yearday > table[month] {
        yearday := yearday - 7;
      }
    } else {
      yearday := table[month - 1] + date;
    }
  }

  lemma NthWeekdayUnique(year: int, mon: int, week: int, dow: int, a: int, b: int)
    requires NthWeekday(year, mon, week, dow, a) && NthWeekday(year, mon, week, dow, b)
    ensures a == b
  {
    hide DaysBeforeYear, DaysBeforeMonth, LastDay;
    SameWeekday(BASE_DOW + DaysBeforeYear(year), a, b);
  }

  lemma SameWeekday(c: int, a: int, b: int)
    requires (c + a) % 7 == (c + b) % 7 && -7 < a - b < 7
    ensures a == b
  {
  }

  /** cvtdate's step from the weekday of the first of the month to the wanted weekday. */
  lemma WeekdayStep(c: int, first: int, dow: int, week: int)
    requires 0 <= dow < 7
    ensures var w := (c + first) % 7; var yday := first + (dow - w) + (if w <= dow then week - 1 else week) * 7;
      && (c + yday) % 7 == dow && (c + yday - 7) % 7 == dow
      && first + 7 * (week - 1) <= yday < first + 7 * week
  {
    var w := (c + first) % 7;
    var k := if w <= dow then week - 1 else week;
    var yday := first + (dow - w) + k * 7;
    var q := (c + first) / 7;
    assert c + yday == 7 * (q + k) + dow;
    assert c + yday - 7 == 7 * (q + k - 1) + dow;
  }

  lemma DstDays(year: int)
    ensures 83 <= LastSunday(year, 2) <= 90 && 296 <= LastSunday(year, 9) <= 304
  {
    MonthStarts(year);
  }

  /** Comparing cached day and millisecond is comparing time stamps. */
  lemma TransitionsDecide(tm: Tm, bias: int)
    requires TimeOfDay(tm) && Date(tm) && -DAY_SEC <= bias <= DAY_SEC
    ensures
      var ms := 1000 * (tm.sec + 60 * tm.min + 3600 * tm.hour);
      var a, b := StartOf(tm.year), EndOf(tm.year, bias);
      && a.yd < b.yd
      && (DstBegin(tm.year) <= Seconds(tm) <==> a.yd < tm.yday || (a.yd == tm.yday && a.ms <= ms))
      && (Seconds(tm) < DstEnd(tm.year, bias) <==> tm.yday < b.yd || (tm.yday == b.yd && ms < b.ms))
  {
    hide DaysBeforeYear, DaysBeforeMonth, LastSunday;
    DstDays(tm.year);
  }

  /** The end of daylight saving in standard time: milliseconds from the start of its day, which may
      lie on the day before or after. */
  function EndMillisec(hour: int, min: int, sec: int, msec: int, bias: int): int {
    msec + 1000 * (sec + 60 * (min + 60 * hour)) + 1000 * bias
  }

  function DayCarry(hour: int, min: int, sec: int, msec: int, bias: int): int {
    var ms := EndMillisec(hour, min, sec, msec, bias);
    if ms < 0 then -1 else if ms >= DAY_MILLISEC then 1 else 0
  }

  class Timezone {
    var daylight: int
    var dstbias: int
    var timezone: int
    var dststart: TransitionDate
    var dstend: TransitionDate

    /** The cached dates are those of their year, under the present bias. */
    ghost predicate CacheOk()
      reads this
    {
      && -DAY_SEC <= dstbias <= DAY_SEC
      && (dststart.yr != -1 ==> dststart == StartOf(dststart.yr))
      && (dstend.yr != -1 ==> dstend == EndOf(dstend.yr, dstbias))
    }

    constructor (daylight: int, dstbias: int, timezone: int)
      requires -DAY_SEC <= dstbias <= DAY_SEC
      ensures CacheOk() && this.daylight == daylight && this.dstbias == dstbias && this.timezone == timezone
    {
      this.daylight, this.dstbias, this.timezone := daylight, dstbias, timezone;
      dststart, dstend := TransitionDate(-1, 0, 0), TransitionDate(-1, 0, 0);
    }

    method Cvtdate(trantype: int, datetype: int, year: int, month: int, week: int, dayofweek: int, date: int,
        hour: int, min: int, sec: int, msec: int)
      requires 70 <= year < 196 && 1 <= month <= 12
      requires datetype == 1 ==> 1 <= week <= 5 && 0 <= dayofweek < 7
      modifies this`dststart, this`dstend
      ensures trantype == 1 ==> dstend == old(dstend)
      ensures trantype == 1 ==> dststart.yr == year && dststart.ms == msec + 1000 * (sec + 60 * (min + 60 * hour))
      ensures trantype == 1 && datetype == 1 ==> NthWeekday(year, month - 1, week, dayofweek, dststart.yd)
      ensures trantype != 1 ==> dststart == old(dststart)
      ensures trantype != 1 ==> dstend.yr == year
      ensures trantype != 1 ==>
        dstend.ms == EndMillisec(hour, min, sec, msec, dstbias) - DayCarry(hour, min, sec, msec, dstbias) * DAY_MILLISEC
      ensures trantype != 1 && datetype == 1 ==>
        NthWeekday(year, month - 1, week, dayofweek, dstend.yd - DayCarry(hour, min, sec, msec, dstbias))
    {
      hide NthWeekday;
      var yearday := TransitionDay(datetype, year, month, week, dayofweek, date);
      var ms := msec + 1000 * (sec + 60 * (min + 60 * hour));
      if trantype == 1 {
        dststart := TransitionDate(year, yearday, ms);
      } else {
        dstend := dstend.(yd := yearday, ms := ms + dstbias * 1000);
        if dstend.ms < 0 {
          dstend := dstend.(ms := dstend.ms + DAY_MILLISEC, yd := dstend.yd - 1);
        } else if dstend.ms >= DAY_MILLISEC {
          dstend := dstend.(ms := dstend.ms - DAY_MILLISEC, yd := dstend.yd + 1);
        }
        dstend := dstend.(yr := year);
      }
    }

    /** Whatever was asked before, the answer is the rule's. */
    method IsInDst(tb: Tm) returns (dst: bool)
      requires CacheOk() && TimeOfDay(tb) && Date(tb) && 70 <= tb.year < 196
      modifies this`dststart, this`dstend
      ensures CacheOk()
      ensures dst <==> daylight != 0 && InDst(tb, dstbias)
    {
      hide NthWeekday, LastSunday, DstBegin, DstEnd, Date;
      if daylight == 0 {
        return false;
      }
      if tb.year != dststart.yr || tb.year != dstend.yr {
        Cvtdate(1, 1, tb.year, 3, 5, 0, 0, 2, 0, 0, 0);
        Cvtdate(0, 1, tb.year, 10, 5, 0, 0, 2, 0, 0, 0);
        NthWeekdayUnique(tb.year, 2, 5, 0, dststart.yd, LastSunday(tb.year, 2));
        NthWeekdayUnique(tb.year, 9, 5, 0, dstend.yd - DayCarry(2, 0, 0, 0, dstbias), LastSunday(tb.year, 9));
      }
      assert dststart == StartOf(tb.year) && dstend == EndOf(tb.year, dstbias);
      TransitionsDecide(tb, dstbias);
      if dststart.yd < dstend.yd {
        if tb.yday < dststart.yd || tb.yday > dstend.yd {
          return false;
        }
        if tb.yday > dststart.yd && tb.yday < dstend.yd {
          return true;
        }
      } else {
        if tb.yday < dstend.yd || tb.yday > dststart.yd {
          return true;
        }
        if tb.yday > dstend.yd && tb.yday < dststart.yd {
          return false;
        }
      }
      var ms := 1000 * (tb.sec + 60 * tb.min + 3600 * tb.hour);
      if tb.yday == dststart.yd {
        return ms >= dststart.ms;
      } else {
        return ms < dstend.ms;
      }
    }

    /** localtime_r, for time zones of up to three days either way: right exactly when the local date
        is not before 31 December 1969. */
    method LocaltimeR(timer: int, ptm: TmStruct) returns (rc: int)
      requires CacheOk() && 0 <= timer <= LONG_MAX && -3 * DAY_SEC <= timezone <= 3 * DAY_SEC
      modifies this`dststart, this`dstend, ptm
      ensures CacheOk() && rc == 0
      ensures LocalTime(ptm.Value(), timer - timezone, dstbias, daylight != 0) <==> timer - timezone >= -DAY_SEC
    {
      hide Civil, InDst, LocalTime;
      if timer > 3 * DAY_SEC && timer < LONG_MAX - 3 * DAY_SEC {
        var ltime := timer - timezone;
        rc := GmtimeR(ltime, ptm);
        ghost var std := ptm.Value();
        var dst := false;
        if daylight != 0 {
          CivilParts(std, ltime);
          dst := IsInDst(ptm.Value());
        }
        if dst {
          DstRange(std, ltime, dstbias);
          ltime := ltime - dstbias;
          rc := GmtimeR(ltime, ptm);
          ghost var shifted := ptm.Value();
          ptm.isdst := 1;
          ResetIsdst(shifted, ltime, ptm.Value());
        }
        LocalTimeIntro(std, ptm.Value(), timer - timezone, dstbias, daylight != 0);
      } else {
        rc := GmtimeR(timer, ptm);
        ghost var utc := ptm.Value();
        CivilParts(utc, timer);
        BoundaryDate(utc, timer, dstbias);
        var dst := IsInDst(ptm.Value());
        ghost var d := AdjustFields(ptm, timezone, dst, dstbias);
        BoundaryLocal(utc, timer, ptm.Value(), d, timezone, dstbias, daylight != 0);
      }
      return 0;
    }
  }

  /** A call that fails: the start of the epoch, two days to the west.  What comes back is not the local time, nor
      any date: 30 December 1969 is given the last day of the year. */
  method TwoDaysWest(ptm: TmStruct)
    modifies ptm
    ensures !LocalTime(ptm.Value(), 0 - 2 * DAY_SEC, 0, false)
  {
    var zone := new Timezone(0, 0, 2 * DAY_SEC);
    var rc := zone.LocaltimeR(0, ptm);
  }

  // ----- Near the ends of the epoch

  /** C's division and remainder, which truncate towards zero. */
  function CDiv(a: int, b: int): int
    requires b > 0
  {
    if a >= 0 then a / b else -(-a / b)
  }

  function CMod(a: int, b: int): int
    requires b > 0
  {
    a - CDiv(a, b) * b
  }

  /** The code's correction of a negative remainder makes truncated division round down. */
  lemma CarryDown(x: int, u: int)
    requires u == 60 || u == 24
    ensures var m := CMod(x, u);
      if m < 0 then m + u == x % u && CDiv(x - u, u) == x / u else m == x % u && CDiv(x, u) == x / u
  {
    hide CDiv, CMod;
    if u == 60 {
      CarryMinute(x);
    } else {
      CarryDay(x);
    }
  }

  lemma CarryMinute(x: int)
    ensures var m := CMod(x, 60);
      if m < 0 then m + 60 == x % 60 && CDiv(x - 60, 60) == x / 60 else m == x % 60 && CDiv(x, 60) == x / 60
  {
  }

  lemma CarryDay(x: int)
    ensures var m := CMod(x, 24);
      if m < 0 then m + 24 == x % 24 && CDiv(x - 24, 24) == x / 24 else m == x % 24 && CDiv(x, 24) == x / 24
  {
  }

  /** The first three and the last three days of the epoch lie in January. */
  predicate InJanuary(tm: Tm) {
    tm.mon == 0 && ((tm.year == 70 && 1 <= tm.mday <= 4) || (tm.year == 138 && 16 <= tm.mday <= 19))
  }

  /** Field by field, the date `d` days later. */
  predicate Moved(tm: Tm, from: Tm, d: int) {
    if from.mday + d >= 1 then
      tm == from.(sec := tm.sec, min := tm.min, hour := tm.hour, mday := from.mday + d,
        yday := from.yday + d, wday := (from.wday + d) % 7)
    else
      tm == from.(sec := tm.sec, min := tm.min, hour := tm.hour, mday := from.mday + d + 31, yday := 364, mon := 11,
        year := from.year - 1, wday := (from.wday + d) % 7)
  }

  function SecondsOfDay(tm: Tm): int {
    3600 * tm.hour + 60 * tm.min + tm.sec
  }

  lemma CivilParts(tm: Tm, t: int)
    requires Civil(tm, t)
    ensures TimeOfDay(tm) && Date(tm) && 0 <= tm.wday < 7 && tm.isdst == 0
  {
  }

  lemma ResetIsdst(tm: Tm, t: int, marked: Tm)
    requires Civil(tm, t) && marked == tm.(isdst := 1)
    ensures marked.isdst == 1 && Civil(marked.(isdst := 0), t)
  {
    assert marked.(isdst := 0) == tm;
  }

  lemma LocalTimeIntro(std: Tm, tm: Tm, s: int, bias: int, daylight: bool)
    requires Civil(std, s)
    requires if daylight && InDst(std, bias) then tm.isdst == 1 && Civil(tm.(isdst := 0), s - bias) else tm == std
    ensures LocalTime(tm, s, bias, daylight)
  {
  }

  lemma YearOf(tm: Tm, year: int)
    requires Date(tm) && DaysBeforeYear(year) <= DayNumber(tm) < DaysBeforeYear(year) + YearDays(year)
    ensures tm.year == year
  {
    hide DaysBeforeYear, DaysBeforeMonth;
    DateInYear(tm);
    if tm.year < year {
      YearsAscend(tm.year, year);
    } else if year < tm.year {
      YearsAscend(year, tm.year);
    }
  }

  /** The years around the ends of the epoch. */
  lemma EpochYears()
    ensures DaysBeforeYear(69) == -365 && DaysBeforeYear(70) == 0 && DaysBeforeYear(137) == 24472
    ensures DaysBeforeYear(138) == 24837
    ensures !IsLeap(69) && !IsLeap(70) && !IsLeap(137) && !IsLeap(138)
  {
    YearStart(0);
    YearStart(16);
    YearStart(17);
  }

  /** A standard local time in daylight saving time stays in range when the bias is applied. */
  lemma DstRange(std: Tm, s: int, bias: int)
    requires Civil(std, s) && InDst(std, bias) && 0 <= s <= LONG_MAX && -DAY_SEC <= bias <= DAY_SEC
    requires 70 <= std.year <= 138
    ensures 0 <= s - bias <= LONG_MAX
  {
    hide DaysBeforeYear, DaysBeforeMonth, LastSunday;
    EpochYears();
    DstDays(std.year);
    if std.year > 70 {
      YearsAscend(70, std.year);
    }
    if std.year < 137 {
      YearsAscend(std.year, 137);
    }
  }

  lemma NotDstInWinter(tm: Tm, bias: int)
    requires TimeOfDay(tm) && Date(tm) && -DAY_SEC <= bias <= DAY_SEC && (tm.mon == 0 || tm.mon == 11)
    ensures !InDst(tm, bias)
  {
    hide DaysBeforeYear, DaysBeforeMonth, LastSunday;
    DstDays(tm.year);
    MonthStarts(tm.year);
  }

  lemma BoundaryDate(tm: Tm, t: int, bias: int)
    requires Civil(tm, t) && (0 <= t <= 3 * DAY_SEC || LONG_MAX - 3 * DAY_SEC <= t <= LONG_MAX)
    requires -DAY_SEC <= bias <= DAY_SEC
    ensures InJanuary(tm) && !InDst(tm, bias)
  {
    hide DaysBeforeYear, DaysBeforeMonth, InDst;
    EpochYears();
    var year := if t <= 3 * DAY_SEC then 70 else 138;
    YearOf(tm, year);
    MonthStarts(year);
    if tm.mon > 0 {
      MonthsAscend(year, 0, tm.mon);
    }
    NotDstInWinter(tm, bias);
  }

  lemma SumMod(a: int, d: int)
    ensures (a % 7 + d) % 7 == (a + d) % 7
  {
    var q := a / 7;
    assert a % 7 + d == (a + d) - 7 * q;
  }

  /** Within the month. */
  lemma MovedInMonth(utc: Tm, t: int, tm: Tm, d: int, s: int)
    requires Civil(utc, t) && InJanuary(utc) && Moved(tm, utc, d) && utc.mday + d >= 1 && d <= 3 && TimeOfDay(tm)
    requires s == t + DAY_SEC * d + SecondsOfDay(tm) - SecondsOfDay(utc)
    ensures Civil(tm, s) && s >= -DAY_SEC
  {
    hide DaysBeforeYear, DaysBeforeMonth;
    EpochYears();
    SumMod(BASE_DOW + DayNumber(utc), d);
    MonthNext(utc.year, 0);
  }

  lemma LastOf1969(tm: Tm)
    requires tm.year == 69 && tm.mon == 11 && tm.mday == 31 && tm.yday == 364 && tm.wday == 3
    ensures Date(tm) && DayNumber(tm) == -1
  {
    hide DaysBeforeYear, DaysBeforeMonth;
    EpochYears();
    MonthStarts(69);
  }

  lemma FirstOf1970(tm: Tm)
    requires Date(tm) && tm.year == 70 && tm.mon == 0
    ensures DayNumber(tm) == tm.mday - 1 && tm.wday == (BASE_DOW + tm.mday - 1) % 7
  {
    hide DaysBeforeYear, DaysBeforeMonth;
    EpochYears();
    MonthNext(70, 0);
  }

  /** Back to the last day of 1969. */
  lemma MovedToDecember(utc: Tm, t: int, tm: Tm, d: int, s: int)
    requires Civil(utc, t) && InJanuary(utc) && Moved(tm, utc, d) && utc.mday + d == 0 && -4 <= d && TimeOfDay(tm)
    requires s == t + DAY_SEC * d + SecondsOfDay(tm) - SecondsOfDay(utc)
    ensures Civil(tm, s) && s >= -DAY_SEC
  {
    hide DaysBeforeYear, DaysBeforeMonth, Date, DayNumber;
    FirstOf1970(utc);
    assert tm.wday == 3 by {
      SumMod(BASE_DOW + utc.mday - 1, d);
    }
    LastOf1969(tm);
    SecondsSplit(utc);
    SecondsSplit(tm);
  }

  lemma SecondsSplit(tm: Tm)
    ensures Seconds(tm) == DAY_SEC * DayNumber(tm) + SecondsOfDay(tm)
  {
  }

  /** Further back the day of the year is wrong. */
  lemma MovedTooFar(utc: Tm, t: int, tm: Tm, d: int, s: int)
    requires Civil(utc, t) && InJanuary(utc) && Moved(tm, utc, d) && utc.mday + d < 0 && -4 <= d && TimeOfDay(tm)
    requires s == t + DAY_SEC * d + SecondsOfDay(tm) - SecondsOfDay(utc)
    ensures !Date(tm) && s < -DAY_SEC
  {
    hide DaysBeforeYear, DaysBeforeMonth;
    EpochYears();
    MonthStarts(69);
    MonthNext(70, 0);
  }

  /** The carried fields are the local time, unless the date has gone back further than one day into
      December 1969. */
  lemma BoundaryLocal(utc: Tm, t: int, tm: Tm, d: int, tz: int, bias: int, daylight: bool)
    requires Civil(utc, t) && InJanuary(utc) && Moved(tm, utc, d) && -4 <= d <= 3 && TimeOfDay(tm)
    requires DAY_SEC * d + SecondsOfDay(tm) == SecondsOfDay(utc) - tz && -DAY_SEC <= bias <= DAY_SEC
    ensures LocalTime(tm, t - tz, bias, daylight) <==> t - tz >= -DAY_SEC
  {
    hide DaysBeforeYear, DaysBeforeMonth, InDst, LocalTime, Date;
    if utc.mday + d >= 0 {
      if utc.mday + d >= 1 {
        MovedInMonth(utc, t, tm, d, t - tz);
      } else {
        MovedToDecember(utc, t, tm, d, t - tz);
      }
      NotDstInWinter(tm, bias);
      LocalTimeIntro(tm, tm, t - tz, bias, daylight);
    } else {
      MovedTooFar(utc, t, tm, d, t - tz);
      TooFarBack(tm, t - tz, bias, daylight);
    }
  }

  lemma TooFarBack(tm: Tm, s: int, bias: int, daylight: bool)
    requires !Date(tm) && tm.isdst == 0
    ensures !LocalTime(tm, s, bias, daylight)
  {
  }

  lemma WeekdayCarry(wday: int, d: int)
    requires 0 <= wday < 7 && -4 <= d <= 3
    ensures d > 0 ==> CMod(wday + d, 7) == (wday + d) % 7
    ensures d < 0 ==> CMod(wday + 7 + d, 7) == (wday + d) % 7
  {
    SumMod(7, wday + d);
  }

  /** One field of the boundary branch: the field in range and the carry into the next one. */
  method Carry(value: int, unit: int) returns (field: int, carry: int)
    requires unit == 60 || unit == 24
    ensures 0 <= field < unit && value == unit * carry + field
  {
    CarryDown(value, unit);
    var ltime := value;
    field := CMod(ltime, unit);
    if field < 0 {
      field := field + unit;
      ltime := ltime - unit;
    }
    carry := CDiv(ltime, unit);
  }

  /** The carries of the boundary branch, from the seconds up to the date. */
  method AdjustFields(ptm: TmStruct, timezone: int, dst: bool, dstbias: int) returns (ghost d: int)
    requires TimeOfDay(ptm.Value()) && 0 <= ptm.wday < 7 && InJanuary(ptm.Value())
    requires -3 * DAY_SEC <= timezone + (if dst then dstbias else 0) <= 3 * DAY_SEC
    modifies ptm
    ensures TimeOfDay(ptm.Value())
    ensures -4 <= d <= 3 && Moved(ptm.Value(), old(ptm.Value()), d)
    ensures
      DAY_SEC * d + SecondsOfDay(ptm.Value())
        == SecondsOfDay(old(ptm.Value())) - timezone - (if dst then dstbias else 0)
  {
    var ltime: int;
    if dst {
      ltime := ptm.sec - (timezone + dstbias);
    } else {
      ltime := ptm.sec - timezone;
    }
    ghost var total := SecondsOfDay(ptm.Value()) - timezone - (if dst then dstbias else 0);
    ptm.sec, ltime := Carry(ltime, 60);
    ptm.min, ltime := Carry(ptm.min + ltime, 60);
    ptm.hour, ltime := Carry(ptm.hour + ltime, 24);
    assert DAY_SEC * ltime + SecondsOfDay(ptm.Value()) == total;

    WeekdayCarry(ptm.wday, ltime);
    if ltime > 0 {
      ptm.wday := CMod(ptm.wday + ltime, 7);
      ptm.mday := ptm.mday + ltime;
      ptm.yday := ptm.yday + ltime;
    } else if ltime < 0 {
      ptm.wday := CMod(ptm.wday + 7 + ltime, 7);
      ptm.mday := ptm.mday + ltime;
      if ptm.mday <= 0 {
        ptm.mday := ptm.mday + 31;
        ptm.yday := 364;
        ptm.mon := 11;
        ptm.year := ptm.year - 1;
      } else {
        ptm.yday := ptm.yday + ltime;
      }
    }
    d := ltime;
  }
}
