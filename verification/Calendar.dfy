/** Breaking a time stamp down into calendar fields: crt/gmtime.c against the Gregorian calendar. */
module Calendar {

  // ----- The calendar

  /** A broken-down time, as in include/time.h: years count from 1900, months from 0, and `yday`
      from 0. */
  datatype Tm = Tm(sec: int, min: int, hour: int, mday: int, mon: int, year: int, wday: int, yday: int, isdst: int)

  const DAY_SEC := 86400
  const YEAR_SEC := 365 * DAY_SEC
  const FOUR_YEAR_SEC := 1461 * DAY_SEC
  const BASE_DOW := 4
  /** 2^31 - 1 */
  const LONG_MAX := 2147483647

  predicate IsLeap(year: int) {
    var y := 1900 + year;
    y % 4 == 0 && (y % 100 != 0 || y % 400 == 0)
  }

  function YearDays(year: int): int {
    if IsLeap(year) then 366 else 365
  }

  function MonthDays(year: int, mon: int): int {
    if mon == 1 then (if IsLeap(year) then 29 else 28)
    else if mon == 3 || mon == 5 || mon == 8 || mon == 10 then 30
    else 31
  }

  /** Days from 1 January 1970 to 1 January of the given year. */
  function DaysBeforeYear(year: int): int
    decreases if year < 70 then 70 - year else year - 70
  {
    if year == 70 then 0
    else if year < 70 then DaysBeforeYear(year + 1) - YearDays(year)
    else DaysBeforeYear(year - 1) + YearDays(year - 1)
  }

  function DaysBeforeMonth(year: int, mon: int): int
    decreases mon
  {
    if mon <= 0 then 0 else DaysBeforeMonth(year, mon - 1) + MonthDays(year, mon - 1)
  }

  function DayNumber(tm: Tm): int {
    DaysBeforeYear(tm.year) + DaysBeforeMonth(tm.year, tm.mon) + tm.mday - 1
  }

  /** The time stamp the fields stand for. */
  function Seconds(tm: Tm): int {
    DAY_SEC * DayNumber(tm) + 3600 * tm.hour + 60 * tm.min + tm.sec
  }

  predicate TimeOfDay(tm: Tm) {
    0 <= tm.sec < 60 && 0 <= tm.min < 60 && 0 <= tm.hour < 24
  }

  predicate Date(tm: Tm) {
    && 0 <= tm.mon < 12 && 1 <= tm.mday <= MonthDays(tm.year, tm.mon)
    && tm.yday == DaysBeforeMonth(tm.year, tm.mon) + tm.mday - 1
    && tm.wday == (BASE_DOW + DayNumber(tm)) % 7
  }

  /** `tm` is the broken-down time of time stamp `t`. */
  predicate Civil(tm: Tm, t: int) {
    TimeOfDay(tm) && Date(tm) && Seconds(tm) == t && tm.isdst == 0
  }

  // ----- Facts about the calendar

  lemma LeapByFour(year: int)
    requires 0 < year < 200
    ensures IsLeap(year) <==> year % 4 == 0
  {
  }

  lemma NextYear(year: int)
    requires year >= 70
    ensures DaysBeforeYear(70) == 0
    ensures DaysBeforeYear(year + 1) == DaysBeforeYear(year) + YearDays(year)
  {
  }

  lemma {:induction false} YearStart(k: nat)
    requires 70 + 4 * k < 196
    ensures DaysBeforeYear(70 + 4 * k) == 1461 * k
    ensures DaysBeforeYear(71 + 4 * k) == 1461 * k + 365
    ensures DaysBeforeYear(72 + 4 * k) == 1461 * k + 730
    ensures DaysBeforeYear(73 + 4 * k) == 1461 * k + 1096
    ensures !IsLeap(70 + 4 * k) && !IsLeap(71 + 4 * k) && IsLeap(72 + 4 * k) && !IsLeap(73 + 4 * k)
  {
    hide DaysBeforeYear, IsLeap;
    var y := 70 + 4 * k;
    if k > 0 {
      YearStart(k - 1);
      NextYear(y - 1);
    } else {
      NextYear(70);
    }
    LeapByFour(y);
    LeapByFour(y + 1);
    LeapByFour(y + 2);
    LeapByFour(y + 3);
    NextYear(y);
    NextYear(y + 1);
    NextYear(y + 2);
  }

  lemma MonthStarts(year: int)
    ensures var l := if IsLeap(year) then 1 else 0;
      && DaysBeforeMonth(year, 0) == 0 && DaysBeforeMonth(year, 1) == 31 && DaysBeforeMonth(year, 2) == 59 + l
      && DaysBeforeMonth(year, 3) == 90 + l && DaysBeforeMonth(year, 4) == 120 + l
        && DaysBeforeMonth(year, 5) == 151 + l
      && DaysBeforeMonth(year, 6) == 181 + l && DaysBeforeMonth(year, 7) == 212 + l
        && DaysBeforeMonth(year, 8) == 243 + l
      && DaysBeforeMonth(year, 9) == 273 + l && DaysBeforeMonth(year, 10) == 304 + l
        && DaysBeforeMonth(year, 11) == 334 + l
      && DaysBeforeMonth(year, 12) == 365 + l
  {
    var l := if IsLeap(year) then 1 else 0;
    assert DaysBeforeMonth(year, 3) == 90 + l;
    assert DaysBeforeMonth(year, 6) == 181 + l;
    assert DaysBeforeMonth(year, 9) == 273 + l;
  }

  lemma MonthNext(year: int, mon: nat)
    ensures DaysBeforeMonth(year, mon + 1) == DaysBeforeMonth(year, mon) + MonthDays(year, mon)
    ensures DaysBeforeMonth(year, 0) == 0
  {
  }

  lemma {:induction false} MonthsAscend(year: int, m: int, n: int)
    requires 0 <= m < n <= 12
    ensures DaysBeforeMonth(year, m) + MonthDays(year, m) <= DaysBeforeMonth(year, n)
    decreases n
  {
    if m + 1 < n {
      MonthsAscend(year, m, n - 1);
    }
  }

  lemma {:induction false} YearsAscend(y: int, z: int)
    requires y < z
    ensures DaysBeforeYear(y) + YearDays(y) <= DaysBeforeYear(z)
    decreases z - y
  {
    assert DaysBeforeYear(z) == DaysBeforeYear(z - 1) + YearDays(z - 1);
    if y + 1 < z {
      YearsAscend(y, z - 1);
    }
  }

  lemma DateInYear(tm: Tm)
    requires Date(tm)
    ensures 0 <= tm.yday < YearDays(tm.year)
    ensures DaysBeforeYear(tm.year) <= DayNumber(tm) < DaysBeforeYear(tm.year) + YearDays(tm.year)
  {
    MonthStarts(tm.year);
    MonthsAscend(tm.year, tm.mon, 12);
    DaysBeforeMonthNonNegative(tm.year, tm.mon);
  }

  lemma {:induction false} DaysBeforeMonthNonNegative(year: int, mon: int)
    ensures 0 <= DaysBeforeMonth(year, mon)
    decreases mon
  {
    if mon > 0 {
      DaysBeforeMonthNonNegative(year, mon - 1);
    }
  }

  /** Earlier date or time, comparing year, month, day, hour, minute and second in this order. */
  predicate Earlier(a: Tm, b: Tm) {
    if a.year != b.year then a.year < b.year
    else if a.mon != b.mon then a.mon < b.mon
    else if a.mday != b.mday then a.mday < b.mday
    else if a.hour != b.hour then a.hour < b.hour
    else if a.min != b.min then a.min < b.min
    else a.sec < b.sec
  }

  lemma EarlierDate(a: Tm, b: Tm)
    requires Date(a) && Date(b)
    requires a.year < b.year || (a.year == b.year && (a.mon < b.mon || (a.mon == b.mon && a.mday < b.mday)))
    ensures DayNumber(a) < DayNumber(b)
  {
    if a.year < b.year {
      YearsAscend(a.year, b.year);
      DateInYear(a);
      DateInYear(b);
    } else if a.mon < b.mon {
      MonthsAscend(a.year, a.mon, b.mon);
    }
  }

  lemma EarlierIsLess(a: Tm, b: Tm)
    requires TimeOfDay(a) && Date(a) && TimeOfDay(b) && Date(b) && Earlier(a, b)
    ensures Seconds(a) < Seconds(b)
  {
    if a.year != b.year || a.mon != b.mon || a.mday != b.mday {
      EarlierDate(a, b);
    }
  }

  /** The fields determine the time stamp, and they compare as the time stamps do. */
  lemma CivilOrder(a: Tm, s: int, b: Tm, t: int)
    requires Civil(a, s) && Civil(b, t)
    ensures s < t <==> Earlier(a, b)
    ensures s == t <==> a == b
  {
    if Earlier(a, b) {
      EarlierIsLess(a, b);
    } else if Earlier(b, a) {
      EarlierIsLess(b, a);
    }
  }

  // ----- The conversion

  /** Day of the year before each month, minus one; the thirteenth entry ends the search. */
  const LPDAYS: seq<int> := [-1, 30, 59, 90, 120, 151, 181, 212, 243, 273, 304, 334, 365]
  const DAYS: seq<int> := [-1, 30, 58, 89, 119, 150, 180, 211, 242, 272, 303, 333, 364]

  lemma DayTables(year: int, m: int)
    requires 0 <= m <= 12
    ensures (if IsLeap(year) then LPDAYS else DAYS)[m] == DaysBeforeMonth(year, m) - 1
  {
    MonthStarts(year);
  }

  /** The structure a conversion writes its result to. */
  class TmStruct {
    var sec: int
    var min: int
    var hour: int
    var mday: int
    var mon: int
    var year: int
    var wday: int
    var yday: int
    var isdst: int

    function Value(): Tm
      reads this
    {
      Tm(sec, min, hour, mday, mon, year, wday, yday, isdst)
    }
  }

  /** The year within its four-year cycle, and the seconds left in that year. */
  method SplitYear(timer: int) returns (year: int, rest: int, leap: bool)
    requires 0 <= timer <= LONG_MAX
    ensures 70 <= year <= 138
    ensures timer == DAY_SEC * DaysBeforeYear(year) + rest && 0 <= rest < DAY_SEC * YearDays(year)
    ensures leap == IsLeap(year)
  {
    hide DaysBeforeYear, IsLeap;
    leap := false;
    var cycle := timer / FOUR_YEAR_SEC;
    rest := timer - cycle * FOUR_YEAR_SEC;
    assert 0 <= rest < FOUR_YEAR_SEC && cycle <= 17;
    YearStart(cycle);
    year := cycle * 4 + 70;
    if rest >= YEAR_SEC {
      year := year + 1;
      rest := rest - YEAR_SEC;
      if rest >= YEAR_SEC {
        year := year + 1;
        rest := rest - YEAR_SEC;
        if rest >= YEAR_SEC + DAY_SEC {
          year := year + 1;
          rest := rest - (YEAR_SEC + DAY_SEC);
        } else {
          leap := true;
        }
      }
    }
  }

  /** gmtime_r for the whole range of a 32-bit time stamp. */
  method GmtimeR(timer: int, ptm: TmStruct?) returns (rc: int)
    requires 0 <= timer <= LONG_MAX
    modifies ptm
    ensures ptm == null ==> rc == -1
    ensures ptm != null ==> rc == 0 && Civil(ptm.Value(), timer) && 70 <= ptm.year <= 138
  {
    hide DaysBeforeYear, DaysBeforeMonth, MonthDays, IsLeap;
    if ptm == null {
      return -1;
    }
    var year, ctimer, isleapyear := SplitYear(timer);
    ptm.year := year;
    ptm.yday := ctimer / DAY_SEC;
    ctimer := ctimer - ptm.yday * DAY_SEC;

    var mdays := if isleapyear then LPDAYS else DAYS;
    DayTables(year, 12);
    assert DaysBeforeMonth(year, 12) == YearDays(year) by { MonthStarts(year); }
    var m := 1;
    DayTables(year, 0);
    DayTables(year, 1);
    while mdays[m] < ptm.yday
      invariant 1 <= m <= 12
      invariant mdays[m - 1] < ptm.yday || m == 1
      invariant ptm.year == year
      invariant ptm.yday == (timer - DAY_SEC * DaysBeforeYear(year)) / DAY_SEC
      decreases 12 - m
    {
      m := m + 1;
    }
    m := m - 1;
    DayTables(year, m);
    DayTables(year, m + 1);
    assert DaysBeforeMonth(year, m + 1) == DaysBeforeMonth(year, m) + MonthDays(year, m) by { MonthNext(year, m); }
    ptm.mon := m;
    ptm.mday := ptm.yday - mdays[m];
    ptm.wday := (timer / DAY_SEC + BASE_DOW) % 7;
    ptm.hour := ctimer / 3600;
    ctimer := ctimer - ptm.hour * 3600;
    ptm.min := ctimer / 60;
    ptm.sec := ctimer - ptm.min * 60;
    ptm.isdst := 0;
    assert timer / DAY_SEC == DayNumber(ptm.Value());
    return 0;
  }
}
