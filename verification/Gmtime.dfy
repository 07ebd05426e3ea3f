/** Seconds since 1970 as a date and a time of the day. */
module Gmtime {
  import opened Civil

  datatype Tm = Tm(sec: nat, min: nat, hour: nat, mday: int, mon: int, year: int, wday: nat)

  function YearEstimate(days: nat): nat {
    (days + 2) * 400 / (365 * 400 + 100 - 4 + 1)
  }

  /** The year that begins in March, and the day in it. */
  function YearAndDay(days: nat): (int, int) {
    var year := YearEstimate(days);
    var yday := days - YearDays(year);
    if yday < 0 then (year - 1, 365 + (if IsLeap(year) then 1 else 0) + yday) else (year, yday)
  }

  function MonthOf(yday: int): int {
    (yday + 31) * 10 / 306
  }

  /** The date of a day that is counted from March 1 of year 0 on. */
  function DateFrom(days: nat): (int, int, int) {
    var (year, yday) := YearAndDay(days);
    var mon := MonthOf(yday);
    var mday := yday - (367 * mon / 12 - 30) + 1;
    if yday >= 306 then (year + 1, mon - 10, mday) else (year, mon + 2, mday)
  }

  function GmTime(t: nat): Tm {
    var days, n := t / 86400, t % 86400;
    var (year, mon, mday) := DateFrom(days - (31 + 28) + 719527);
    Tm(n % 3600 % 60, n % 3600 / 60, n / 3600, mday, mon, year, (4 + days) % 7)
  }

  lemma Delta(y: nat)
    ensures 146097 * y - 700 < 400 * YearDays(y) < 146097 * y + 400
  {
    assert y - 4 < 4 * (y / 4) <= y;
    assert y - 100 < 100 * (y / 100) <= y;
    assert y - 400 < 400 * (y / 400) <= y;
  }

  /** The estimate is the year or the one after it. */
  lemma Estimate(days: nat)
    ensures var e := YearEstimate(days); days < YearDays(e + 1) && (e > 0 ==> YearDays(e - 1) <= days)
  {
    var e := YearEstimate(days);
    assert 146097 * e <= 400 * (days + 2) < 146097 * (e + 1);
    Delta(e + 1);
    if e > 0 {
      Delta(e - 1);
    }
  }

  lemma YearDayOk(days: nat)
    requires days >= 366
    ensures var (year, yday) := YearAndDay(days);
            year >= 0 && 0 <= yday < YearLength(year + 1) && YearDays(year) + yday == days
  {
    var e := YearEstimate(days);
    Estimate(days);
    assert e > 0;
    YearStep(e);
    YearStep(e - 1);
  }

  /** The formula finds the month that the day is in. */
  lemma MonthOk(yday: int)
    requires 0 <= yday <= 365
    ensures var mon := MonthOf(yday);
            && 1 <= mon <= 12 && (yday >= 306 <==> mon >= 11)
            && MonthStart(mon) <= yday && (mon < 12 ==> yday < MonthStart(mon + 1))
  {
    var mon := MonthOf(yday);
    assert 306 * mon <= (yday + 31) * 10 < 306 * (mon + 1);
  }

  lemma DateOk(year: nat, yday: int, mon: int, d: Date)
    requires 0 <= yday < YearLength(year + 1) && 1 <= mon <= 12 && MonthStart(mon) <= yday
    requires mon < 12 ==> yday < MonthStart(mon + 1)
    requires d == (if mon >= 11 then Date(year + 1, mon - 10, yday - MonthStart(mon) + 1)
                   else Date(year, mon + 2, yday - MonthStart(mon) + 1))
    ensures Valid(d) && MarchYear(d) == year && MarchMonth(d) == mon && DayInYear(d) == yday
  {
  }

  /** The date that is computed has the number of the day. */
  lemma DateNumbered(days: nat)
    requires days >= 719468
    ensures var (year, mon, mday) := DateFrom(days);
            && year >= 1 && mon >= 0 && mday >= 0
            && var d := Date(year, mon, mday); Valid(d) && Number(d) == days - 719468
  {
    YearDayOk(days);
    var (year, yday) := YearAndDay(days);
    NotYearZero(year, yday, days);
    MonthOk(yday);
    Assembled(year, yday, MonthOf(yday), days);
  }

  lemma Assembled(year: nat, yday: int, mon: int, days: nat)
    requires year >= 1 && 0 <= yday < YearLength(year + 1) && 1 <= mon <= 12 && MonthStart(mon) <= yday
    requires (mon < 12 ==> yday < MonthStart(mon + 1)) && YearDays(year) + yday == days
    ensures var d := if mon >= 11 then Date(year + 1, mon - 10, yday - MonthStart(mon) + 1)
                     else Date(year, mon + 2, yday - MonthStart(mon) + 1);
            Valid(d) && Number(d) == days - 719468
  {
    var d := if mon >= 11 then Date(year + 1, mon - 10, yday - MonthStart(mon) + 1)
             else Date(year, mon + 2, yday - MonthStart(mon) + 1);
    DateOk(year, yday, mon, d);
    NumberIs(d);
  }

  lemma NotYearZero(year: nat, yday: int, days: nat)
    requires yday <= 366 && YearDays(year) + yday == days && days >= 719468
    ensures year >= 1
  {
  }

  /** For every time the result is the date that many days after January 1, 1970, with its day of the
      week, and the time of the day. */
  lemma GmTimeIs(t: nat)
    ensures var tm := GmTime(t);
            && tm.year >= 0 && tm.mon >= 0 && tm.mday >= 0 && Date(tm.year, tm.mon, tm.mday) == DateOf(t / 86400)
            && tm.wday == WeekdayOf(t / 86400)
            && tm.hour < 24 && tm.min < 60 && tm.sec < 60 && t % 86400 == tm.hour * 3600 + tm.min * 60 + tm.sec
  {
    var tm := GmTime(t);
    DateNumbered(t / 86400 - (31 + 28) + 719527);
    DateNumber(t / 86400);
    NumberOnly(Date(tm.year, tm.mon, tm.mday), DateOf(t / 86400));
    Weekday(t / 86400);
    Clock(t % 86400);
  }

  lemma Clock(n: nat)
    requires n < 86400
    ensures n / 3600 < 24 && n % 3600 / 60 < 60 && n % 3600 % 60 < 60
    ensures n == n / 3600 * 3600 + n % 3600 / 60 * 60 + n % 3600 % 60
  {
  }
}
