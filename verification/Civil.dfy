/** The Gregorian calendar, counted day by day from January 1, 1970, and Gauss'
    formula for the number of a day. */
module Civil {

  datatype Date = Date(year: nat, month: nat, day: nat)

  predicate IsLeap(y: nat) {
    y % 4 == 0 && (y % 100 != 0 || y % 400 == 0)
  }

  function MonthDays(y: nat, m: nat): nat {
    if m == 2 then (if IsLeap(y) then 29 else 28)
    else if m == 4 || m == 6 || m == 9 || m == 11 then 30
    else 31
  }

  predicate Valid(d: Date) {
    1 <= d.month <= 12 && 1 <= d.day <= MonthDays(d.year, d.month)
  }

  function NextDay(d: Date): Date {
    if d.day < MonthDays(d.year, d.month) then d.(day := d.day + 1)
    else if d.month < 12 then Date(d.year, d.month + 1, 1)
    else Date(d.year + 1, 1, 1)
  }

  /** The date `n` days after January 1, 1970. */
  function DateOf(n: nat): Date {
    if n == 0 then Date(1970, 1, 1) else NextDay(DateOf(n - 1))
  }

  /** The day of the week `n` days after that Thursday, Sunday being 0. */
  function WeekdayOf(n: nat): nat {
    if n == 0 then 4 else if WeekdayOf(n - 1) == 6 then 0 else WeekdayOf(n - 1) + 1
  }

  // ---- Gauss' formula, with years that begin in March ----

  /** Days before March 1 of year `y`, from March 1 of year 0 on. */
  function YearDays(y: nat): nat {
    365 * y + y / 4 - y / 100 + y / 400
  }

  /** Days before the m-th month, March being the first. */
  function MonthStart(m: nat): int {
    367 * m / 12 - 30
  }

  function MarchYear(d: Date): int {
    if d.month <= 2 then d.year - 1 else d.year
  }

  function MarchMonth(d: Date): int {
    if d.month <= 2 then d.month + 10 else d.month - 2
  }

  /** The number of a day; January 1, 1970 has the number 0. */
  function Number(d: Date): int
    requires d.year >= 1
  {
    YearDays(MarchYear(d)) + MonthStart(MarchMonth(d)) + d.day - 1 - 719527 + 31 + 28
  }

  lemma Div4(y: nat)
    ensures (y + 1) / 4 == y / 4 + if (y + 1) % 4 == 0 then 1 else 0
  {
  }

  lemma Div100(y: nat)
    ensures (y + 1) / 100 == y / 100 + if (y + 1) % 100 == 0 then 1 else 0
  {
  }

  lemma Div400(y: nat)
    ensures (y + 1) / 400 == y / 400 + if (y + 1) % 400 == 0 then 1 else 0
  {
  }

  lemma Mods(y: nat)
    ensures y % 400 == 0 ==> y % 100 == 0
    ensures y % 100 == 0 ==> y % 4 == 0
  {
    if y % 400 == 0 {
      assert y == 100 * (4 * (y / 400));
    }
    if y % 100 == 0 {
      assert y == 4 * (25 * (y / 100));
    }
  }

  function YearLength(y: nat): nat {
    if IsLeap(y) then 366 else 365
  }

  /** A year that begins in March has the 29th of February of the next one. */
  lemma YearStep(y: nat)
    ensures YearDays(y + 1) == YearDays(y) + YearLength(y + 1)
  {
    Div4(y);
    Div100(y);
    Div400(y);
    Mods(y + 1);
  }

  /** From the end of February to March 1. */
  lemma MarchNext(d: Date)
    requires Valid(d) && d.year >= 1 && d.month == 2 && d.day == MonthDays(d.year, 2)
    ensures Number(Date(d.year, 3, 1)) == Number(d) + 1
  {
    YearStep(d.year - 1);
    assert MonthStart(12) == 337 && MonthStart(1) == 0;
  }

  /** A month that is not the last one, March being the first, has as many days as the formula says. */
  lemma MonthLength(y: nat, m: nat)
    requires 1 <= m <= 12 && m != 2
    ensures var k := if m <= 2 then m + 10 else m - 2; MonthStart(k) + MonthDays(y, m) == MonthStart(k + 1)
  {
  }

  /** From the end of another month to the next. */
  lemma MonthNext(d: Date)
    requires Valid(d) && d.year >= 1 && d.month != 2 && d.day == MonthDays(d.year, d.month)
    ensures Number(NextDay(d)) == Number(d) + 1
  {
    MonthLength(d.year, d.month);
  }

  lemma NumberNext(d: Date)
    requires Valid(d) && d.year >= 1
    ensures Valid(NextDay(d)) && Number(NextDay(d)) == Number(d) + 1
  {
    if d.day == MonthDays(d.year, d.month) {
      if d.month == 2 {
        MarchNext(d);
      } else {
        MonthNext(d);
      }
    }
  }

  lemma NextNumber(d: Date, e: Date, n: nat)
    requires Valid(d) && d.year >= 1970 && Number(d) + 1 == n && e == NextDay(d)
    ensures Valid(e) && e.year >= 1970 && Number(e) == n
  {
    NumberNext(d);
  }

  lemma {:induction false} DateNumber(n: nat)
    ensures Valid(DateOf(n)) && DateOf(n).year >= 1970 && Number(DateOf(n)) == n
  {
    if n > 0 {
      DateNumber(n - 1);
      NextNumber(DateOf(n - 1), NextDay(DateOf(n - 1)), n);
    }
  }

  lemma {:induction false} YearsGrow(a: nat, b: nat)
    requires a < b
    ensures YearDays(a + 1) <= YearDays(b)
  {
    if a + 1 < b {
      YearsGrow(a, b - 1);
      YearStep(b - 1);
    }
  }

  /** The place of a day in a year that begins in March. */
  function DayInYear(d: Date): int {
    MonthStart(MarchMonth(d)) + d.day - 1
  }

  lemma InYear(d: Date)
    requires Valid(d) && d.year >= 1
    ensures 0 <= DayInYear(d) < YearLength(MarchYear(d) + 1) && 1 <= MarchMonth(d) <= 12
    ensures MonthStart(MarchMonth(d)) <= DayInYear(d)
    ensures MarchMonth(d) < 12 ==> DayInYear(d) < MonthStart(MarchMonth(d) + 1)
  {
  }

  /** Day `n` is the i-th of the year that begins in March of year `y`. */
  predicate InMarchYear(n: int, y: nat, i: int) {
    YearDays(y) <= n < YearDays(y + 1) && n == YearDays(y) + i
  }

  lemma NumberIs(d: Date)
    requires Valid(d) && d.year >= 1
    ensures InMarchYear(Number(d) + 719468, MarchYear(d), DayInYear(d))
  {
    InYear(d);
    YearStep(MarchYear(d));
  }

  lemma YearOnly(n: nat, y: nat, z: nat)
    requires YearDays(y) <= n < YearDays(y + 1) && YearDays(z) <= n < YearDays(z + 1)
    ensures y == z
  {
    if y < z {
      YearsGrow(y, z);
    } else if z < y {
      YearsGrow(z, y);
    }
  }

  lemma MonthOnly(n: nat, a: nat, b: nat)
    requires 1 <= a <= 12 && 1 <= b <= 12 && MonthStart(a) <= n && MonthStart(b) <= n
    requires (a < 12 ==> n < MonthStart(a + 1)) && (b < 12 ==> n < MonthStart(b + 1))
    ensures a == b
  {
  }

  lemma SameYear(a: Date, b: Date)
    requires Valid(a) && Valid(b) && a.year >= 1 && b.year >= 1 && MarchYear(a) == MarchYear(b) && DayInYear(a) == DayInYear(b)
    ensures a == b
  {
    InYear(a);
    InYear(b);
    MonthOnly(DayInYear(a), MarchMonth(a), MarchMonth(b));
  }

  /** Only one date has a given number. */
  lemma NumberOnly(a: Date, b: Date)
    requires Valid(a) && Valid(b) && a.year >= 1 && b.year >= 1 && Number(a) == Number(b)
    ensures a == b
  {
    SameMarchYear(a, b, Number(a) + 719468);
    SameYear(a, b);
  }

  lemma SameMarchYear(a: Date, b: Date, n: nat)
    requires Valid(a) && Valid(b) && a.year >= 1 && b.year >= 1 && n == Number(a) + 719468 == Number(b) + 719468
    ensures MarchYear(a) == MarchYear(b) && DayInYear(a) == DayInYear(b)
  {
    NumberIs(a);
    NumberIs(b);
    OneYear(n, MarchYear(a), MarchYear(b), DayInYear(a), DayInYear(b));
  }

  lemma OneYear(n: nat, y: nat, z: nat, i: int, j: int)
    requires InMarchYear(n, y, i) && InMarchYear(n, z, j)
    ensures y == z && i == j
  {
    YearOnly(n, y, z);
  }

  lemma {:induction false} Weekday(n: nat)
    ensures WeekdayOf(n) == (4 + n) % 7
  {
    if n > 0 {
      Weekday(n - 1);
    }
  }
}
