/** Dates of the three formats are read as the times they stand for, and a printed
    time is read back. */
module HttpDateProofs {
  import opened Civil
  import opened Gmtime
  import opened HttpDate

  datatype Clock = Clock(hour: nat, min: nat, sec: nat)

  predicate ClockValid(c: Clock) {
    c.hour < 24 && c.min < 60 && c.sec < 60
  }

  /** Seconds since 1970 of a date and a time of the day. */
  function TimeOf(d: Date, c: Clock): int
    requires d.year >= 1
  {
    Number(d) * 86400 + c.hour * 3600 + c.min * 60 + c.sec
  }

  /** What can be written with a month's name, two digits for each number and four for the year. */
  predicate Written(d: Date, c: Clock) {
    1 <= d.month <= 12 && d.day < 100 && d.year < 10000 && c.hour < 100 && c.min < 100 && c.sec < 100
  }

  /** What such a date should be read as. The day 0 of a month is taken as the last day of the one before. */
  function Judged(d: Date, c: Clock): int
    requires d.year >= 1
  {
    if d.day <= MonthDays(d.year, d.month) && ClockValid(c) then TimeOf(d, c) else ERROR
  }

  // ---- The formula ----

  lemma SignedSmall(x: int)
    requires -(WORD / 2) <= x < WORD / 2
    ensures Signed(x) == x
  {
  }

  lemma NumberBound(d: Date)
    requires 1 <= d.month <= 12 && d.day < 100 && 1 <= d.year <= 9999
    ensures -1_000_000 < Number(d) < 4_000_000
  {
  }

  lemma YearBefore(year: int)
    requires 1 <= year <= 9999
    ensures (year - 1) % WORD == year - 1
  {
  }

  lemma SecondsOk(d: Date, c: Clock)
    requires Written(d, c) && d.year >= 1
    ensures Seconds(d.year, d.month - 1, d.day, c.hour, c.min, c.sec) == TimeOf(d, c)
  {
    NumberBound(d);
    YearBefore(d.year);
    SignedSmall(TimeOf(d, c));
  }

  lemma CheckedOk(d: Date, c: Clock)
    requires Written(d, c) && d.year >= 1
    ensures Checked(d.year, d.month - 1, d.day, c.hour, c.min, c.sec) == Judged(d, c)
  {
    SecondsOk(d, c);
  }

  // ---- Digits and months ----

  function Tens(n: nat): char
    requires n < 100
  {
    Digit(n / 10)
  }

  function Ones(n: nat): char {
    Digit(n % 10)
  }

  predicate TwoAt(v: string, p: nat, n: nat)
    requires n < 100
  {
    p + 1 < |v| && v[p] == Tens(n) && v[p + 1] == Ones(n)
  }

  lemma TwoRead(v: string, p: nat, n: nat)
    requires n < 100 && TwoAt(v, p, n)
    ensures Dig(v, p) && Dig(v, p + 1) && Two(v, p) == n
  {
  }

  predicate FourAt(v: string, p: nat, n: nat)
    requires n < 10000
  {
    TwoAt(v, p, n / 100) && TwoAt(v, p + 2, n % 100)
  }

  lemma FourRead(v: string, p: nat, n: nat)
    requires n < 10000 && FourAt(v, p, n)
    ensures Dig(v, p) && Dig(v, p + 1) && Dig(v, p + 2) && Dig(v, p + 3) && Four(v, p) == n
  {
    TwoRead(v, p, n / 100);
    TwoRead(v, p + 2, n % 100);
  }

  predicate MonthAt(v: string, p: nat, month: nat)
    requires 1 <= month <= 12
  {
    p + 2 < |v| && v[p] == MONTHS[month - 1][0] && v[p + 1] == MONTHS[month - 1][1] && v[p + 2] == MONTHS[month - 1][2]
  }

  lemma MonthRead(v: string, p: nat, month: nat)
    requires 1 <= month <= 12 && MonthAt(v, p, month)
    ensures Month(v, p) == month - 1
  {
  }

  predicate ClockAt(v: string, p: nat, c: Clock)
    requires c.hour < 100 && c.min < 100 && c.sec < 100
  {
    && p + 8 < |v| && v[p] == ' ' && TwoAt(v, p + 1, c.hour) && v[p + 3] == ':' && TwoAt(v, p + 4, c.min)
    && v[p + 6] == ':' && TwoAt(v, p + 7, c.sec)
  }

  lemma ClockRead(v: string, p: nat, c: Clock)
    requires c.hour < 100 && c.min < 100 && c.sec < 100 && ClockAt(v, p, c)
    ensures ClockOk(v, p) && Two(v, p + 1) == c.hour && Two(v, p + 4) == c.min && Two(v, p + 7) == c.sec
  {
    TwoRead(v, p + 1, c.hour);
    TwoRead(v, p + 4, c.min);
    TwoRead(v, p + 7, c.sec);
  }

  // ---- The three formats ----

  /** The day of the week that comes first. */
  predicate DayName(w: string) {
    forall i | 0 <= i < |w| :: w[i] != ',' && w[i] != ' '
  }

  /** "Sun, 06 Nov 1994 08:49:37" in `v`, of which the name of the day takes `p` characters. */
  predicate IsRfc822(v: string, p: nat, d: Date, c: Clock)
    requires Written(d, c)
  {
    && p + 22 < |v| && DayName(v[..p]) && v[p] == ',' && v[p + 1] == ' ' && TwoAt(v, p + 2, d.day) && v[p + 4] == ' '
    && MonthAt(v, p + 5, d.month) && v[p + 8] == ' ' && FourAt(v, p + 9, d.year) && ClockAt(v, p + 13, c)
  }

  /** "Sunday, 06-Nov-94 08:49:37" */
  predicate IsRfc850(v: string, p: nat, d: Date, c: Clock)
    requires Written(d, c) && 1970 <= d.year < 2070
  {
    && p + 19 < |v| && DayName(v[..p]) && v[p] == ',' && v[p + 1] == ' ' && TwoAt(v, p + 2, d.day) && v[p + 4] == '-'
    && MonthAt(v, p + 5, d.month) && v[p + 8] == '-' && TwoAt(v, p + 9, d.year % 100) && ClockAt(v, p + 11, c)
  }

  /** "Sun Nov  6 08:49:37 1994" */
  predicate IsAsciiTime(v: string, p: nat, d: Date, c: Clock)
    requires Written(d, c)
  {
    && p + 20 < |v| && DayName(v[..p]) && v[p] == ' ' && MonthAt(v, p + 1, d.month) && v[p + 4] == ' '
    && (if d.day < 10 then v[p + 5] == ' ' && v[p + 6] == Digit(d.day) else TwoAt(v, p + 5, d.day))
    && ClockAt(v, p + 7, c) && v[p + 16] == ' ' && FourAt(v, p + 17, d.year)
  }

  lemma {:induction false} BreakAt(v: string, i: nat, p: nat)
    requires i <= p < |v| && DayName(v[..p]) && (v[p] == ',' || v[p] == ' ')
    ensures Break(v, i) == p
    decreases p - i
  {
    if i < p {
      assert v[i] == v[..p][i];
      BreakAt(v, i + 1, p);
    }
  }

  lemma DigitNotSpace(n: nat)
    requires n < 10
    ensures Digit(n) != ' '
  {
  }

  lemma ReadRfc822(v: string, p: nat, d: Date, c: Clock)
    requires Written(d, c) && d.year >= 1 && IsRfc822(v, p, d, c)
    ensures Parse(v) == Judged(d, c)
  {
    BreakAt(v, 0, p);
    DigitNotSpace(d.day / 10);
    assert Spaces(v, p + 1) == p + 2;
    TwoRead(v, p + 2, d.day);
    MonthRead(v, p + 5, d.month);
    FourRead(v, p + 9, d.year);
    ClockRead(v, p + 13, c);
    CheckedOk(d, c);
  }

  lemma Century(year: nat)
    requires 1970 <= year < 2070
    ensures var yy := year % 100; yy + (if yy < 70 then 2000 else 1900) == year
  {
  }

  lemma AfterDay850(v: string, p: nat, d: Date, c: Clock)
    requires Written(d, c) && 1970 <= d.year < 2070 && p + 15 <= |v|
    requires MonthAt(v, p, d.month) && v[p + 3] == '-' && TwoAt(v, p + 4, d.year % 100) && ClockAt(v, p + 6, c)
    ensures AfterDay(v, p, Rfc850, d.day) == Judged(d, c)
  {
    MonthRead(v, p, d.month);
    TwoRead(v, p + 4, d.year % 100);
    Century(d.year);
    ClockRead(v, p + 6, c);
    CheckedOk(d, c);
  }

  lemma ReadRfc850(v: string, p: nat, d: Date, c: Clock)
    requires Written(d, c) && 1970 <= d.year < 2070 && IsRfc850(v, p, d, c)
    ensures Parse(v) == Judged(d, c)
  {
    BreakAt(v, 0, p);
    DigitNotSpace(d.day / 10);
    assert Spaces(v, p + 1) == p + 2;
    TwoRead(v, p + 2, d.day);
    AfterDay850(v, p + 5, d, c);
  }

  lemma AsciiClockRead(v: string, p: nat, d: Date, c: Clock)
    requires Written(d, c) && d.year >= 1 && p + 14 <= |v|
    requires ClockAt(v, p, c) && v[p + 9] == ' ' && FourAt(v, p + 10, d.year)
    ensures AsciiClock(v, p, d.month - 1, d.day) == Judged(d, c)
  {
    ClockRead(v, p, c);
    FourRead(v, p + 10, d.year);
    CheckedOk(d, c);
  }

  lemma OneRead(v: string, p: nat, n: nat)
    requires n < 10 && p < |v| && v[p] == Digit(n)
    ensures Dig(v, p) && Val(v, p) == n
  {
  }

  lemma AsciiOneDigit(v: string, p: nat, d: Date, c: Clock)
    requires Written(d, c) && d.year >= 1 && p + 20 <= |v| && d.day < 10
    requires MonthAt(v, p, d.month) && v[p + 4] == ' ' && v[p + 5] == Digit(d.day) && ClockAt(v, p + 6, c)
    requires v[p + 15] == ' ' && FourAt(v, p + 16, d.year)
    ensures AsciiTime(v, p) == Judged(d, c)
  {
    MonthRead(v, p, d.month);
    OneRead(v, p + 5, d.day);
    AsciiClockRead(v, p + 6, d, c);
  }

  lemma AsciiTwoDigits(v: string, p: nat, d: Date, c: Clock)
    requires Written(d, c) && d.year >= 1 && p + 20 <= |v|
    requires MonthAt(v, p, d.month) && TwoAt(v, p + 4, d.day) && ClockAt(v, p + 6, c)
    requires v[p + 15] == ' ' && FourAt(v, p + 16, d.year)
    ensures AsciiTime(v, p) == Judged(d, c)
  {
    MonthRead(v, p, d.month);
    TwoRead(v, p + 4, d.day);
    DigitNotSpace(d.day / 10);
    DigitNotSpace(d.day % 10);
    AsciiClockRead(v, p + 6, d, c);
  }

  lemma MonthNotSpace(v: string, p: nat, month: nat)
    requires 1 <= month <= 12 && MonthAt(v, p, month)
    ensures v[p] != ' '
  {
  }

  lemma ReadAsciiTime(v: string, p: nat, d: Date, c: Clock)
    requires Written(d, c) && d.year >= 1 && IsAsciiTime(v, p, d, c)
    ensures Parse(v) == Judged(d, c)
  {
    BreakAt(v, 0, p);
    MonthNotSpace(v, p + 1, d.month);
    assert Spaces(v, p + 1) == p + 1;
    if d.day < 10 {
      AsciiOneDigit(v, p + 1, d, c);
    } else {
      AsciiTwoDigits(v, p + 1, d, c);
    }
  }

  // ---- Printing and reading back ----

  lemma PaddedTwo(n: nat)
    requires n < 100
    ensures Padded(n, 2, '0') == [Tens(n), Ones(n)]
  {
    if n >= 10 {
      assert Digits(n) == Digits(n / 10) + [Digit(n % 10)];
      assert Digits(n / 10) == [Digit(n / 10)];
    }
  }

  lemma PaddedFour(n: nat)
    requires 1000 <= n < 10000
    ensures Padded(n, 4, ' ') == [Tens(n / 100), Ones(n / 100), Tens(n % 100), Ones(n % 100)]
  {
    DigitsMore(n);
    DigitsMore(n / 10);
    DigitsMore(n / 100);
    assert Digits(n / 1000) == [Digit(n / 1000)];
    FourParts(n);
  }

  lemma DigitsMore(n: nat)
    requires n >= 10
    ensures Digits(n) == Digits(n / 10) + [Digit(n % 10)]
  {
  }

  lemma FourParts(n: nat)
    requires 1000 <= n < 10000
    ensures n / 10 / 10 == n / 100 && n / 100 / 10 == n / 1000 && n / 10 % 10 == n % 100 / 10 && n % 100 % 10 == n % 10
    ensures n / 100 < 100
  {
  }

  /** The text of a date in the preferred format. */
  function Rfc822(w: string, d: Date, c: Clock): string
    requires Valid(d) && d.year < 10000 && ClockValid(c)
  {
    w + [',', ' ', Tens(d.day), Ones(d.day), ' ']
    + MONTHS[d.month - 1]
    + [' ', Tens(d.year / 100), Ones(d.year / 100), Tens(d.year % 100), Ones(d.year % 100), ' ']
    + [Tens(c.hour), Ones(c.hour), ':', Tens(c.min), Ones(c.min), ':', Tens(c.sec), Ones(c.sec), ' ', 'G', 'M', 'T']
  }

  lemma MonthLength(month: nat)
    requires 1 <= month <= 12
    ensures |MONTHS[month - 1]| == 3
  {
  }

  lemma Rfc822Is(w: string, d: Date, c: Clock)
    requires Valid(d) && d.year < 10000 && ClockValid(c) && DayName(w)
    ensures IsRfc822(Rfc822(w, d, c), |w|, d, c)
  {
    MonthLength(d.month);
    var v := Rfc822(w, d, c);
    assert v[..|w|] == w;
  }

  lemma LateYear(d: Date)
    requires Valid(d) && d.year > 9999
    ensures Number(d) > 2932896
  {
    InYear(d);
    NumberIs(d);
    if MarchYear(d) > 9999 {
      YearsGrow(9999, MarchYear(d));
    }
  }

  lemma WeekNames(n: nat)
    requires n < 7
    ensures DayName(WEEK[n])
  {
  }

  lemma Regroup(x: string, a: string, b: string, c: string)
    ensures x + a + b + c == x + (a + b + c)
  {
  }

  lemma Pieces(w: string, day: string, month: string, year: string, hour: string, min: string, sec: string)
    ensures w + ", " + day + " " + month + " " + year + " " + hour + ":" + min + ":" + sec + " GMT" ==
      w + (", " + day + " ") + month + (" " + year + " ") + (hour + ":" + min + (":" + sec + " GMT"))
  {
    Regroup(w, ", ", day, " ");
    var x := w + (", " + day + " ") + month;
    Regroup(x, " ", year, " ");
    var y := x + (" " + year + " ");
    Regroup(y, hour, ":", min);
    var z := y + (hour + ":" + min);
    Regroup(z, ":", sec, " GMT");
    assert z + (":" + sec + " GMT") == y + (hour + ":" + min + (":" + sec + " GMT"));
  }

  lemma HttpTimeIs(t: nat)
    requires DateOf(t / 86400).year < 10000
    ensures var n := t % 86400;
            var c := Clock(n / 3600, n % 3600 / 60, n % 3600 % 60);
            && ClockValid(c) && Valid(DateOf(t / 86400)) && WeekdayOf(t / 86400) < 7
            && HttpTime(t) == Rfc822(WEEK[WeekdayOf(t / 86400)], DateOf(t / 86400), c)
  {
    GmTimeIs(t);
    DateNumber(t / 86400);
    WeekBelow(t / 86400);
    var tm := GmTime(t);
    Printed(WEEK[tm.wday], Date(tm.year, tm.mon, tm.mday), Clock(tm.hour, tm.min, tm.sec));
  }

  lemma Printed(w: string, d: Date, c: Clock)
    requires Valid(d) && 1000 <= d.year < 10000 && ClockValid(c)
    ensures Rfc822(w, d, c) ==
      w + ", " + Padded(d.day, 2, '0') + " " + MONTHS[d.month - 1] + " " + Padded(d.year, 4, ' ') + " "
      + Padded(c.hour, 2, '0') + ":" + Padded(c.min, 2, '0') + ":" + Padded(c.sec, 2, '0') + " GMT"
  {
    Pieces(w, Padded(d.day, 2, '0'), MONTHS[d.month - 1], Padded(d.year, 4, ' '), Padded(c.hour, 2, '0'),
           Padded(c.min, 2, '0'), Padded(c.sec, 2, '0'));
    PaddedTwo(d.day);
    PaddedFour(d.year);
    Spelled(c);
  }

  lemma Spelled(c: Clock)
    requires ClockValid(c)
    ensures Padded(c.hour, 2, '0') + ":" + Padded(c.min, 2, '0') + (":" + Padded(c.sec, 2, '0') + " GMT") ==
      [Tens(c.hour), Ones(c.hour), ':', Tens(c.min), Ones(c.min), ':', Tens(c.sec), Ones(c.sec), ' ', 'G', 'M', 'T']
  {
    PaddedTwo(c.hour);
    PaddedTwo(c.min);
    PaddedTwo(c.sec);
  }

  /** Every time up to the end of the year 9999 is read back from its printed form. */
  lemma ReadPrinted(t: nat)
    requires t <= 253402300799
    ensures Parse(HttpTime(t)) == t
  {
    var d := DateOf(t / 86400);
    DateNumber(t / 86400);
    if d.year > 9999 {
      LateYear(d);
    }
    HttpTimeIs(t);
    var n := t % 86400;
    var c := Clock(n / 3600, n % 3600 / 60, n % 3600 % 60);
    var w := WEEK[WeekdayOf(t / 86400)];
    WeekNames(WeekdayOf(t / 86400));
    Rfc822Is(w, d, c);
    ReadRfc822(Rfc822(w, d, c), |w|, d, c);
    Gmtime.Clock(n);
  }
}
