/** Dates as HTTP writes them: printing, and reading the three formats. */
module HttpDate {
  import opened Civil
  import opened Gmtime

  const WEEK := ["Sun", "Mon", "Tue", "Wed", "Thu", "Fri", "Sat"]
  const MONTHS := ["Jan", "Feb", "Mar", "Apr", "May", "Jun", "Jul", "Aug", "Sep", "Oct", "Nov", "Dec"]
  const MDAY := [31, 28, 31, 30, 31, 30, 31, 31, 30, 31, 30, 31]
  const ERROR := -1
  const WORD := 0x1_0000_0000_0000_0000

  // ---- Printing ----

  function Digit(n: nat): char
    requires n < 10
  {
    '0' + n as char
  }

  function Digits(n: nat): string {
    if n < 10 then [Digit(n)] else Digits(n / 10) + [Digit(n % 10)]
  }

  /** A number with at least `width` characters. */
  function Padded(n: nat, width: nat, pad: char): string {
    var s := Digits(n);
    seq(if |s| < width then width - |s| else 0, _ => pad) + s
  }

  function HttpTime(t: nat): string {
    GmTimeIs(t);
    DateNumber(t / 86400);
    WeekBelow(t / 86400);
    var tm := GmTime(t);
    WEEK[tm.wday] + ", " + Padded(tm.mday, 2, '0') + " " + MONTHS[tm.mon - 1] + " " + Padded(tm.year, 4, ' ') + " "
    + Padded(tm.hour, 2, '0') + ":" + Padded(tm.min, 2, '0') + ":" + Padded(tm.sec, 2, '0') + " GMT"
  }

  lemma WeekBelow(n: nat)
    ensures WeekdayOf(n) < 7
  {
    Weekday(n);
  }

  // ---- Reading ----

  datatype Format = No | Rfc822 | Rfc850 | Isoc

  predicate Dig(v: string, p: nat) {
    p < |v| && '0' <= v[p] <= '9'
  }

  function Val(v: string, p: nat): int
    requires p < |v|
  {
    v[p] as int - '0' as int
  }

  function Two(v: string, p: nat): int
    requires p + 1 < |v|
  {
    Val(v, p) * 10 + Val(v, p + 1)
  }

  function Four(v: string, p: nat): int
    requires p + 3 < |v|
  {
    Val(v, p) * 1000 + Val(v, p + 1) * 100 + Val(v, p + 2) * 10 + Val(v, p + 3)
  }

  /** The month from its first letters, or ERROR. */
  function Month(v: string, p: nat): int
    requires p + 2 < |v|
  {
    if v[p] == 'J' then (if v[p + 1] == 'a' then 0 else if v[p + 2] == 'n' then 5 else 6)
    else if v[p] == 'F' then 1
    else if v[p] == 'M' then (if v[p + 2] == 'r' then 2 else 4)
    else if v[p] == 'A' then (if v[p + 1] == 'p' then 3 else 7)
    else if v[p] == 'S' then 8
    else if v[p] == 'O' then 9
    else if v[p] == 'N' then 10
    else if v[p] == 'D' then 11
    else ERROR
  }

  predicate ClockOk(v: string, p: nat) {
    && p + 8 < |v| && v[p] == ' ' && Dig(v, p + 1) && Dig(v, p + 2) && v[p + 3] == ':' && Dig(v, p + 4) && Dig(v, p + 5)
    && v[p + 6] == ':' && Dig(v, p + 7) && Dig(v, p + 8)
  }

  /** Seconds of a date, in 64-bit arithmetic; months are counted from 0. */
  function Seconds(year: int, month: int, day: int, hour: int, min: int, sec: int): int {
    var (m, y) := if month - 1 <= 0 then (month + 11, (year - 1) % WORD) else (month - 1, year);
    var days := 365 * y + y / 4 - y / 100 + y / 400 + 367 * m / 12 - 30 + day - 1 - 719527 + 31 + 28;
    Signed(days * 86400 + hour * 3600 + min * 60 + sec)
  }

  function Signed(x: int): int {
    if x % WORD >= WORD / 2 then x % WORD - WORD else x % WORD
  }

  function Checked(year: int, month: int, day: int, hour: int, min: int, sec: int): int
    requires 0 <= month < 12
  {
    if hour > 23 || min > 59 || sec > 59 then ERROR
    else if day == 29 && month == 1 then
      if year % 4 != 0 || (year % 100 == 0 && year % 400 != 0) then ERROR
      else Seconds(year, month, day, hour, min, sec)
    else if day > MDAY[month] then ERROR
    else Seconds(year, month, day, hour, min, sec)
  }

  /** The date from the month on, for the formats that have the day first. */
  function AfterDay(v: string, p: nat, format: Format, day: int): int
    requires p + (if format == Rfc822 then 17 else 15) <= |v| && (format == Rfc822 || format == Rfc850)
  {
    var month := Month(v, p);
    if month == ERROR || v[p + 3] != (if format == Rfc822 then ' ' else '-') then ERROR
    else if format == Rfc822 then
      if !(Dig(v, p + 4) && Dig(v, p + 5) && Dig(v, p + 6) && Dig(v, p + 7)) || !ClockOk(v, p + 8) then ERROR
      else Checked(Four(v, p + 4), month, day, Two(v, p + 9), Two(v, p + 12), Two(v, p + 15))
    else
      if !(Dig(v, p + 4) && Dig(v, p + 5)) || !ClockOk(v, p + 6) then ERROR
      else
        var yy := Two(v, p + 4);
        Checked(yy + (if yy < 70 then 2000 else 1900), month, day, Two(v, p + 7), Two(v, p + 10), Two(v, p + 13))
  }

  /** The format of asctime(), from the month on. */
  function AsciiTime(v: string, p: nat): int
    requires p + 18 <= |v|
  {
    var month := Month(v, p);
    if month == ERROR then ERROR
    else
      var q := if v[p + 4] == ' ' then p + 5 else p + 4;
      if !Dig(v, q) then ERROR
      else if v[q + 1] == ' ' then AsciiClock(v, q + 1, month, Val(v, q))
      else if !Dig(v, q + 1) then ERROR
      else AsciiClock(v, q + 2, month, Two(v, q))
  }

  function AsciiClock(v: string, p: nat, month: int, day: int): int
    requires 0 <= month < 12
  {
    if p + 14 > |v| || !ClockOk(v, p) || v[p + 9] != ' ' then ERROR
    else if !(Dig(v, p + 10) && Dig(v, p + 11) && Dig(v, p + 12) && Dig(v, p + 13)) then ERROR
    else Checked(Four(v, p + 10), month, day, Two(v, p + 1), Two(v, p + 4), Two(v, p + 7))
  }

  function FromDay(v: string, p: nat, format: Format): int {
    if p + 18 > |v| then ERROR
    else if format == Isoc then AsciiTime(v, p)
    else if !(Dig(v, p) && Dig(v, p + 1)) then ERROR
    else if v[p + 2] == ' ' then (if p + 20 > |v| then ERROR else AfterDay(v, p + 3, Rfc822, Two(v, p)))
    else if v[p + 2] == '-' then AfterDay(v, p + 3, Rfc850, Two(v, p))
    else ERROR
  }

  /** The first comma or space from `p` on. */
  function Break(v: string, p: nat): (r: nat)
    requires p <= |v|
    ensures p <= r <= |v|
    decreases |v| - p
  {
    if p == |v| || v[p] == ',' || v[p] == ' ' then p else Break(v, p + 1)
  }

  function Spaces(v: string, p: nat): (r: nat)
    ensures p <= r
    decreases |v| - p
  {
    if p < |v| && v[p] == ' ' then Spaces(v, p + 1) else p
  }

  function Parse(v: string): int {
    var p := Break(v, 0);
    FromDay(v, Spaces(v, p + 1), if p < |v| && v[p] == ' ' then Isoc else No)
  }

  method ParseHttpTime(v: string) returns (time: int)
    ensures time == Parse(v)
  {
    var p, format := 0, No;
    while p < |v|
      invariant p <= |v| && format == No && Break(v, 0) == Break(v, p)
    {
      if v[p] == ',' {
        break;
      }
      if v[p] == ' ' {
        format := Isoc;
        break;
      }
      p := p + 1;
    }
    ghost var q := p + 1;
    p := p + 1;
    while p < |v|
      invariant q <= p && Spaces(v, q) == Spaces(v, p)
    {
      if v[p] != ' ' {
        break;
      }
      p := p + 1;
    }
    return FromDay(v, p, format);
  }
}
